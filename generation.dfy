/**
 * generate_book in main.py once the outline is parsed: build the book, then
 * walk the outline (stream_section_content), generating every string-valued
 * item in insertion order, routing its text into its buffer and folding its
 * statistics into a running "Combined" total, while counting completed
 * sections against the number of flattened titles.
 */
module Generation {
  import opened Wrappers
  import opened Statistics
  import opened Outlines
  import opened Books
  import opened Sections

  /**
   * The section-generation provider: the stream of chunks answered to the
   * k-th section call (counting from 0) made with the given prompt.
   */
  type Provider = (nat, string) -> seq<Chunk>

  /** The prompt of a section call: f"{title}: {content}". */
  function Prompt(title: string, desc: string): string {
    title + ": " + desc
  }

  /** The events of the k-th section call, made for `leaf`. */
  function CallEvents(provider: Provider, k: nat, leaf: (string, string)): seq<Event> {
    SectionEvents(provider(k, Prompt(leaf.0, leaf.1)))
  }

  /** The text the k-th call, made for `leaf`, streams into that leaf's buffer. */
  function CallText(provider: Provider, k: nat, leaf: (string, string)): string {
    Text(CallEvents(provider, k, leaf))
  }

  /** The statistics records the k-th call, made for `leaf`, reports. */
  function CallReports(provider: Provider, k: nat, leaf: (string, string)): seq<Stats> {
    Reports(CallEvents(provider, k, leaf))
  }

  /** The text routed to title `t` by the calls k, k+1, ... made for `leaves`. */
  function LeafText(t: string, leaves: seq<(string, string)>, provider: Provider, k: nat): string
    decreases |leaves|
  {
    if leaves == [] then ""
    else (if leaves[0].0 == t then CallText(provider, k, leaves[0]) else "")
         + LeafText(t, leaves[1..], provider, k + 1)
  }

  /** The statistics records reported by the calls k, k+1, ... made for `leaves`, in order. */
  function LeafReports(leaves: seq<(string, string)>, provider: Provider, k: nat): seq<Stats>
    decreases |leaves|
  {
    if leaves == [] then []
    else CallReports(provider, k, leaves[0]) + LeafReports(leaves[1..], provider, k + 1)
  }

  lemma {:induction false} LeafTextAppend(t: string, a: seq<(string, string)>, b: seq<(string, string)>, provider: Provider, k: nat)
    ensures LeafText(t, a + b, provider, k) == LeafText(t, a, provider, k) + LeafText(t, b, provider, k + |a|)
    decreases |a|
  {
    if a == [] {
      assert a + b == b;
    } else {
      assert (a + b)[0] == a[0] && (a + b)[1..] == a[1..] + b;
      var first := if a[0].0 == t then CallText(provider, k, a[0]) else "";
      var rest := LeafText(t, a[1..], provider, k + 1);
      var tail := LeafText(t, b, provider, k + |a|);
      LeafTextAppend(t, a[1..], b, provider, k + 1);
      assert LeafText(t, a + b, provider, k) == first + (rest + tail);
      ConcatAssociates(first, rest, tail);
    }
  }

  lemma {:induction false} LeafReportsAppend(a: seq<(string, string)>, b: seq<(string, string)>, provider: Provider, k: nat)
    ensures LeafReports(a + b, provider, k) == LeafReports(a, provider, k) + LeafReports(b, provider, k + |a|)
    decreases |a|
  {
    if a == [] {
      assert a + b == b;
    } else {
      assert (a + b)[0] == a[0] && (a + b)[1..] == a[1..] + b;
      var first := CallReports(provider, k, a[0]);
      var rest := LeafReports(a[1..], provider, k + 1);
      var tail := LeafReports(b, provider, k + |a|);
      LeafReportsAppend(a[1..], b, provider, k + 1);
      assert LeafReports(a + b, provider, k) == first + (rest + tail);
      ConcatAssociates(first, rest, tail);
    }
  }

  /** A title that is not the title of a generated item never receives text. */
  lemma {:induction false} LeafTextNotLeaf(t: string, leaves: seq<(string, string)>, provider: Provider, k: nat)
    requires forall i :: 0 <= i < |leaves| ==> leaves[i].0 != t
    ensures LeafText(t, leaves, provider, k) == ""
    decreases |leaves|
  {
    if leaves != [] {
      LeafTextNotLeaf(t, leaves[1..], provider, k + 1);
    }
  }

  /**
   * When a title names exactly one generated item, its buffer receives
   * exactly the text of that item's own call, nothing lost and nothing
   * from other calls.
   */
  lemma {:induction false} LeafTextUnique(t: string, leaves: seq<(string, string)>, provider: Provider, k: nat, j: nat)
    requires j < |leaves| && leaves[j].0 == t
    requires forall i :: 0 <= i < |leaves| && i != j ==> leaves[i].0 != t
    ensures LeafText(t, leaves, provider, k) == StreamedText(provider(k + j, Prompt(t, leaves[j].1)))
    decreases |leaves|
  {
    if j == 0 {
      LeafTextNotLeaf(t, leaves[1..], provider, k + 1);
      TextKept(provider(k, Prompt(t, leaves[0].1)));
    } else {
      LeafTextUnique(t, leaves[1..], provider, k + 1, j - 1);
    }
  }

  /** One section call's text appended to its own title's buffer (update_content). */
  function Deliver(contents: map<string, string>, title: string, text: string): map<string, string> {
    if title in contents then contents[title := contents[title] + text] else contents
  }

  /** The buffers after the calls k, k+1, ... made for `leaves` have delivered their text, in order. */
  function Route(contents: map<string, string>, leaves: seq<(string, string)>, provider: Provider, k: nat): map<string, string>
    decreases |leaves|
  {
    if leaves == [] then contents
    else Route(Deliver(contents, leaves[0].0, CallText(provider, k, leaves[0])), leaves[1..], provider, k + 1)
  }

  /** Routing never adds or removes a buffer. */
  lemma {:induction false} RouteKeys(contents: map<string, string>, leaves: seq<(string, string)>, provider: Provider, k: nat)
    ensures Route(contents, leaves, provider, k).Keys == contents.Keys
    decreases |leaves|
  {
    if leaves != [] {
      RouteKeys(Deliver(contents, leaves[0].0, CallText(provider, k, leaves[0])), leaves[1..], provider, k + 1);
    }
  }

  /** Routing one call appends its text to its own title's buffer and to no other. */
  lemma RouteSingle(contents: map<string, string>, title: string, desc: string, provider: Provider, k: nat)
    requires title in contents
    ensures Route(contents, [(title, desc)], provider, k)
         == contents[title := contents[title] + CallText(provider, k, (title, desc))]
  {
    assert [(title, desc)][1..] == [];
  }

  /** Routing the calls for `a` and then those for `b` routes the calls for `a + b`. */
  lemma {:induction false} RouteAppend(contents: map<string, string>, a: seq<(string, string)>, b: seq<(string, string)>,
                                       provider: Provider, k: nat)
    ensures Route(Route(contents, a, provider, k), b, provider, k + |a|) == Route(contents, a + b, provider, k)
    decreases |a|
  {
    if a == [] {
      assert a + b == b;
    } else {
      var d := Deliver(contents, a[0].0, CallText(provider, k, a[0]));
      assert Route(contents, a + b, provider, k) == Route(d, a[1..] + b, provider, k + 1) by {
        assert (a + b)[0] == a[0] && (a + b)[1..] == a[1..] + b;
      }
      RouteAppend(d, a[1..], b, provider, k + 1);
    }
  }

  /**
   * The routed buffers, title by title: the same titles, and each buffer is
   * its old value followed by exactly the text of the calls made for that title.
   */
  lemma {:induction false} RouteBuffers(contents: map<string, string>, leaves: seq<(string, string)>, provider: Provider, k: nat)
    ensures Route(contents, leaves, provider, k).Keys == contents.Keys
    ensures forall t :: t in contents ==>
      Route(contents, leaves, provider, k)[t] == contents[t] + LeafText(t, leaves, provider, k)
    decreases |leaves|
  {
    if leaves == [] {
      forall t | t in contents ensures contents[t] == contents[t] + "" { }
    } else {
      var d := Deliver(contents, leaves[0].0, CallText(provider, k, leaves[0]));
      RouteBuffers(d, leaves[1..], provider, k + 1);
      forall t | t in contents
        ensures Route(contents, leaves, provider, k)[t] == contents[t] + LeafText(t, leaves, provider, k)
      {
        var first := if leaves[0].0 == t then CallText(provider, k, leaves[0]) else "";
        assert d[t] == contents[t] + first;
        ConcatAssociates(contents[t], first, LeafText(t, leaves[1..], provider, k + 1));
      }
    }
  }

  /**
   * The progress value completed_sections / total_sections. The walk only
   * takes it after a completed section, so the divisor is never zero there.
   */
  function Ratio(completed: nat, total: nat): real {
    if total == 0 then 0.0 else completed as real / total as real
  }

  /** Each progress value the walk reports lies in (0, 1]. */
  lemma RatioInUnit(completed: nat, total: nat)
    requires 0 < completed <= total
    ensures 0.0 < Ratio(completed, total) <= 1.0
  {
  }

  /**
   * The inner chunk loop for one generated item: every text delta is
   * appended to the item's buffer and every statistics record is added to
   * the running total, in stream order.
   */
  method StreamLeaf(book: Book, total: GenerationStatistics, title: string, events: seq<Event>)
    requires title in book.contents
    modifies book, total
    ensures book.contents == old(book.contents)[title := old(book.contents)[title] + Text(events)]
    ensures total.Snapshot() == Accumulate(old(total.Snapshot()), Reports(events))
  {
    ghost var contents0, total0 := book.contents, total.Snapshot();
    assert contents0[title := contents0[title] + Text(events[..0])] == contents0 by {
      assert events[..0] == [];
      assert contents0[title] + "" == contents0[title];
    }
    for i := 0 to |events|
      invariant book.contents == contents0[title := contents0[title] + Text(events[..i])]
      invariant total.Snapshot() == Accumulate(total0, Reports(events[..i]))
    {
      assert events[..i + 1][..i] == events[..i];
      match events[i]
      case UsageReport(s) =>
        var record := new GenerationStatistics(s);
        total.Add(record);
        assert Text(events[..i + 1]) == Text(events[..i]) + "" == Text(events[..i]);
        var r := Reports(events[..i]);
        assert Reports(events[..i + 1]) == r + [s];
        assert (r + [s])[..|r + [s]| - 1] == r;
      case TextDelta(delta) =>
        ghost var done := Text(events[..i]);
        var ok := book.UpdateContent(title, delta);
        assert Text(events[..i + 1]) == done + delta;
        assert contents0[title] + done + delta == contents0[title] + (done + delta);
        assert book.contents == contents0[title := contents0[title] + (done + delta)];
        assert Reports(events[..i + 1]) == Reports(events[..i]) + [] == Reports(events[..i]);
    }
    assert events[..|events|] == events;
  }

  /** Leaves of one more item: those before it, then its own. */
  lemma LeavesStep(s: Outline, i: nat)
    requires i < |s|
    ensures Leaves(s[..i + 1]) == Leaves(s[..i]) + EntryLeaves(s[i])
    ensures |Leaves(s[..i + 1])| <= |Leaves(s)|
  {
    assert s[..i + 1] == s[..i] + [s[i]];
    LeavesAppend(s[..i], [s[i]]);
    SingleEntry(s[i], 1);
    assert s == s[..i + 1] + s[i + 1..];
    LeavesAppend(s[..i + 1], s[i + 1..]);
  }

  /** Folding the records of `before` and then of `extra` folds those of `before + extra`. */
  lemma TotalStep(s0: Stats, s1: Stats, s2: Stats,
                  before: seq<(string, string)>, extra: seq<(string, string)>, provider: Provider, k: nat, next: nat)
    requires next == k + |before|
    requires s1 == Accumulate(s0, LeafReports(before, provider, k))
    requires s2 == Accumulate(s1, LeafReports(extra, provider, next))
    ensures s2 == Accumulate(s0, LeafReports(before + extra, provider, k))
  {
    LeafReportsAppend(before, extra, provider, k);
    AccumulateAppend(s0, LeafReports(before, provider, k), LeafReports(extra, provider, next));
  }

  /** The ratios reported so far, followed by those of a sub-walk, are still one per completed section. */
  lemma ProgressStep(progress: seq<real>, more: seq<real>, c0: nat, next: nat, total: nat)
    requires next == c0 + |progress| && next + |more| <= total
    requires forall j :: 0 <= j < |progress| ==> progress[j] == Ratio(c0 + j + 1, total)
    requires forall j :: 0 <= j < |more| ==> more[j] == Ratio(next + j + 1, total)
    ensures forall j :: 0 <= j < |progress + more| ==> (progress + more)[j] == Ratio(c0 + j + 1, total)
  {
    forall j | 0 <= j < |progress + more|
      ensures (progress + more)[j] == Ratio(c0 + j + 1, total)
    {
      if j >= |progress| {
        assert (progress + more)[j] == more[j - |progress|];
      }
    }
  }

  /**
   * The state the walk leaves after the calls k, k+1, ... made for `leaves`,
   * starting from buffers `c0` and total `s0`: every call's text routed to
   * its title, every record folded into the total, the counter advanced once
   * per call and one progress ratio recorded per call.
   */
  ghost predicate Streamed(contents: map<string, string>, stats: Stats, completed: nat, progress: seq<real>,
                           c0: map<string, string>, s0: Stats, leaves: seq<(string, string)>,
                           provider: Provider, k: nat, totalSections: nat)
  {
    && contents == Route(c0, leaves, provider, k)
    && contents.Keys == c0.Keys
    && stats == Accumulate(s0, LeafReports(leaves, provider, k))
    && completed == k + |leaves|
    && |progress| == |leaves|
    && forall j :: 0 <= j < |progress| ==> progress[j] == Ratio(k + j + 1, totalSections)
  }

  /** Nothing streamed yet. */
  lemma StreamedNone(contents: map<string, string>, stats: Stats, provider: Provider, k: nat, totalSections: nat)
    ensures Streamed(contents, stats, k, [], contents, stats, [], provider, k, totalSections)
  {
  }

  /** Streaming `a` and then `b` is streaming `a + b`. */
  lemma StreamedStep(c0: map<string, string>, s0: Stats, c1: map<string, string>, s1: Stats, k1: nat, p1: seq<real>,
                     c2: map<string, string>, s2: Stats, k2: nat, p2: seq<real>,
                     a: seq<(string, string)>, b: seq<(string, string)>, provider: Provider, k: nat, totalSections: nat)
    requires k + |a| + |b| <= totalSections
    requires Streamed(c1, s1, k1, p1, c0, s0, a, provider, k, totalSections)
    requires Streamed(c2, s2, k2, p2, c1, s1, b, provider, k1, totalSections)
    ensures Streamed(c2, s2, k2, p1 + p2, c0, s0, a + b, provider, k, totalSections)
  {
    assert c2 == Route(c0, a + b, provider, k) by {
      RouteAppend(c0, a, b, provider, k);
    }
    assert s2 == Accumulate(s0, LeafReports(a + b, provider, k)) by {
      TotalStep(s0, s1, s2, a, b, provider, k, k1);
    }
    assert forall j :: 0 <= j < |p1 + p2| ==> (p1 + p2)[j] == Ratio(k + j + 1, totalSections) by {
      ProgressStep(p1, p2, k, k1, totalSections);
    }
  }

  /**
   * One string entry of the walk: generate_section for it with the
   * provider's call number `k`, each delta appended to its own buffer and
   * each usage record added to the total.
   */
  method GenerateLeaf(book: Book, total: GenerationStatistics, title: string, desc: string,
                      provider: Provider, k: nat)
    requires title in book.contents
    modifies book, total
    ensures book.contents == Route(old(book.contents), [(title, desc)], provider, k)
    ensures total.Snapshot() == Accumulate(old(total.Snapshot()), LeafReports([(title, desc)], provider, k))
  {
    RouteSingle(book.contents, title, desc, provider, k);
    var chunks := provider(k, Prompt(title, desc));
    StreamLeaf(book, total, title, SectionEvents(chunks));
    assert [(title, desc)][1..] == [];
    ghost var r := CallReports(provider, k, (title, desc));
    assert LeafReports([(title, desc)], provider, k) == r + [] == r;
  }

  /**
   * One item of stream_section_content: a string value is generated, a
   * dict value is walked one level down, any other value is skipped.
   */
  method StreamEntry(book: Book, total: GenerationStatistics, e: Entry,
                     provider: Provider, totalSections: nat, k: nat)
    returns (completed: nat, progress: seq<real>)
    requires e.0 in book.contents
    requires e.1.Internal? ==> TitleSet(e.1.children) <= book.contents.Keys
    requires k + |EntryLeaves(e)| <= totalSections
    modifies book, total
    ensures Streamed(book.contents, total.Snapshot(), completed, progress,
                     old(book.contents), old(total.Snapshot()), EntryLeaves(e), provider, k, totalSections)
    decreases e.1, 1
  {
    RouteKeys(book.contents, EntryLeaves(e), provider, k);
    match e.1
    case Leaf(desc) =>
      GenerateLeaf(book, total, e.0, desc, provider, k);
      completed := k + 1;
      progress := [Ratio(completed, totalSections)];
    case Internal(children) =>
      completed, progress := StreamSectionContent(book, total, children, provider, totalSections, k);
    case Other =>
      completed, progress := k, [];
  }

  /**
   * stream_section_content(sections): string values are generated in
   * insertion order, dict values are recursed into and any other value is
   * skipped. `completed0` is the value of the enclosing completed_sections
   * counter on entry, which is also the index of the next section call.
   */
  method StreamSectionContent(book: Book, total: GenerationStatistics, sections: Outline,
                              provider: Provider, totalSections: nat, completed0: nat)
    returns (completed: nat, progress: seq<real>)
    requires TitleSet(sections) <= book.contents.Keys
    requires completed0 + |Leaves(sections)| <= totalSections
    modifies book, total
    ensures Streamed(book.contents, total.Snapshot(), completed, progress,
                     old(book.contents), old(total.Snapshot()), Leaves(sections), provider, completed0, totalSections)
    ensures forall j :: 0 <= j < |progress| ==> 0.0 < progress[j] <= 1.0
    decreases Internal(sections), 0
  {
    ghost var c0, s0 := book.contents, total.Snapshot();
    completed := completed0;
    progress := [];
    assert sections[..0] == [];
    StreamedNone(c0, s0, provider, completed0, totalSections);
    for i := 0 to |sections|
      invariant |Leaves(sections[..i])| <= |Leaves(sections)|
      invariant Streamed(book.contents, total.Snapshot(), completed, progress,
                         c0, s0, Leaves(sections[..i]), provider, completed0, totalSections)
    {
      PartsCovered(sections, i);
      LeavesStep(sections, i);
      ghost var c1, s1 := book.contents, total.Snapshot();
      var done, more := StreamEntry(book, total, sections[i], provider, totalSections, completed);
      StreamedStep(c0, s0, c1, s1, completed, progress, book.contents, total.Snapshot(), done, more,
                   Leaves(sections[..i]), EntryLeaves(sections[i]), provider, completed0, totalSections);
      completed := done;
      progress := progress + more;
    }
    assert sections[..|sections|] == sections;
    forall j | 0 <= j < |progress| ensures 0.0 < progress[j] <= 1.0 {
      RatioInUnit(completed0 + j + 1, totalSections);
    }
  }

  /**
   * generate_book from the parsed outline on: a new book, a zeroed
   * "Combined" total, total_sections = the number of flattened titles, and
   * one walk over the whole outline.
   */
  method GenerateBook(structure: Outline, provider: Provider)
    returns (book: Book, total: GenerationStatistics, totalSections: nat, completed: nat, progress: seq<real>)
    ensures fresh(book) && fresh(total)
    ensures book.structure == structure && book.Valid()
    ensures forall t :: t in book.contents ==> book.contents[t] == LeafText(t, Leaves(structure), provider, 0)
    ensures total.Snapshot() == Accumulate(Zero("Combined"), LeafReports(Leaves(structure), provider, 0))
    ensures totalSections == |Titles(structure)|
    ensures completed == |Leaves(structure)| && completed <= totalSections
    ensures |progress| == completed
    ensures forall j :: 0 <= j < |progress| ==> progress[j] == Ratio(j + 1, totalSections)
    ensures forall j :: 0 <= j < |progress| ==> 0.0 < progress[j] <= 1.0
  {
    book := new Book(structure);
    total := new GenerationStatistics(Zero("Combined"));
    var flat := FlattenStructure(structure);
    totalSections := |flat|;
    LeavesWithinTitles(structure);
    ghost var empty := book.contents;
    completed, progress := StreamSectionContent(book, total, structure, provider, totalSections, 0);
    RouteBuffers(empty, Leaves(structure), provider, 0);
    forall t | t in book.contents ensures book.contents[t] == LeafText(t, Leaves(structure), provider, 0) {
      assert empty[t] == "";
    }
  }
}
