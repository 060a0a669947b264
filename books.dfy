/**
 * class Book of main.py: the outline plus one text buffer per flattened
 * title, appended to while sections stream in, and serialised to Markdown.
 */
module Books {
  import opened Outlines
  import opened Strings

  /** Every title listed in `order` has a buffer. */
  predicate Covers(contents: map<string, string>, order: seq<(string, nat)>) {
    forall i :: 0 <= i < |order| ==> order[i].0 in contents
  }

  /** The Markdown one title contributes: a heading and its buffer, or nothing when the buffer is blank. */
  function Section(title: string, buffer: string, level: nat): string {
    if IsBlank(buffer) then "" else Hashes(level) + " " + title + "\n" + buffer + "\n\n"
  }

  /** The concatenation of `parts`, in order. */
  function Join(parts: seq<string>): string {
    if parts == [] then "" else parts[0] + Join(parts[1..])
  }

  /** The section of every listed title, in order. */
  function Parts(contents: map<string, string>, order: seq<(string, nat)>): (r: seq<string>)
    requires Covers(contents, order)
    ensures |r| == |order|
    ensures forall i :: 0 <= i < |order| ==> r[i] == Section(order[i].0, contents[order[i].0], order[i].1)
  {
    seq(|order|, i requires 0 <= i < |order| => Section(order[i].0, contents[order[i].0], order[i].1))
  }

  /** The Markdown of the listed titles: their sections joined in order. */
  function Markdown(contents: map<string, string>, order: seq<(string, nat)>): string
    requires Covers(contents, order)
  {
    Join(Parts(contents, order))
  }

  lemma {:induction false} JoinAppend(a: seq<string>, b: seq<string>)
    ensures Join(a + b) == Join(a) + Join(b)
    decreases |a|
  {
    if a == [] {
      assert a + b == b;
    } else {
      assert (a + b)[0] == a[0] && (a + b)[1..] == a[1..] + b;
      JoinAppend(a[1..], b);
    }
  }

  lemma {:induction false} JoinAllEmpty(parts: seq<string>)
    requires forall i :: 0 <= i < |parts| ==> parts[i] == ""
    ensures Join(parts) == ""
    decreases |parts|
  {
    if parts != [] {
      JoinAllEmpty(parts[1..]);
    }
  }

  /** The covering of two lists is the covering of their concatenation. */
  lemma CoversAppend(contents: map<string, string>, a: seq<(string, nat)>, b: seq<(string, nat)>)
    requires Covers(contents, a) && Covers(contents, b)
    ensures Covers(contents, a + b)
  {
    forall i | 0 <= i < |a + b| ensures (a + b)[i].0 in contents {
      if i < |a| { assert (a + b)[i] == a[i]; } else { assert (a + b)[i] == b[i - |a|]; }
    }
  }

  /** Rendering two lists one after the other renders their concatenation. */
  lemma MarkdownAppend(contents: map<string, string>, a: seq<(string, nat)>, b: seq<(string, nat)>)
    requires Covers(contents, a) && Covers(contents, b)
    ensures Covers(contents, a + b)
    ensures Markdown(contents, a + b) == Markdown(contents, a) + Markdown(contents, b)
  {
    CoversAppend(contents, a, b);
    assert Parts(contents, a + b) == Parts(contents, a) + Parts(contents, b);
    JoinAppend(Parts(contents, a), Parts(contents, b));
  }

  /** A single title renders as its section alone. */
  lemma MarkdownSingle(contents: map<string, string>, title: string, level: nat)
    requires title in contents
    ensures Covers(contents, [(title, level)])
    ensures Markdown(contents, [(title, level)]) == Section(title, contents[title], level)
  {
    var p := Parts(contents, [(title, level)]);
    assert p == [Section(title, contents[title], level)];
    assert Join(p) == p[0] + Join(p[1..]);
    assert p[1..] == [];
  }

  /** Buffers for every title of `s` means buffers for every rendered entry. */
  lemma RenderOrderCovered(contents: map<string, string>, s: Outline, level: nat)
    requires TitleSet(s) <= contents.Keys
    ensures Covers(contents, RenderOrder(s, level))
  {
    RenderOrderTitles(s, level);
    forall i | 0 <= i < |RenderOrder(s, level)| ensures RenderOrder(s, level)[i].0 in contents {
      assert Titles(s)[i] in TitleSet(s);
    }
  }

  /** The titles of a prefix, of one item and of that item's sub-mapping are titles of the whole. */
  lemma PartsCovered(s: Outline, i: nat)
    requires i < |s|
    ensures TitleSet(s[..i]) <= TitleSet(s)
    ensures s[i].0 in TitleSet(s)
    ensures s[i].1.Internal? ==> TitleSet(s[i].1.children) <= TitleSet(s)
  {
    assert s == s[..i] + [s[i]] + s[i + 1..];
    TitlesAppend(s[..i] + [s[i]], s[i + 1..]);
    TitlesAppend(s[..i], [s[i]]);
    SingleEntry(s[i], 1);
  }

  /**
   * The two rules of get_markdown_content for one item: its heading is
   * emitted only when its buffer is not blank, and a dict value's titles are
   * serialised one level deeper whether or not the heading was.
   */
  lemma MarkdownEntry(contents: map<string, string>, title: string, n: Node, rest: Outline, level: nat)
    requires title in contents && TitleSet(rest) <= contents.Keys
    requires n.Internal? ==> TitleSet(n.children) <= contents.Keys
    ensures Covers(contents, RenderOrder([(title, n)] + rest, level))
    ensures n.Internal? ==> Covers(contents, RenderOrder(n.children, level + 1))
    ensures Covers(contents, RenderOrder(rest, level))
    ensures Markdown(contents, RenderOrder([(title, n)] + rest, level)) ==
      (if IsBlank(contents[title]) then ""
       else Hashes(level) + " " + title + "\n" + contents[title] + "\n\n")
      + (if n.Internal? then Markdown(contents, RenderOrder(n.children, level + 1)) else "")
      + Markdown(contents, RenderOrder(rest, level))
  {
    var s := [(title, n)] + rest;
    assert s[1..] == rest;
    RenderOrderCovered(contents, rest, level);
    assert RenderOrder(s, level) == [(title, level)] + (if n.Internal? then RenderOrder(n.children, level + 1) else []) + RenderOrder(rest, level);
    MarkdownSingle(contents, title, level);
    if n.Internal? {
      RenderOrderCovered(contents, n.children, level + 1);
      MarkdownAppend(contents, [(title, level)], RenderOrder(n.children, level + 1));
      MarkdownAppend(contents, [(title, level)] + RenderOrder(n.children, level + 1), RenderOrder(rest, level));
    } else {
      assert RenderOrder(s, level) == [(title, level)] + RenderOrder(rest, level);
      MarkdownAppend(contents, [(title, level)], RenderOrder(rest, level));
      var sec, after := Section(title, contents[title], level), Markdown(contents, RenderOrder(rest, level));
      assert sec + "" + after == sec + after;
    }
  }

  /** The entries one more item adds to the rendered order: its own, then its sub-mapping's. */
  lemma RenderOrderStep(s: Outline, i: nat, level: nat)
    requires i < |s|
    ensures RenderOrder(s[..i + 1], level) ==
      RenderOrder(s[..i], level) + [(s[i].0, level)]
      + (if s[i].1.Internal? then RenderOrder(s[i].1.children, level + 1) else [])
  {
    assert s[..i + 1] == s[..i] + [s[i]];
    RenderOrderAppend(s[..i], [s[i]], level);
    SingleEntry(s[i], level);
  }

  /** The buffers a step of get_markdown_content reads all exist. */
  lemma PrefixStepCovered(contents: map<string, string>, s: Outline, i: nat, level: nat)
    requires i < |s| && TitleSet(s) <= contents.Keys
    ensures s[i].0 in contents
    ensures Covers(contents, RenderOrder(s[..i], level))
    ensures s[i].1.Internal? ==> Covers(contents, RenderOrder(s[i].1.children, level + 1))
  {
    PartsCovered(s, i);
    RenderOrderCovered(contents, s[..i], level);
    if s[i].1.Internal? {
      RenderOrderCovered(contents, s[i].1.children, level + 1);
    }
  }

  /** One more item of a mapping adds its own section and then its sub-mapping's. */
  lemma MarkdownPrefixStep(contents: map<string, string>, s: Outline, i: nat, level: nat)
    requires i < |s| && s[i].0 in contents
    requires Covers(contents, RenderOrder(s[..i], level))
    requires s[i].1.Internal? ==> Covers(contents, RenderOrder(s[i].1.children, level + 1))
    ensures Covers(contents, RenderOrder(s[..i + 1], level))
    ensures Markdown(contents, RenderOrder(s[..i + 1], level)) ==
      Markdown(contents, RenderOrder(s[..i], level))
      + Section(s[i].0, contents[s[i].0], level)
      + (if s[i].1.Internal? then Markdown(contents, RenderOrder(s[i].1.children, level + 1)) else "")
  {
    var before := RenderOrder(s[..i], level);
    var head := [(s[i].0, level)];
    var child := if s[i].1.Internal? then RenderOrder(s[i].1.children, level + 1) else [];
    RenderOrderStep(s, i, level);
    MarkdownSingle(contents, s[i].0, level);
    var sec := Section(s[i].0, contents[s[i].0], level);
    MarkdownAppend(contents, before, head);
    var mb := Markdown(contents, before);
    assert Markdown(contents, before + head) == mb + sec;
    MarkdownAppend(contents, before + head, child);
  }

  /** Nothing is emitted while every listed buffer is blank, e.g. straight after construction. */
  lemma MarkdownAllBlank(contents: map<string, string>, order: seq<(string, nat)>)
    requires Covers(contents, order)
    requires forall i :: 0 <= i < |order| ==> IsBlank(contents[order[i].0])
    ensures Markdown(contents, order) == ""
  {
    JoinAllEmpty(Parts(contents, order));
  }

  class Book {
    const structure: Outline
    var contents: map<string, string>

    /** Exactly one buffer per flattened title. */
    ghost predicate Valid()
      reads this
    {
      contents.Keys == TitleSet(structure)
    }

    /** __init__: an empty buffer for every flattened title; repeated titles share one. */
    constructor (structure: Outline)
      ensures this.structure == structure
      ensures Valid()
      ensures forall t :: t in contents ==> contents[t] == ""
    {
      var sections := FlattenStructure(structure);
      this.structure := structure;
      contents := map t | t in sections :: "";
    }

    /**
     * update_content: the buffer of `title` gets `newContent` appended and no
     * other buffer changes. A title without a buffer makes the source raise
     * KeyError; here `ok` is false and nothing changes.
     */
    method UpdateContent(title: string, newContent: string) returns (ok: bool)
      modifies this
      ensures ok <==> title in old(contents)
      ensures ok ==> contents == old(contents)[title := old(contents)[title] + newContent]
      ensures !ok ==> contents == old(contents)
      ensures old(Valid()) ==> Valid()
    {
      ok := title in contents;
      if ok {
        contents := contents[title := contents[title] + newContent];
      }
    }

    /**
     * get_markdown_content(structure, level): a loop over the items
     * accumulating each non-blank title's section, then recursing into
     * dict values one level deeper.
     */
    method MarkdownContent(sections: Outline, level: nat) returns (md: string)
      requires TitleSet(sections) <= contents.Keys
      ensures Covers(contents, RenderOrder(sections, level))
      ensures md == Markdown(contents, RenderOrder(sections, level))
      decreases Internal(sections)
    {
      md := "";
      for i := 0 to |sections|
        invariant Covers(contents, RenderOrder(sections[..i], level))
        invariant md == Markdown(contents, RenderOrder(sections[..i], level))
      {
        PartsCovered(sections, i);
        PrefixStepCovered(contents, sections, i, level);
        MarkdownPrefixStep(contents, sections, i, level);
        var (title, content) := sections[i];
        var section := "";
        if Strip(contents[title]) != "" {
          section := Hashes(level) + " " + title + "\n" + contents[title] + "\n\n";
        }
        var sub := "";
        if content.Internal? {
          sub := MarkdownContent(content.children, level + 1);
        }
        StripEmptyIffBlank(contents[title]);
        md := md + section + sub;
      }
      assert sections[..|sections|] == sections;
    }

    /** get_markdown_content(): the whole book, top-level titles as level-1 headings. */
    method GetMarkdownContent() returns (md: string)
      requires Valid()
      ensures Covers(contents, RenderOrder(structure, 1))
      ensures md == Markdown(contents, RenderOrder(structure, 1))
    {
      md := MarkdownContent(structure, 1);
    }
  }
}
