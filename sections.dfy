/**
 * The chunk loop of generate_section in main.py. The provider's stream is an
 * abstract sequence of chunks; the loop turns it into the events the
 * orchestration consumes: text deltas and statistics records.
 */
module Sections {
  import opened Wrappers
  import opened Statistics

  /** The usage block of a chunk's x_groq attribute. */
  datatype Usage = Usage(
    promptTime: real,
    completionTime: real,
    promptTokens: nat,
    completionTokens: nat,
    totalTime: real)

  /** chunk.x_groq: present or None, with an optional usage block. */
  datatype XGroq = XGroq(usage: Option<Usage>)

  /** One streamed chunk: choices[0].delta.content and x_groq. */
  datatype Chunk = Chunk(content: Option<string>, xGroq: Option<XGroq>)

  /** What generate_section yields: a string or a GenerationStatistics record. */
  datatype Event = TextDelta(text: string) | UsageReport(stats: Stats)

  /** The model label every per-section statistics record carries. */
  const SectionModel: string := "llama3-8b-8192"

  /** The record built from a usage block; prompt figures become the input side. */
  function FromUsage(u: Usage): (s: Stats)
    ensures s.modelName == SectionModel
    ensures s.inputTokens == u.promptTokens && s.outputTokens == u.completionTokens
  {
    Stats(u.promptTime, u.completionTime, u.promptTokens, u.completionTokens, u.totalTime, SectionModel)
  }

  /** The usage block of a chunk, when both x_groq and its usage are present. */
  function UsageOf(c: Chunk): Option<Usage> {
    match c.xGroq
    case Some(x) => x.usage
    case None => None
  }

  /** What one chunk yields: its text if non-empty, then its statistics if reported. */
  function ChunkEvents(c: Chunk): seq<Event> {
    (if c.content.Some? && c.content.value != "" then [TextDelta(c.content.value)] else [])
    + (match UsageOf(c) case Some(u) => [UsageReport(FromUsage(u))] case None => [])
  }

  /** One chunk yields at most a text delta and then at most a statistics record. */
  lemma ChunkEventsShape(c: Chunk)
    ensures |ChunkEvents(c)| <= 2
    ensures forall i, j :: 0 <= i < j < |ChunkEvents(c)| ==> ChunkEvents(c)[i].TextDelta? && ChunkEvents(c)[j].UsageReport?
  {
  }

  /** Events of a whole stream, chunk by chunk in order. */
  function SectionEvents(chunks: seq<Chunk>): seq<Event>
    decreases |chunks|
  {
    if chunks == [] then []
    else SectionEvents(chunks[..|chunks| - 1]) + ChunkEvents(chunks[|chunks| - 1])
  }

  /**
   * No empty delta is ever yielded, every record carries the per-section
   * model label, and a stream yields at most two events per chunk.
   */
  lemma {:induction false} SectionEventsShape(chunks: seq<Chunk>)
    ensures forall i :: 0 <= i < |SectionEvents(chunks)| && SectionEvents(chunks)[i].TextDelta? ==>
      SectionEvents(chunks)[i].text != ""
    ensures forall i :: 0 <= i < |SectionEvents(chunks)| && SectionEvents(chunks)[i].UsageReport? ==>
      SectionEvents(chunks)[i].stats.modelName == SectionModel
    ensures |SectionEvents(chunks)| <= 2 * |chunks|
    decreases |chunks|
  {
    if chunks != [] {
      SectionEventsShape(chunks[..|chunks| - 1]);
    }
  }

  /** The text routed to a buffer: the deltas of `events`, concatenated. */
  function Text(events: seq<Event>): string
    decreases |events|
  {
    if events == [] then ""
    else Text(events[..|events| - 1]) + (match events[|events| - 1] case TextDelta(t) => t case _ => "")
  }

  /** The statistics records of `events`, in order. */
  function Reports(events: seq<Event>): seq<Stats>
    decreases |events|
  {
    if events == [] then []
    else Reports(events[..|events| - 1]) + (match events[|events| - 1] case UsageReport(s) => [s] case _ => [])
  }

  /** All the text the provider streamed, empty and missing contents read as "". */
  function StreamedText(chunks: seq<Chunk>): string
    decreases |chunks|
  {
    if chunks == [] then "" else StreamedText(chunks[..|chunks| - 1]) + chunks[|chunks| - 1].content.GetOr("")
  }

  /** The usage blocks of the stream, in order. */
  function Usages(chunks: seq<Chunk>): seq<Usage>
    decreases |chunks|
  {
    if chunks == [] then []
    else Usages(chunks[..|chunks| - 1]) + (match UsageOf(chunks[|chunks| - 1]) case Some(u) => [u] case None => [])
  }

  lemma {:induction false} TextAppend(a: seq<Event>, b: seq<Event>)
    ensures Text(a + b) == Text(a) + Text(b)
    decreases |b|
  {
    if b == [] {
      assert a + b == a;
    } else {
      assert (a + b)[..|a + b| - 1] == a + b[..|b| - 1];
      TextAppend(a, b[..|b| - 1]);
    }
  }

  lemma {:induction false} ReportsAppend(a: seq<Event>, b: seq<Event>)
    ensures Reports(a + b) == Reports(a) + Reports(b)
    decreases |b|
  {
    if b == [] {
      assert a + b == a;
    } else {
      assert (a + b)[..|a + b| - 1] == a + b[..|b| - 1];
      ReportsAppend(a, b[..|b| - 1]);
    }
  }

  /** The filter works chunk by chunk: a stream split in two yields the two halves' events. */
  lemma {:induction false} SectionEventsAppend(a: seq<Chunk>, b: seq<Chunk>)
    ensures SectionEvents(a + b) == SectionEvents(a) + SectionEvents(b)
    decreases |b|
  {
    if b == [] {
      assert a + b == a;
    } else {
      assert (a + b)[..|a + b| - 1] == a + b[..|b| - 1];
      SectionEventsAppend(a, b[..|b| - 1]);
    }
  }

  /** Dropping empty and missing contents loses no text: the deltas spell out the whole stream. */
  lemma {:induction false} TextKept(chunks: seq<Chunk>)
    ensures Text(SectionEvents(chunks)) == StreamedText(chunks)
    decreases |chunks|
  {
    if chunks != [] {
      var init, last := chunks[..|chunks| - 1], chunks[|chunks| - 1];
      TextKept(init);
      TextAppend(SectionEvents(init), ChunkEvents(last));
      var t := if last.content.Some? && last.content.value != "" then [TextDelta(last.content.value)] else [];
      var u := match UsageOf(last) case Some(x) => [UsageReport(FromUsage(x))] case None => [];
      assert ChunkEvents(last) == t + u;
      TextAppend(t, u);
      assert Text(u) == "" by {
        if u != [] { assert u[..0] == []; }
      }
      assert Text(t) == last.content.GetOr("") by {
        if t != [] { assert t[..0] == []; }
      }
    }
  }

  /** One chunk reports a record exactly when its x_groq carries usage. */
  lemma ChunkReports(c: Chunk)
    ensures Reports(ChunkEvents(c)) == match UsageOf(c) case Some(u) => [FromUsage(u)] case None => []
  {
    var t := if c.content.Some? && c.content.value != "" then [TextDelta(c.content.value)] else [];
    var u := match UsageOf(c) case Some(x) => [UsageReport(FromUsage(x))] case None => [];
    assert ChunkEvents(c) == t + u;
    ReportsAppend(t, u);
    assert Reports(t) == [] by {
      if t != [] { assert t[..0] == []; }
    }
    assert u != [] ==> u[..0] == [];
  }

  /** A record is reported exactly for each chunk whose x_groq carries usage, built from that usage. */
  lemma {:induction false} ReportsMatchUsages(chunks: seq<Chunk>)
    ensures |Reports(SectionEvents(chunks))| == |Usages(chunks)|
    ensures forall i :: 0 <= i < |Usages(chunks)| ==> Reports(SectionEvents(chunks))[i] == FromUsage(Usages(chunks)[i])
    decreases |chunks|
  {
    if chunks != [] {
      var init, last := chunks[..|chunks| - 1], chunks[|chunks| - 1];
      ReportsMatchUsages(init);
      ReportsAppend(SectionEvents(init), ChunkEvents(last));
      ChunkReports(last);
      var r0, u0 := Reports(SectionEvents(init)), Usages(init);
      var r1 := Reports(ChunkEvents(last));
      var u1 := match UsageOf(last) case Some(u) => [u] case None => [];
      assert Reports(SectionEvents(chunks)) == r0 + r1;
      assert Usages(chunks) == u0 + u1;
      assert |r1| == |u1| && forall i :: 0 <= i < |u1| ==> r1[i] == FromUsage(u1[i]);
    }
  }
}
