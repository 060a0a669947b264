/**
 * The statistics accumulator of main.py (class GenerationStatistics): five
 * additive counters plus a model label. Times are seconds, modelled as reals
 * (floating-point rounding is not modelled); token counts are naturals.
 */
module Statistics {

  /** A snapshot of one statistics record: the values of its six fields. */
  datatype Stats = Stats(
    inputTime: real,
    outputTime: real,
    inputTokens: nat,
    outputTokens: nat,
    totalTime: real,
    modelName: string)
  {
    /** get_input_speed: tokens per second, guarded against a zero time. */
    function InputSpeed(): (r: real)
      ensures inputTime == 0.0 ==> r == 0.0
      ensures inputTime != 0.0 ==> r * inputTime == inputTokens as real
    {
      if inputTime != 0.0 then inputTokens as real / inputTime else 0.0
    }

    /** get_output_speed: the same guard on the output side. */
    function OutputSpeed(): (r: real)
      ensures outputTime == 0.0 ==> r == 0.0
      ensures outputTime != 0.0 ==> r * outputTime == outputTokens as real
    {
      if outputTime != 0.0 then outputTokens as real / outputTime else 0.0
    }

    /** The "Total Tokens" figure of the rendered summary. */
    function TotalTokens(): nat {
      inputTokens + outputTokens
    }

    /** The record `add` leaves behind: every counter summed, the label of `this` kept. */
    function Plus(other: Stats): Stats {
      Stats(inputTime + other.inputTime,
            outputTime + other.outputTime,
            inputTokens + other.inputTokens,
            outputTokens + other.outputTokens,
            totalTime + other.totalTime,
            modelName)
    }
  }

  /** A record built with every counter left at its default of 0. */
  function Zero(modelName: string): Stats {
    Stats(0.0, 0.0, 0, 0, 0.0, modelName)
  }

  /** A fresh record reports no speed, and adding into it yields the added counters under its own label. */
  lemma ZeroNeutral(modelName: string, s: Stats)
    ensures Zero(modelName).TotalTokens() == 0
    ensures Zero(modelName).InputSpeed() == 0.0 && Zero(modelName).OutputSpeed() == 0.0
    ensures SameTotals(Zero(modelName).Plus(s), s) && Zero(modelName).Plus(s).modelName == modelName
  {
  }

  /** The two records agree on all five counters (labels may differ). */
  predicate SameTotals(a: Stats, b: Stats) {
    && a.inputTime == b.inputTime
    && a.outputTime == b.outputTime
    && a.inputTokens == b.inputTokens
    && a.outputTokens == b.outputTokens
    && a.totalTime == b.totalTime
  }

  /** Every counter is non-negative, as for a record the provider reports. */
  predicate NonNegative(s: Stats) {
    s.inputTime >= 0.0 && s.outputTime >= 0.0 && s.totalTime >= 0.0
  }

  /** The record reached from `acc` by adding each of `s` in turn. */
  function Accumulate(acc: Stats, s: seq<Stats>): Stats
    decreases |s|
  {
    if s == [] then acc else Accumulate(acc, s[..|s| - 1]).Plus(s[|s| - 1])
  }

  lemma PlusKeepsLabel(a: Stats, b: Stats)
    ensures a.Plus(b).modelName == a.modelName
  {
  }

  lemma PlusCommutes(a: Stats, b: Stats)
    ensures SameTotals(a.Plus(b), b.Plus(a))
  {
  }

  lemma PlusAssociates(a: Stats, b: Stats, c: Stats)
    ensures a.Plus(b).Plus(c) == a.Plus(b.Plus(c))
  {
  }

  /** The reported total token count is additive. */
  lemma TotalTokensAdd(a: Stats, b: Stats)
    ensures a.Plus(b).TotalTokens() == a.TotalTokens() + b.TotalTokens()
  {
  }

  /** Adding records that are non-negative never decreases any counter. */
  lemma {:induction false} AccumulateGrows(acc: Stats, s: seq<Stats>)
    requires forall i :: 0 <= i < |s| ==> NonNegative(s[i])
    ensures Accumulate(acc, s).modelName == acc.modelName
    ensures Accumulate(acc, s).inputTime >= acc.inputTime
    ensures Accumulate(acc, s).outputTime >= acc.outputTime
    ensures Accumulate(acc, s).totalTime >= acc.totalTime
    ensures Accumulate(acc, s).inputTokens >= acc.inputTokens
    ensures Accumulate(acc, s).outputTokens >= acc.outputTokens
    decreases |s|
  {
    if s != [] {
      AccumulateGrows(acc, s[..|s| - 1]);
    }
  }

  /** Adding `a` then `b` is adding `a + b`. */
  lemma {:induction false} AccumulateAppend(acc: Stats, a: seq<Stats>, b: seq<Stats>)
    ensures Accumulate(acc, a + b) == Accumulate(Accumulate(acc, a), b)
    decreases |b|
  {
    if b == [] {
      assert a + b == a;
    } else {
      assert (a + b)[..|a + b| - 1] == a + b[..|b| - 1];
      AccumulateAppend(acc, a, b[..|b| - 1]);
    }
  }

  /** Equal counters stay equal when the same record is added to both. */
  lemma SameTotalsPlus(p: Stats, q: Stats, y: Stats)
    requires SameTotals(p, q)
    ensures SameTotals(p.Plus(y), q.Plus(y))
  {
  }

  /** Moving one record to the end of the sequence leaves the counters unchanged. */
  lemma {:induction false} MoveToEnd(acc: Stats, a: seq<Stats>, x: Stats, b: seq<Stats>)
    ensures SameTotals(Accumulate(acc, a + [x] + b), Accumulate(acc, a + b).Plus(x))
    decreases |b|
  {
    if b == [] {
      assert a + [x] + b == a + [x];
      assert a + b == a;
    } else {
      var b' := b[..|b| - 1];
      var y := b[|b| - 1];
      assert (a + [x] + b)[..|a + [x] + b| - 1] == a + [x] + b';
      assert (a + b)[..|a + b| - 1] == a + b';
      MoveToEnd(acc, a, x, b');
      SameTotalsPlus(Accumulate(acc, a + [x] + b'), Accumulate(acc, a + b').Plus(x), y);
    }
  }

  /**
   * Repeated adds give order-independent totals: two sequences holding the
   * same records, in any order, accumulate to the same counters.
   */
  lemma {:induction false} AccumulateOrderIndependent(acc: Stats, s: seq<Stats>, t: seq<Stats>)
    requires multiset(s) == multiset(t)
    ensures SameTotals(Accumulate(acc, s), Accumulate(acc, t))
    decreases |s|
  {
    if s == [] {
      assert |t| == |multiset(t)| == 0;
    } else {
      var x := s[|s| - 1];
      var s' := s[..|s| - 1];
      assert s == s' + [x];
      assert x in multiset(t);
      var j :| 0 <= j < |t| && t[j] == x;
      var t' := t[..j] + t[j + 1..];
      assert t == t[..j] + [x] + t[j + 1..];
      assert multiset(t) == multiset(t[..j]) + multiset{x} + multiset(t[j + 1..]);
      assert multiset(t') == multiset(t[..j]) + multiset(t[j + 1..]);
      assert multiset(s) == multiset(s') + multiset{x};
      assert multiset(s') == multiset(s) - multiset{x};
      assert multiset(t') == multiset(t) - multiset{x};
      AccumulateOrderIndependent(acc, s', t');
      MoveToEnd(acc, t[..j], x, t[j + 1..]);
      SameTotalsPlus(Accumulate(acc, s'), Accumulate(acc, t'), x);
    }
  }

  /** The mutable record that `add` updates in place. */
  class GenerationStatistics {
    var inputTime: real
    var outputTime: real
    var inputTokens: nat
    var outputTokens: nat
    var totalTime: real
    var modelName: string

    /** The current values of the six fields. */
    function Snapshot(): Stats
      reads this
    {
      Stats(inputTime, outputTime, inputTokens, outputTokens, totalTime, modelName)
    }

    /** __init__ with explicit arguments for every field. */
    constructor (s: Stats)
      ensures Snapshot() == s
    {
      inputTime := s.inputTime;
      outputTime := s.outputTime;
      inputTokens := s.inputTokens;
      outputTokens := s.outputTokens;
      totalTime := s.totalTime;
      modelName := s.modelName;
    }

    /**
     * add: every counter of `this` grows by the matching counter of `other`;
     * the label is untouched and `other` is left as it was (unless it is `this`).
     * A non-statistics argument, refused at run time in the source, cannot be
     * passed here because of the parameter's type.
     */
    method Add(other: GenerationStatistics)
      modifies this
      ensures Snapshot() == old(Snapshot()).Plus(old(other.Snapshot()))
      ensures modelName == old(modelName)
      ensures other != this ==> other.Snapshot() == old(other.Snapshot())
    {
      var it, ot, ik, ok, tt := other.inputTime, other.outputTime,
        other.inputTokens, other.outputTokens, other.totalTime;
      inputTime := inputTime + it;
      outputTime := outputTime + ot;
      inputTokens := inputTokens + ik;
      outputTokens := outputTokens + ok;
      totalTime := totalTime + tt;
    }
  }
}
