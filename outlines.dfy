/**
 * The parsed book outline of main.py: a mapping, in insertion order, from
 * section titles to either a description (a string), a nested mapping of the
 * same shape, or any other JSON value. A mapping is modelled as the sequence
 * of its items; one item is an `Entry`.
 */
module Outlines {

  datatype Node =
    | Leaf(desc: string)                    // a string value: a section to generate
    | Internal(children: seq<(string, Node)>) // a dict value: a sub-outline
    | Other                                 // any other value: neither generated nor descended into

  type Entry = (string, Node)
  type Outline = seq<Entry>

  /** flatten_structure: every title in pre-order, whatever its value. */
  function Titles(s: Outline): seq<string>
    decreases s
  {
    if s == [] then [] else EntryTitles(s[0]) + Titles(s[1..])
  }

  /** The titles one item contributes: its own, then those of its sub-mapping. */
  function EntryTitles(e: Entry): seq<string>
    decreases e
  {
    [e.0] + (match e.1 case Internal(c) => Titles(c) case _ => [])
  }

  /** The set of flattened titles: the keys of a freshly built book. */
  function TitleSet(s: Outline): set<string> {
    set t | t in Titles(s)
  }

  /** The (title, description) pairs of the string-valued items, in the walk's order. */
  function Leaves(s: Outline): seq<(string, string)>
    decreases s
  {
    if s == [] then [] else EntryLeaves(s[0]) + Leaves(s[1..])
  }

  function EntryLeaves(e: Entry): seq<(string, string)>
    decreases e
  {
    match e.1
    case Leaf(d) => [(e.0, d)]
    case Internal(c) => Leaves(c)
    case Other => []
  }

  /** Every title with the heading level it is rendered at, top-level items at `level`. */
  function RenderOrder(s: Outline, level: nat): seq<(string, nat)>
    decreases s
  {
    if s == [] then [] else EntryRenderOrder(s[0], level) + RenderOrder(s[1..], level)
  }

  function EntryRenderOrder(e: Entry, level: nat): seq<(string, nat)>
    decreases e
  {
    [(e.0, level)] + (match e.1 case Internal(c) => RenderOrder(c, level + 1) case _ => [])
  }

  /**
   * An independent description of the tree: `t` is the key of an item with
   * value `n` at depth `d` (the top-level mapping is depth 1).
   */
  ghost predicate Occurs(s: Outline, t: string, n: Node, d: int)
    decreases s
  {
    exists i :: 0 <= i < |s| && EntryOccurs(s[i], t, n, d)
  }

  ghost predicate EntryOccurs(e: Entry, t: string, n: Node, d: int)
    decreases e
  {
    || (d == 1 && e.0 == t && e.1 == n)
    || (d > 1 && e.1.Internal? && Occurs(e.1.children, t, n, d - 1))
  }

  /** Depths start at 1. */
  lemma OccursDepth(s: Outline, t: string, n: Node, d: int)
    requires Occurs(s, t, n, d)
    ensures d >= 1
  {
    var i :| 0 <= i < |s| && EntryOccurs(s[i], t, n, d);
  }

  // ---------------------------------------------------------------------------
  // Splitting a mapping: each traversal treats a concatenation piecewise.
  // ---------------------------------------------------------------------------

  lemma {:induction false} TitlesAppend(a: Outline, b: Outline)
    ensures Titles(a + b) == Titles(a) + Titles(b)
  {
    if a == [] {
      assert a + b == b;
    } else {
      assert (a + b)[0] == a[0] && (a + b)[1..] == a[1..] + b;
      TitlesAppend(a[1..], b);
    }
  }

  lemma {:induction false} LeavesAppend(a: Outline, b: Outline)
    ensures Leaves(a + b) == Leaves(a) + Leaves(b)
  {
    if a == [] {
      assert a + b == b;
    } else {
      assert (a + b)[0] == a[0] && (a + b)[1..] == a[1..] + b;
      LeavesAppend(a[1..], b);
    }
  }

  lemma {:induction false} RenderOrderAppend(a: Outline, b: Outline, level: nat)
    ensures RenderOrder(a + b, level) == RenderOrder(a, level) + RenderOrder(b, level)
  {
    if a == [] {
      assert a + b == b;
    } else {
      assert (a + b)[0] == a[0] && (a + b)[1..] == a[1..] + b;
      RenderOrderAppend(a[1..], b, level);
    }
  }

  /** A one-item mapping contributes exactly what its item does. */
  lemma SingleEntry(e: Entry, level: nat)
    ensures Titles([e]) == EntryTitles(e)
    ensures Leaves([e]) == EntryLeaves(e)
    ensures RenderOrder([e], level) == EntryRenderOrder(e, level)
  {
    assert [e][1..] == [];
  }

  // ---------------------------------------------------------------------------
  // The traversals against the independent description.
  // ---------------------------------------------------------------------------

  /**
   * Rendering and flattening agree: the rendered sequence lists exactly the
   * flattened titles, in the same order.
   */
  lemma {:induction false} RenderOrderTitles(s: Outline, level: nat)
    ensures |RenderOrder(s, level)| == |Titles(s)|
    ensures forall i :: 0 <= i < |Titles(s)| ==> RenderOrder(s, level)[i].0 == Titles(s)[i]
    decreases s
  {
    if s != [] {
      EntryRenderOrderTitles(s[0], level);
      RenderOrderTitles(s[1..], level);
    }
  }

  lemma {:induction false} EntryRenderOrderTitles(e: Entry, level: nat)
    ensures |EntryRenderOrder(e, level)| == |EntryTitles(e)|
    ensures forall i :: 0 <= i < |EntryTitles(e)| ==> EntryRenderOrder(e, level)[i].0 == EntryTitles(e)[i]
    decreases e
  {
    match e.1
    case Internal(c) => RenderOrderTitles(c, level + 1);
    case _ =>
  }

  /**
   * The heading level of a rendered title is its depth in the tree, shifted
   * by the starting level: (t, l) is rendered iff t sits at depth
   * l - level + 1. With level 1, the level is the depth.
   */
  lemma {:induction false} RenderOrderDepth(s: Outline, level: nat, t: string, l: nat)
    ensures (t, l) in RenderOrder(s, level) <==> exists n, d :: Occurs(s, t, n, d) && l + 1 == level + d
    decreases s
  {
    if s == [] {
    } else {
      EntryRenderOrderDepth(s[0], level, t, l);
      RenderOrderDepth(s[1..], level, t, l);
      if (t, l) in RenderOrder(s, level) {
        if (t, l) in EntryRenderOrder(s[0], level) {
          var n, d :| EntryOccurs(s[0], t, n, d) && l + 1 == level + d;
          assert Occurs(s, t, n, d);
        } else {
          assert (t, l) in RenderOrder(s[1..], level);
          var n, d :| Occurs(s[1..], t, n, d) && l + 1 == level + d;
          var i :| 0 <= i < |s[1..]| && EntryOccurs(s[1..][i], t, n, d);
          assert EntryOccurs(s[i + 1], t, n, d);
          assert Occurs(s, t, n, d);
        }
      }
      if exists n, d :: Occurs(s, t, n, d) && l + 1 == level + d {
        var n, d :| Occurs(s, t, n, d) && l + 1 == level + d;
        var i :| 0 <= i < |s| && EntryOccurs(s[i], t, n, d);
        if i == 0 {
          assert EntryOccurs(s[0], t, n, d);
          assert exists n', d' :: EntryOccurs(s[0], t, n', d') && l + 1 == level + d';
          assert (t, l) in EntryRenderOrder(s[0], level);
        } else {
          assert EntryOccurs(s[1..][i - 1], t, n, d);
          assert Occurs(s[1..], t, n, d);
        }
      }
    }
  }

  lemma {:induction false} EntryRenderOrderDepth(e: Entry, level: nat, t: string, l: nat)
    ensures (t, l) in EntryRenderOrder(e, level) <==> exists n, d :: EntryOccurs(e, t, n, d) && l + 1 == level + d
    decreases e
  {
    if (t, l) == (e.0, level) {
      assert EntryOccurs(e, t, e.1, 1);
      assert exists n, d :: EntryOccurs(e, t, n, d) && l + 1 == level + d;
    }
    match e.1
    case Internal(c) =>
      RenderOrderDepth(c, level + 1, t, l);
      assert EntryRenderOrder(e, level) == [(e.0, level)] + RenderOrder(c, level + 1);
      if (t, l) in RenderOrder(c, level + 1) {
        var n, d :| Occurs(c, t, n, d) && l + 1 == level + 1 + d;
        OccursDepth(c, t, n, d);
        assert EntryOccurs(e, t, n, d + 1);
        assert exists n, d :: EntryOccurs(e, t, n, d) && l + 1 == level + d;
      }
      if exists n, d :: EntryOccurs(e, t, n, d) && l + 1 == level + d {
        var n, d :| EntryOccurs(e, t, n, d) && l + 1 == level + d;
        if d > 1 {
          assert Occurs(c, t, n, d - 1);
          assert exists n', d' :: Occurs(c, t, n', d') && l + 1 == level + 1 + d';
        }
      }
    case _ =>
  }

  /** flatten_structure lists exactly the titles that occur somewhere in the tree. */
  lemma TitlesOccur(s: Outline, t: string)
    ensures t in Titles(s) <==> exists n, d :: Occurs(s, t, n, d)
  {
    RenderOrderTitles(s, 1);
    if t in Titles(s) {
      var i :| 0 <= i < |Titles(s)| && Titles(s)[i] == t;
      var l := RenderOrder(s, 1)[i].1;
      assert (t, l) in RenderOrder(s, 1);
      RenderOrderDepth(s, 1, t, l);
    }
    if exists n, d :: Occurs(s, t, n, d) {
      var n, d :| Occurs(s, t, n, d);
      OccursDepth(s, t, n, d);
      RenderOrderDepth(s, 1, t, d);
      assert exists n', d' :: Occurs(s, t, n', d') && d + 1 == 1 + d';
      var i :| 0 <= i < |RenderOrder(s, 1)| && RenderOrder(s, 1)[i] == (t, d);
      assert Titles(s)[i] == t;
    }
  }

  /** The walk generates exactly the string-valued items, each with its own description. */
  lemma {:induction false} LeavesOccur(s: Outline, t: string, desc: string)
    ensures (t, desc) in Leaves(s) <==> exists d :: Occurs(s, t, Leaf(desc), d)
    decreases s
  {
    if s != [] {
      EntryLeavesOccur(s[0], t, desc);
      LeavesOccur(s[1..], t, desc);
      if (t, desc) in Leaves(s) {
        if (t, desc) in EntryLeaves(s[0]) {
          var d :| EntryOccurs(s[0], t, Leaf(desc), d);
          assert Occurs(s, t, Leaf(desc), d);
        } else {
          assert (t, desc) in Leaves(s[1..]);
          var d :| Occurs(s[1..], t, Leaf(desc), d);
          var i :| 0 <= i < |s[1..]| && EntryOccurs(s[1..][i], t, Leaf(desc), d);
          assert EntryOccurs(s[i + 1], t, Leaf(desc), d);
          assert Occurs(s, t, Leaf(desc), d);
        }
      }
      if exists d :: Occurs(s, t, Leaf(desc), d) {
        var d :| Occurs(s, t, Leaf(desc), d);
        var i :| 0 <= i < |s| && EntryOccurs(s[i], t, Leaf(desc), d);
        if i == 0 {
          assert EntryOccurs(s[0], t, Leaf(desc), d);
          assert exists d' :: EntryOccurs(s[0], t, Leaf(desc), d');
        } else {
          assert EntryOccurs(s[1..][i - 1], t, Leaf(desc), d);
          assert Occurs(s[1..], t, Leaf(desc), d);
        }
      }
    }
  }

  lemma {:induction false} EntryLeavesOccur(e: Entry, t: string, desc: string)
    ensures (t, desc) in EntryLeaves(e) <==> exists d :: EntryOccurs(e, t, Leaf(desc), d)
    decreases e
  {
    match e.1
    case Internal(c) =>
      LeavesOccur(c, t, desc);
      assert EntryLeaves(e) == Leaves(c);
      if (t, desc) in Leaves(c) {
        var d :| Occurs(c, t, Leaf(desc), d);
        OccursDepth(c, t, Leaf(desc), d);
        assert EntryOccurs(e, t, Leaf(desc), d + 1);
        assert exists d' :: EntryOccurs(e, t, Leaf(desc), d');
      }
      if exists d :: EntryOccurs(e, t, Leaf(desc), d) {
        var d :| EntryOccurs(e, t, Leaf(desc), d);
        assert Occurs(c, t, Leaf(desc), d - 1);
        assert exists d' :: Occurs(c, t, Leaf(desc), d');
      }
    case Leaf(x) =>
      if (t, desc) in EntryLeaves(e) {
        assert EntryOccurs(e, t, Leaf(desc), 1);
        assert exists d' :: EntryOccurs(e, t, Leaf(desc), d');
      }
    case Other =>
  }

  /**
   * There are never more generated sections than flattened titles, internal
   * titles included; so completed_sections / total_sections stays at most 1.
   * The leaf titles are themselves flattened titles, in the same relative order.
   */
  lemma {:induction false} LeavesWithinTitles(s: Outline)
    ensures |Leaves(s)| <= |Titles(s)|
    ensures forall i :: 0 <= i < |Leaves(s)| ==> Leaves(s)[i].0 in Titles(s)
    decreases s
  {
    if s != [] {
      EntryLeavesWithinTitles(s[0]);
      LeavesWithinTitles(s[1..]);
    }
  }

  lemma {:induction false} EntryLeavesWithinTitles(e: Entry)
    ensures |EntryLeaves(e)| <= |EntryTitles(e)|
    ensures forall i :: 0 <= i < |EntryLeaves(e)| ==> EntryLeaves(e)[i].0 in EntryTitles(e)
    decreases e
  {
    match e.1
    case Internal(c) => LeavesWithinTitles(c);
    case _ =>
  }

  /**
   * flatten_structure as written: a loop appending each title and extending
   * with the flattened sub-mapping of every dict value.
   */
  method FlattenStructure(structure: Outline) returns (sections: seq<string>)
    ensures sections == Titles(structure)
    decreases Internal(structure)
  {
    sections := [];
    for i := 0 to |structure|
      invariant sections == Titles(structure[..i])
    {
      var (title, content) := structure[i];
      sections := sections + [title];
      if content.Internal? {
        var sub := FlattenStructure(content.children);
        sections := sections + sub;
      }
      assert structure[..i + 1] == structure[..i] + [structure[i]];
      TitlesAppend(structure[..i], [structure[i]]);
      SingleEntry(structure[i], 1);
    }
    assert structure[..|structure|] == structure;
  }
}
