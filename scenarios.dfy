/**
 * Concrete runs of the model on a two-level outline: a blank parent heading
 * is skipped while its child is still rendered one level deeper, and two
 * successive appends to one buffer concatenate in order.
 */
module Scenarios {
  import opened Outlines
  import opened Strings
  import opened Books
  import opened Wrappers

  /** The heading marks of the first two levels. */
  lemma HeadingMarks()
    ensures Hashes(1) == "#" && Hashes(2) == "##"
  {
    assert Hashes(1) == "#" + Hashes(0);
    assert Hashes(2) == "#" + Hashes(1);
  }

  /** A chapter "A" with a description, and a part "B" holding one section "C". */
  function SampleOutline(): Outline {
    [("A", Leaf("intro")), ("B", Internal([("C", Leaf("details"))]))]
  }

  /** The outline is flattened in pre-order, internal titles included. */
  lemma SampleTitles()
    ensures Titles(SampleOutline()) == ["A", "B", "C"]
    ensures Leaves(SampleOutline()) == [("A", "intro"), ("C", "details")]
  {
    var c := [("C", Leaf("details"))];
    assert Titles(c) == ["C"] by { assert c[1..] == []; }
    assert Leaves(c) == [("C", "details")] by { assert c[1..] == []; }
    var s := SampleOutline();
    assert s[1..][1..] == [];
  }

  /** The section of a non-blank buffer, spelled out. */
  lemma SampleSection()
    ensures Section("A", "Hi!", 1) == "# A\nHi!\n\n"
  {
    HeadingMarks();
    assert !IsBlank("Hi!") by { assert !IsSpace("Hi!"[0]); }
    assert "#" + " " + "A" + "\n" == "# A\n";
    assert "# A\n" + "Hi!" == "# A\nHi!";
    assert "# A\nHi!" + "\n\n" == "# A\nHi!\n\n";
  }

  /**
   * "B" has only whitespace, so the book renders as the section of "A"
   * followed by that of "C", one level down; "B" contributes nothing.
   */
  lemma SampleMarkdown()
    ensures Covers(map["A" := "Hi!", "B" := " \n", "C" := "c"], RenderOrder(SampleOutline(), 1))
    ensures Section("B", " \n", 1) == ""
    ensures Markdown(map["A" := "Hi!", "B" := " \n", "C" := "c"], RenderOrder(SampleOutline(), 1))
         == Section("A", "Hi!", 1) + Section("C", "c", 2)
  {
    var contents := map["A" := "Hi!", "B" := " \n", "C" := "c"];
    var c := [("C", Leaf("details"))];
    assert RenderOrder(c, 2) == [("C", 2)] by { assert c[1..] == []; }
    var s := SampleOutline();
    assert s[1..][1..] == [];
    var order := RenderOrder(s, 1);
    assert order == [("A", 1), ("B", 1), ("C", 2)];
    assert IsBlank(" \n");
    var x, z := Section("A", "Hi!", 1), Section("C", "c", 2);
    assert Parts(contents, order) == [x, "", z];
    JoinExample(x, "", z);
  }

  /** Three parts joined. */
  lemma JoinExample(x: string, y: string, z: string)
    ensures Join([x, y, z]) == x + y + z
  {
    assert [x, y, z][1..] == [y, z];
    assert [y, z][1..] == [z];
    assert [z][1..] == [];
    assert Join([z]) == z + "" == z;
    assert Join([y, z]) == y + z;
    ConcatAssociates(x, y, z);
  }

  /** Two appends to the buffer of "A" after construction, then the whole book rendered. */
  method SampleBook() returns (md: string)
    ensures md == "# A\nHi!\n\n"
  {
    var book := new Book([("A", Leaf("intro"))]);
    var ok := book.UpdateContent("A", "Hi");
    ok := book.UpdateContent("A", "!");
    md := book.GetMarkdownContent();
    var order := RenderOrder([("A", Leaf("intro"))], 1);
    assert order == [("A", 1)];
    assert book.contents["A"] == "Hi!";
    MarkdownSingle(book.contents, "A", 1);
    SampleSection();
  }
}
