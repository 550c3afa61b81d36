/** Where the laws end: what becomes of loose nodes outside the grammar, and what makes reading and splicing throw. */
module CounterExamples {
  import opened Wrappers
  import opened Decimal
  import opened UsxNodes
  import opened RichText
  import opened ChapterWalk
  import opened DeltaReading
  import opened Grammar
  import opened InlineRoundTrip
  import opened BlockRoundTrip
  import opened ImpliedRoundTrip
  import opened BlockEvents
  import opened SectionReading
  import opened Splicing
  import opened OrderedMerge
  import opened BookRoundTrip
  import opened StackHeight
  import opened InsertedOps

  // ----- whole books that do not come back

  /** The walk after a table that opens a book. */
  lemma TableFirst(t: Node, g: nat) returns (s: BookWalk)
    requires TopLevel(t) && t.name == "table"
    ensures s == WalkChild(Child(t, true), Start(g))
    ensures s.BookWalk? && AtBoundary(s.walk) && Run(s.walk.ops).table.Some? && Settled(Run(s.walk.ops)) == [Unmark(t)]
    ensures s == Start(g).(walk := s.walk)
    ensures s.walk.curRef.None? && s.walk.curChapter.None? && s.walk.chapterIsValid && !s.walk.implied
  {
    hide WalkTable, WalkRows, Run;
    var w := Start(g).walk;
    NothingYet(g);
    TableRoundTrip(t, w);
    s := WalkChild(Child(t, true), Start(g));
    assert WalkNode(t, w, PLAIN) == WalkTable(t, w);
    assert [] + [Unmark(t)] == [Unmark(t)];
  }

  lemma NothingYet(g: nat)
    ensures AtBoundary(Start(g).walk) && Settled(Run(Start(g).walk.ops)) == []
  {
  }

  /** A delta that is read as these nodes, for a book of one section without a `book`, replaces the section by them. */
  lemma OneSection(nodes: seq<Node>, d: ChapterDelta, content: seq<Node>)
    requires Sections(nodes) == [Section(Some(d.number), nodes)] && Books(nodes) == []
    requires d.isValid && d.ops != [] && ProcessDelta(d.ops) == Some(content)
    ensures ToUsx(nodes, [d]) == Success(content)
  {
    hide ProcessDelta, Books, Sections, HasBookOp;
    var ss := Sections(nodes);
    assert Contribution(d) == Success(content);
    SplicingMerges(nodes, [d]);
    assert ss[0] == Section(Some(d.number), nodes) && HasNumber(ss, d.number);
    assert ss[1..] == [] && [d][1..] == [];
    assert Merge([], []) == [];
    assert Merge(ss, [d]) == Replaced(ss[0], d) + Merge([], []);
    assert [] + content + [] == content;
  }

  /** A loose node, a note for instance, between a table and the book's first chapter is lost, whatever it is. */
  lemma {:induction false} LooseAfterTableLost(t: Node, n: Node, c: Node, g: nat)
    requires TopLevel(t) && t.name == "table" && Loose(n) && !IsBlock(n)
    requires TopLevel(c) && c.name == "chapter" && ChapterNumber(c).Some?
    ensures var ds := ToChapterDeltas([Child(t, true), Child(n, true), Child(c, true)], g);
      ds.Some? && ToUsx([t, n, c], ds.value) == Success([Unmark(t), Unmark(c)])
  {
    hide Run, ProcessDelta, Settled, WalkChild, Loose, Numbered, Ready, ImpliedEnded;
    var a, b, e := Child(t, true), Child(n, true), Child(c, true);
    var s1 := TableFirst(t, g);
    var s3 := LooseAndChapter(n, c, s1);
    ThreeChildren(a, b, e, Start(g));
    var d := ChapterDelta(ChapterNumber(c).value, s3.walk.lastVerse, true, ImpliedEnded(s3.walk).ops);
    assert ToChapterDeltas([a, b, e], g) == Some([] + [d]);
    assert [] + [d] == [d];
    ThreeNodes(t, n, c);
    assert [Unmark(t)] + [Unmark(c)] == [Unmark(t), Unmark(c)];
    OneSection([t, n, c], d, [Unmark(t), Unmark(c)]);
  }

  /** The first chapter after a table and a loose node, and what the end of the book makes of it. */
  lemma LooseAndChapter(n: Node, c: Node, s1: BookWalk) returns (s3: BookWalk)
    requires s1.BookWalk? && AtBoundary(s1.walk) && Run(s1.walk.ops).table.Some? && s1.chapters == []
    requires s1.walk.curChapter.None? && s1.walk.chapterIsValid
    requires Loose(n) && !IsBlock(n) && TopLevel(c) && c.name == "chapter" && ChapterNumber(c).Some?
    ensures s3 == WalkChild(Child(c, true), WalkChild(Child(n, true), s1)) && s3.BookWalk?
    ensures ImpliedEnded(s3.walk).ops != []
    ensures ProcessDelta(ImpliedEnded(s3.walk).ops) == Some(Settled(Run(s1.walk.ops)) + [Unmark(c)])
    ensures BookEnded(s3)
      == Some([] + [ChapterDelta(ChapterNumber(c).value, s3.walk.lastVerse, true, ImpliedEnded(s3.walk).ops)])
  {
    hide Run, WalkNode, Inline, ProcessDelta, Settled, ParseInt, Pending, LooseWalked, ImpliedEnded, Inserts,
        WalkChild, AtBoundary;
    var b, e := Child(n, true), Child(c, true);
    var s2 := WalkChild(b, s1);
    LooseChild(b, s1);
    ChildKeeps(b, s1);
    LooseFirst(n, s1.walk, s2.walk.chapterIsValid);
    s3 := WalkChild(e, s2);
    ChapterChild(e, s2);
    ChildKeeps(e, s2);
    var w2 := ChapterMeetsLoose(c, s1.walk, s2.walk, [n]);
    WaitsRevalidated(w2, s3.walk);
    var r := SectionNodes(s3.walk, s3.walk, []);
    NothingUnmarked();
    assert Settled(Run(w2.ops)) + [] == Settled(Run(w2.ops));
    EndInserts(s3.walk);
    InsertsKeep(s3.walk.ops, ImpliedEnded(s3.walk).ops);
    BookEndedWith(s3, ChapterNumber(c), true);
  }

  lemma WaitsRevalidated(w: Walk, w1: Walk)
    requires AtBoundary(w) && w1 == w.(chapterIsValid := w1.chapterIsValid)
    ensures Waits(w1, w1, [])
  {
  }

  lemma ThreeChildren(a: Child, b: Child, c: Child, s: BookWalk)
    ensures WalkBook([a, b, c], s) == WalkChild(c, WalkChild(b, WalkChild(a, s)))
  {
    hide WalkChild;
    assert [a, b, c][1..] == [b, c];
    TwoChildren(b, c, WalkChild(a, s));
  }

  lemma ThreeNodes(t: Node, n: Node, c: Node)
    requires t.Elem? && t.name == "table" && !IsBlock(n) && IsElement(c, "chapter") && ChapterNumber(c).Some?
    ensures Sections([t, n, c]) == [Section(ChapterNumber(c), [t, n, c])] && Books([t, n, c]) == []
  {
    hide ChapterNumber;
    assert [t, n, c][1..] == [n, c] && [n, c][1..] == [c] && [c][1..] == [];
    assert [] + [t] == [t] && [t] + [n] == [t, n] && [t, n] + [c] == [t, n, c];
    assert SectionsFrom([t, n], Some(1), false, [c]) == SectionsFrom([t, n, c], ChapterNumber(c), true, []);
    assert SectionsFrom([t], Some(1), false, [n, c]) == SectionsFrom([t, n], Some(1), false, [c]);
    assert Books([c]) == Books([]) && Books([n, c]) == Books([c]);
  }

  /** Text after a table that ends the book comes back before the table. */
  lemma {:induction false} TextAfterTableSwapped(t: Node, n: Node, g: nat)
    requires TopLevel(t) && t.name == "table" && n.Text? && TextContent(n.value)
    ensures var ds := ToChapterDeltas([Child(t, true), Child(n, true)], g);
      ds.Some? && ToUsx([t, n], ds.value) == Success([n, Unmark(t)])
  {
    hide Run, ProcessDelta, Settled, WalkChild, Numbered, Ready, ImpliedEnded;
    var a, b := Child(t, true), Child(n, true);
    var s1 := TableFirst(t, g);
    var s2 := TextAlone(n, s1);
    TwoChildren(a, b, Start(g));
    var d := ChapterDelta(1, s2.walk.lastVerse, true, ImpliedEnded(s2.walk).ops);
    assert ToChapterDeltas([a, b], g) == Some([] + [d]);
    assert [] + [d] == [d];
    TwoNodes(t, n);
    SwappedContent(Run(s1.walk.ops), n, Unmark(t));
    OneSection([t, n], d, [n, Unmark(t)]);
  }

  /** The end of a book after a table and a text. */
  lemma TextAlone(n: Node, s1: BookWalk) returns (s2: BookWalk)
    requires s1.BookWalk? && AtBoundary(s1.walk) && Run(s1.walk.ops).table.Some? && s1.chapters == []
    requires s1.walk.curRef.None? && s1.walk.curChapter.None? && s1.walk.chapterIsValid
    requires n.Text? && TextContent(n.value)
    ensures s2 == WalkChild(Child(n, true), s1) && s2.BookWalk?
    ensures ImpliedEnded(s2.walk).ops != []
    ensures ProcessDelta(ImpliedEnded(s2.walk).ops) == Some(Swapped(Run(s1.walk.ops), UnmarkAll([n])))
    ensures BookEnded(s2) == Some([] + [ChapterDelta(1, s2.walk.lastVerse, true, ImpliedEnded(s2.walk).ops)])
  {
    hide Run, ProcessDelta, Settled, ImpliedEnded, ParseInt, Pending, Swapped, Inserts, UnmarkAll;
    s2 := WalkChild(Child(n, true), s1);
    LooseFirst(n, s1.walk, true);
    TextLast(n, s1.walk);
    var r := SectionNodes(s2.walk, s1.walk, [n]);
    EndInserts(s2.walk);
    InsertsKeep(s2.walk.ops, ImpliedEnded(s2.walk).ops);
    BookEndedWith(s2, Some(1), false);
  }

  lemma SwappedContent(m: Machine, n: Node, table: Node)
    requires Idle(m) && m.table.Some? && Settled(m) == [table] && n.Text?
    ensures Swapped(m, UnmarkAll([n])) == [n, table]
  {
    SettledContent(m);
    OneUnmarked(n);
  }

  lemma TwoChildren(a: Child, b: Child, s: BookWalk)
    ensures WalkBook([a, b], s) == WalkChild(b, WalkChild(a, s))
  {
    hide WalkChild;
    assert [a, b][1..] == [b] && [b][1..] == [];
    var s1 := WalkChild(a, s);
    assert WalkBook([b], s1) == WalkBook([], WalkChild(b, s1));
  }

  lemma TwoNodes(t: Node, n: Node)
    requires t.Elem? && t.name == "table" && n.Text?
    ensures Sections([t, n]) == [Section(Some(1), [t, n])] && Books([t, n]) == []
  {
    assert [t, n][1..] == [n] && [n][1..] == [];
    assert [] + [t] == [t] && [t] + [n] == [t, n];
    assert SectionsFrom([t], Some(1), false, [n]) == SectionsFrom([t, n], Some(1), false, []);
    assert Books([n]) == Books([]);
  }

  // ----- deltas that throw

  /** A table cell and then a line break inside a character: nothing can be read. */
  lemma {:induction false} CellThenCharThrows()
    ensures var cell := Op(Str("\n"),
      PLAIN.(table := Some(map["id" := "table_1"]), row := Some(map["id" := "row_1_1"]), cell := Some(map[])));
      var break_ := Op(Str("\n"), PLAIN.(chars := [map["style" := "nd"]]));
      ProcessDelta([cell]).Some? && ProcessDelta([cell, break_]).None?
  {
    var fmt := PLAIN.(table := Some(map["id" := "table_1"]), row := Some(map["id" := "row_1_1"]), cell := Some(map[]));
    var ops := [Op(Str("\n"), fmt)];
    OneCellOpen(fmt);
    ReadingSucceeds(ops);
    LineBreakAfterTable(ops, PLAIN.(chars := [map["style" := "nd"]]), []);
    assert ops + [Op(Str("\n"), PLAIN.(chars := [map["style" := "nd"]]))] + []
      == [Op(Str("\n"), fmt), Op(Str("\n"), PLAIN.(chars := [map["style" := "nd"]]))];
  }

  lemma OneCellOpen(fmt: Fmt)
    requires fmt == PLAIN.(table := fmt.table, row := fmt.row, cell := fmt.cell)
    requires fmt.table.Some? && fmt.row.Some? && fmt.cell.Some?
    ensures PlacedOps([Op(Str("\n"), fmt)])
    ensures Run([Op(Str("\n"), fmt)]).Machine? && Run([Op(Str("\n"), fmt)]).table.Some?
  {
    var ops := [Op(Str("\n"), fmt)];
    assert ops[..0] == [] && PlacedOps([]);
    RunHeight(ops);
    TextStep([], ops[0]);
    assert [] + ops == ops;
    AlignedSame(INITIAL);
    CellTextRead(INITIAL, fmt);
  }

  function NumberedChapter(number: string): Node {
    Elem("chapter", map["number" := number], [], false)
  }

  /** A delta for chapter 2, and no later one, with a book that has chapters 1 and 3: splicing runs past the deltas. */
  lemma {:induction false} OverrunBetweenChapters(first: seq<Op>, second: seq<Op>, valid: bool)
    ensures ToUsx([NumberedChapter("1"), NumberedChapter("3")],
                  [ChapterDelta(1, 0, valid, first), ChapterDelta(2, 0, valid, second)]) == Failure(Corrupt)
  {
    hide Contribution, Readable, ParseInt, Merge;
    var one, three := NumberedChapter("1"), NumberedChapter("3");
    var ds := [ChapterDelta(1, 0, valid, first), ChapterDelta(2, 0, valid, second)];
    ParseOne();
    ParseThree();
    TwoSections(one, three);
    var ss := Sections([one, three]);
    assert ss[1..] == [ss[1]] && ss[1..][1..] == [];
    SplicingMerges([one, three], ds);
    assert !AllBelow(ss, 2) && !HasNumber(ss, 2);
  }

  lemma TwoSections(a: Node, b: Node)
    requires IsElement(a, "chapter") && IsElement(b, "chapter")
    ensures Sections([a, b]) == [Section(ChapterNumber(a), [a]), Section(ChapterNumber(b), [b])]
  {
    hide ChapterNumber;
    assert [a, b][1..] == [b] && [b][1..] == [];
    assert [] + [a] == [a];
    assert SectionsFrom([b], ChapterNumber(b), true, []) == [Section(ChapterNumber(b), [b])];
    assert SectionsFrom([a], ChapterNumber(a), true, [b])
      == [Section(ChapterNumber(a), [a])] + SectionsFrom([b], ChapterNumber(b), true, []);
  }

  lemma ParseThree()
    ensures ParseInt("3") == Some(3)
  {
    assert TrimStart("3") == "3" && TrimEnd("3") == "3";
    assert ParseDigits("3") == Some(3);
  }
}
