/** A book taken apart into chapter deltas and spliced back together: exactly when it is the same book. */
module BookRoundTrip {
  import opened Wrappers
  import opened Decimal
  import opened UsxNodes
  import opened RichText
  import opened ChapterWalk
  import opened VersePlaces
  import opened DeltaReading
  import opened Grammar
  import opened InlineRoundTrip
  import opened InsertedOps
  import opened BlockEvents
  import opened SectionReading
  import opened Splicing
  import opened OrderedMerge

  // ----- what the walk keeps

  /** What belongs to the chapter and the book does not change inside a table. */
  predicate SameBook(w: Walk, w1: Walk) {
    w1.curChapter == w.curChapter && w1.chapterIsValid == w.chapterIsValid && w1.tableIndex == w.tableIndex
  }

  lemma CellKeeps(cell: Node, w: Walk, t: nat, table: Attrs, r: nat, c: nat, invalid: bool)
    requires Cell(cell)
    ensures SameBook(w, WalkCell(cell, w, t, table, r, c, invalid))
  {
    var w0 := w.(curRef := Some(CellRef(w.tableIndex, r, c)));
    if cell.name == "cell" {
      InlinesKeep(cell.kids, w0, PLAIN);
    } else {
      InlineKeeps(cell, w0, PLAIN);
    }
  }

  lemma {:induction false} CellsKeep(cells: seq<Node>, w: Walk, t: nat, table: Attrs, r: nat, c: nat, invalid: bool)
    requires Cells(cells)
    ensures SameBook(w, WalkCells(cells, w, t, table, r, c, invalid))
    decreases cells
  {
    hide WalkCell, Inline, Inlines;
    if cells != [] {
      CellKeeps(cells[0], w, t, table, r, c, invalid);
      CellsKeep(cells[1..], WalkCell(cells[0], w, t, table, r, c, invalid), t, table, r, c + 1, invalid);
    }
  }

  lemma {:induction false} RowsKeep(rows: seq<Node>, w: Walk, table: Attrs, r: nat, invalid: bool)
    requires Rows(rows)
    ensures SameBook(w, WalkRows(rows, w, table, r, invalid))
    decreases rows
  {
    hide WalkCells, Cells;
    if rows != [] {
      var inv := invalid || rows[0].invalid;
      CellsKeep(rows[0].kids, w, w.tableIndex, table, r, 1, inv);
      RowsKeep(rows[1..], WalkCells(rows[0].kids, w, w.tableIndex, table, r, 1, inv), table, r + 1, invalid);
    }
  }

  /** A node that does not make its section invalid. */
  predicate NodeValid(child: Child) {
    child.node.Text?
    || (child.isValid && !(child.node.name in {"para", "book"} && MisplacesVerse(child.node)))
  }

  function BookValid(child: Child, bookIsValid: bool): bool {
    if IsElement(child.node, "book") then child.isValid else bookIsValid
  }

  /** What the walk keeps besides the delta at a node that does not end its section. */
  lemma ChildKeeps(child: Child, s: BookWalk)
    requires s.BookWalk? && (if IsBlock(child.node) then TopLevel(child.node) else Loose(child.node))
    requires IsElement(child.node, "chapter") ==> s.walk.curChapter.None?
    ensures var s1 := WalkChild(child, s);
      && s1.BookWalk? && s1.chapters == s.chapters
      && s1.walk.chapterIsValid == (s.walk.chapterIsValid && NodeValid(child))
      && s1.bookIsValid == BookValid(child, s.bookIsValid)
      && s1.walk.curChapter
         == (if IsElement(child.node, "chapter") then Attr(child.node, "number") else s.walk.curChapter)
      && s1.walk.tableIndex == s.walk.tableIndex + (if IsElement(child.node, "table") then 1 else 0)
  {
    hide WalkNode, WalkRows, Rows, Inlines, Appended, MisplacesVerse;
    var n := child.node;
    if !IsBlock(n) {
      InlineKeeps(n, s.walk, PLAIN);
    } else if n.name == "table" {
      TableKeeps(n, s.walk);
    } else if n.name != "chapter" {
      ParaKeeps(n, if n.name == "book" then s.(bookIsValid := child.isValid) else s);
    }
  }

  lemma TableKeeps(n: Node, w: Walk)
    requires TopLevel(n) && n.name == "table"
    ensures SameBook(w.(tableIndex := w.tableIndex + 1), WalkNode(n, w, PLAIN))
  {
    hide WalkRows, Rows;
    var t := w.tableIndex + 1;
    RowsKeep(n.kids, w.(tableIndex := t), n.attrs["id" := TableId(t)], 1, n.invalid);
    assert WalkNode(n, w, PLAIN) == WalkTable(n, w);
  }

  lemma ParaKeeps(n: Node, s: BookWalk)
    requires s.BookWalk? && TopLevel(n) && n.name in {"para", "book"}
    ensures var s1 := WalkPara(n, s);
      && s1.BookWalk? && s1 == s.(walk := s1.walk, nextIds := s1.nextIds)
      && s1.walk.chapterIsValid == (s.walk.chapterIsValid && !MisplacesVerse(n))
      && s1.walk.curChapter == s.walk.curChapter && s1.walk.tableIndex == s.walk.tableIndex
  {
    hide WalkNodes, SegmentEnded, Appended, HasMisplacedVerse, MisplacesVerse, Inlines;
    MisplacedVerses(n);
    var w := ImpliedEnded(s.walk);
    var key := ParaKey(Attr(n, "style"), w.curRef).value;
    InlinesKeep(n.kids, w.(curRef := Some(ParaRef(key.1, NextId(s.nextIds, key.0)))), PLAIN);
  }

  // ----- one more top-level node

  /** The walk has `held` of the current section in its delta. */
  ghost predicate Holds(s: BookWalk, held: seq<Node>, number: Option<int>, found: bool) {
    s.BookWalk? && Underway(s.walk, held)
    && (HasBookOp(s.walk.ops) <==> Books(held) != [])
    && found == s.walk.curChapter.Some?
    && (!found ==> NoChapter(held))
    && number == (if found then ParseInt(s.walk.curChapter.value) else Some(1))
  }

  predicate NoChapter(ns: seq<Node>) {
    forall i :: 0 <= i < |ns| ==> !IsElement(ns[i], "chapter")
  }

  lemma {:induction false} BooksSnoc(held: seq<Node>, n: Node)
    ensures Books(held + [n]) == Books(held) + (if IsElement(n, "book") then [n] else [])
  {
    var all := held + [n];
    if held == [] {
      assert all == [n] && all[1..] == [];
    } else {
      assert all[0] == held[0] && all[1..] == held[1..] + [n];
      BooksSnoc(held[1..], n);
      var first := if IsElement(held[0], "book") then [held[0]] else [];
      assert Books(all) == first + Books(all[1..]) && Books(held) == first + Books(held[1..]);
    }
  }

  lemma ChildBook(child: Child, s: BookWalk)
    requires s.BookWalk? && (if IsBlock(child.node) then TopLevel(child.node) else Loose(child.node))
    requires IsElement(child.node, "chapter") ==> s.walk.curChapter.None?
    ensures var s1 := WalkChild(child, s);
      s1.BookWalk? && (HasBookOp(s1.walk.ops) <==> HasBookOp(s.walk.ops) || IsElement(child.node, "book"))
  {
    hide HasBookOp, Inserts, WalkPara, WalkNode, Appended, Inline;
    var n := child.node;
    if IsBlock(n) && n.name == "chapter" {
      InsertsOne(s.walk.ops, ChapterOp(n));
      InsertsNoBook(s.walk.ops, WalkChild(child, s).walk.ops);
    } else if IsBlock(n) && n.name != "table" {
      ParaBook(n, if n.name == "book" then s.(bookIsValid := child.isValid) else s);
    } else {
      NodeInserts(n, s.walk, PLAIN);
      InsertsNoBook(s.walk.ops, WalkChild(child, s).walk.ops);
    }
  }

  lemma ParaBook(n: Node, s: BookWalk)
    requires s.BookWalk? && TopLevel(n) && n.name in {"para", "book"}
    ensures WalkPara(n, s).BookWalk?
    ensures HasBookOp(WalkPara(n, s).walk.ops) <==> HasBookOp(s.walk.ops) || n.name == "book"
  {
    hide HasBookOp, Inserts, WalkPara, Appended;
    ParaKeyed(n, s);
    var ended := ParaInserts(n, s);
    InsertsNoBook(s.walk.ops, ended);
    AppendedBook(ended, Op(Str("\n"), ParaFmt(n)));
  }

  /** Every node that does not end the section. */
  lemma ChildHeld(child: Child, s: BookWalk, held: seq<Node>, number: Option<int>, found: bool)
    requires Holds(s, held, number, found) && Known(child.node, held)
    requires IsElement(child.node, "chapter") ==> !found
    ensures var s1, n, chapter := WalkChild(child, s), child.node, IsElement(child.node, "chapter");
      Holds(s1, held + [n], if chapter then ChapterNumber(n) else number, found || chapter)
  {
    hide Underway, HasBookOp, WalkChild, Scanned, Inline, Apart;
    BooksSnoc(held, child.node);
    ChildUnderway(child, s, held);
    ChildKeeps(child, s);
    ChildBook(child, s);
  }

  /** A later chapter closes the section and opens its own. */
  lemma ChapterEndsSection(child: Child, s: BookWalk, held: seq<Node>, number: Option<int>)
    requires Holds(s, held, number, true) && TopLevel(child.node) && IsElement(child.node, "chapter")
    ensures var s1 := WalkChild(child, s);
      && Holds(s1, [child.node], ChapterNumber(child.node), true)
      && s1.chapters == Ended(s, number)
      && s1.walk.chapterIsValid == (s.bookIsValid && child.isValid) && s1.bookIsValid == s.bookIsValid
  {
    hide Underway, HasBookOp, Appended, TopLevel;
    var n := child.node;
    ChapterShape(n);
    var w := s.walk.(ops := [], implied := false, chapterIsValid := s.bookIsValid, curChapter := None);
    var s0 := s.(walk := w);
    NothingHeld(w);
    assert !HasBookOp([]) by { NoBookYet(); }
    ChildHeld(child, s0, [], Some(1), false);
    assert [] + [n] == [n];
    var s1, s2 := WalkChild(child, s), WalkChild(child, s0);
    assert s1.walk == s2.walk;
  }

  lemma ChapterShape(n: Node)
    requires TopLevel(n) && IsElement(n, "chapter")
    ensures Attr(n, "number").Some? && Known(n, []) && Books([]) == []
  {
  }

  lemma NoBookYet()
    ensures !HasBookOp([])
  {
  }

  lemma ParseOne()
    ensures ParseInt("1") == Some(1)
  {
    assert TrimStart("1") == "1" && TrimEnd("1") == "1";
    assert ParseDigits("1") == Some(1);
  }

  function Ended(s: BookWalk, number: Option<int>): seq<ChapterDelta>
    requires s.BookWalk?
  {
    if number.None? then s.chapters
    else s.chapters + [ChapterDelta(number.value, s.walk.lastVerse, s.walk.chapterIsValid, ImpliedEnded(s.walk).ops)]
  }

  lemma BookEndedWith(s: BookWalk, number: Option<int>, found: bool)
    requires s.BookWalk? && found == s.walk.curChapter.Some?
    requires number == (if found then ParseInt(s.walk.curChapter.value) else Some(1))
    ensures BookEnded(s) == Some(Ended(s, number))
  {
    ParseOne();
  }

  // ----- the whole walk

  function Nodes(children: seq<Child>): seq<Node> {
    if children == [] then [] else [children[0].node] + Nodes(children[1..])
  }

  /**
   * Which sections are valid, given the verdicts on the rest of a book and on what the current section holds already.
   */
  function Verdicts(children: seq<Child>, valid: bool, bookIsValid: bool, found: bool): seq<bool> {
    if children == [] then [valid]
    else
      var child := children[0];
      var chapter := IsElement(child.node, "chapter");
      var later := Verdicts(children[1..], (if chapter && found then bookIsValid else valid) && NodeValid(child),
                            BookValid(child, bookIsValid), found || chapter);
      if chapter && found then [valid] + later else later
  }

  /** What the delta of a section says of it: exactly the section's nodes if all its runs stand, and not them if not. */
  ghost predicate AccountsFor(s: Section, valid: bool, d: ChapterDelta) {
    s.number == Some(d.number) && d.isValid == valid
    && (HasBookOp(d.ops) <==> Books(s.nodes) != [])
    && (d.ops == [] ==> s.nodes == [])
    && ReadsAs(ProcessDelta(d.ops), s.nodes)
  }

  predicate ReadsAs(r: Option<seq<Node>>, nodes: seq<Node>) {
    (SectionStands(nodes) ==> r == Some(UnmarkAll(nodes)))
    && (!SectionStands(nodes) && r.Some? ==> UnmarkAll(r.value) != UnmarkAll(nodes))
    && (r.Some? ==> |r.value| <= |nodes|)
  }

  /** Each numbered section has its delta. */
  ghost predicate Accounts(ss: seq<Section>, valid: seq<bool>, ds: seq<ChapterDelta>)
    decreases |ss|
  {
    if ss == [] || valid == [] then |ss| == |valid| && ds == []
    else if ss[0].number.None? then Accounts(ss[1..], valid[1..], ds)
    else ds != [] && AccountsFor(ss[0], valid[0], ds[0]) && Accounts(ss[1..], valid[1..], ds[1..])
  }

  /** The delta of a finished section comes before those of the sections after it. */
  lemma SectionEnded(s: BookWalk, held: seq<Node>, number: Option<int>, found: bool, ss: seq<Section>, valid: seq<bool>,
                     later: seq<ChapterDelta>) returns (ds: seq<ChapterDelta>)
    requires Holds(s, held, number, found) && Accounts(ss, valid, later)
    ensures Accounts([Section(number, held)] + ss, [s.walk.chapterIsValid] + valid, ds)
    ensures s.chapters + ds == Ended(s, number) + later
  {
    hide ProcessDelta, Books, HasBookOp, SectionStands, Underway;
    DeltaOfSection(s, held, number, found);
    ds := Ended(s.(chapters := []), number) + later;
    assert ([Section(number, held)] + ss)[1..] == ss && ([s.walk.chapterIsValid] + valid)[1..] == valid;
    if number.Some? {
      assert ds[1..] == later;
    } else {
      assert ds == later;
    }
  }

  lemma DeltaOfSection(s: BookWalk, held: seq<Node>, number: Option<int>, found: bool)
    requires Holds(s, held, number, found)
    ensures ReadsAs(ProcessDelta(ImpliedEnded(s.walk).ops), held)
    ensures HasBookOp(ImpliedEnded(s.walk).ops) <==> Books(held) != []
    ensures ImpliedEnded(s.walk).ops == [] ==> held == []
  {
    hide ProcessDelta, Books, HasBookOp, SectionStands, Underway, Inserts, ImpliedEnded;
    SectionRead(s.walk, held);
    EndInserts(s.walk);
    InsertsNoBook(s.walk.ops, ImpliedEnded(s.walk).ops);
    InsertsKeep(s.walk.ops, ImpliedEnded(s.walk).ops);
    if s.walk.ops == [] { UnderwayOps(s.walk, held); }
  }

  /** The loose node that a section ends in, if it does. */
  function LastLoose(held: seq<Node>): Option<Node> {
    var run := Scanned(held).run;
    if run == [] then None else Some(run[|run| - 1])
  }

  lemma ComposedNext(children: seq<Child>, held: seq<Node>)
    requires children != [] && Composed(Nodes(children), LastLoose(held))
    ensures var n := children[0].node;
      && Nodes(children)[0] == n && Nodes(children)[1..] == Nodes(children[1..])
      && Known(n, held) && (IsElement(n, "chapter") ==> TopLevel(n) && Known(n, []))
      && Composed(Nodes(children[1..]), LastLoose(held + [n]))
      && (IsBlock(n) ==> Composed(Nodes(children[1..]), LastLoose([n])))
  {
    hide TopLevel, Loose, Apart;
    var n := children[0].node;
    assert Nodes(children)[0] == n && Nodes(children)[1..] == Nodes(children[1..]);
    ScanSnoc(held, n);
    ScanSnoc([], n);
    assert [] + [n] == [n];
  }

  lemma {:induction false} WalkAccounts(children: seq<Child>, s: BookWalk, held: seq<Node>, number: Option<int>,
                                        found: bool)
      returns (ds: seq<ChapterDelta>)
    requires Holds(s, held, number, found) && Composed(Nodes(children), LastLoose(held))
    ensures BookEnded(WalkBook(children, s)) == Some(s.chapters + ds)
    ensures Accounts(SectionsFrom(held, number, found, Nodes(children)),
                     Verdicts(children, s.walk.chapterIsValid, s.bookIsValid, found), ds)
    decreases children
  {
    hide Underway, AccountsFor, TopLevel, WalkChild, Loose, Composed, Scanned, Apart, NodeValid, HasBookOp, Books;
    var ss := SectionsFrom(held, number, found, Nodes(children));
    if children == [] {
      ds := SectionEnded(s, held, number, found, [], [], []);
      assert ss == [Section(number, held)] + [] && [s.walk.chapterIsValid] + [] == [s.walk.chapterIsValid];
      BookEndedWith(s, number, found);
      assert Ended(s, number) + [] == Ended(s, number);
    } else {
      var child := children[0];
      var n, s1 := child.node, WalkChild(child, s);
      ComposedNext(children, held);
      if !IsElement(n, "chapter") || !found {
        ChildHeld(child, s, held, number, found);
        ChildOf(child, s, held);
        ds := WalkAccounts(children[1..], s1, held + [n], if IsElement(n, "chapter") then ChapterNumber(n) else number,
                           found || IsElement(n, "chapter"));
      } else {
        ChapterEndsSection(child, s, held, number);
        ChapterBlock(child);
        var later := WalkAccounts(children[1..], s1, [n], ChapterNumber(n), true);
        ds := SectionEnded(s, held, number, found, SectionsFrom([n], ChapterNumber(n), true, Nodes(children[1..])),
                           Verdicts(children[1..], s1.walk.chapterIsValid, s1.bookIsValid, true), later);
      }
    }
  }

  lemma ChildOf(child: Child, s: BookWalk, held: seq<Node>)
    requires s.BookWalk? && Known(child.node, held) && (IsElement(child.node, "chapter") ==> s.walk.curChapter.None?)
    ensures var s1 := WalkChild(child, s);
      && s1.BookWalk? && s1.chapters == s.chapters
      && s1.walk.chapterIsValid == (s.walk.chapterIsValid && NodeValid(child))
      && s1.bookIsValid == BookValid(child, s.bookIsValid)
  {
    ChildKeeps(child, s);
  }

  lemma ChapterBlock(child: Child)
    requires IsElement(child.node, "chapter")
    ensures IsBlock(child.node) && NodeValid(child) == child.isValid && forall b :: BookValid(child, b) == b
  {
  }

  lemma StartHolds(g: nat)
    ensures Holds(Start(g), [], Some(1), false)
  {
    NothingHeld(Start(g).walk);
  }

  /** Every numbered section has a delta. Whether that is valid, and gives the section back, can be seen beforehand. */
  lemma {:induction false} DeltasAccount(children: seq<Child>, g: nat)
    requires Composed(Nodes(children), None)
    ensures ToChapterDeltas(children, g).Some?
    ensures Accounts(Sections(Nodes(children)), Verdicts(children, true, true, false),
      ToChapterDeltas(children, g).value)
  {
    hide Holds, Accounts, Composed;
    StartHolds(g);
    var ds := WalkAccounts(children, Start(g), [], Some(1), false);
    assert [] + ds == ds;
  }

  // ----- the round trip

  /** Nothing is replaced that would not come back. */
  predicate Survives(ss: seq<Section>, valid: seq<bool>)
    requires |ss| == |valid|
  {
    forall i :: 0 <= i < |ss| && ss[i].number.Some? && valid[i] ==> SectionStands(ss[i].nodes)
  }

  lemma {:induction false} UnmarkTwice(ns: seq<Node>)
    ensures UnmarkAll(UnmarkAll(ns)) == UnmarkAll(ns)
    decreases ns
  {
    if ns != [] {
      if ns[0].Elem? {
        UnmarkTwice(ns[0].kids);
      }
      UnmarkTwice(ns[1..]);
    }
  }

  lemma SplitEqual<T>(a: seq<T>, b: seq<T>, c: seq<T>, d: seq<T>)
    requires |a| <= |c| && |b| <= |d|
    ensures a + b == c + d <==> a == c && b == d
  {
    if a + b == c + d {
      assert |a| == |c|;
      assert (a + b)[..|a|] == a && (c + d)[..|a|] == c && (a + b)[|a|..] == b && (c + d)[|a|..] == d;
    }
  }

  lemma SurvivesCons(ss: seq<Section>, valid: seq<bool>)
    requires |ss| == |valid| && ss != []
    ensures Survives(ss, valid)
      <==> (ss[0].number.Some? && valid[0] ==> SectionStands(ss[0].nodes)) && Survives(ss[1..], valid[1..])
  {
    hide SectionStands;
    forall i | 0 < i < |ss|
      ensures ss[i] == ss[1..][i - 1] && valid[i] == valid[1..][i - 1]
    {
    }
  }

  /** A section and its delta. */
  lemma ReplacedByOwn(s: Section, valid: bool, d: ChapterDelta)
    requires AccountsFor(s, valid, d) && Contribution(d).Success?
    ensures |Replaced(s, d)| <= |s.nodes|
    ensures UnmarkAll(Replaced(s, d)) == UnmarkAll(s.nodes) <==> (valid ==> SectionStands(s.nodes))
  {
    hide ProcessDelta, HasBookOp, Books, SectionStands, UnmarkAll;
    UnmarkTwice(s.nodes);
    if d.isValid { assert [] + Added(d) == Added(d); }
  }

  /** Merging a book with its own deltas leaves every section as it was exactly if what is replaced comes back. */
  lemma {:induction false} MergeWithItself(ss: seq<Section>, valid: seq<bool>, ds: seq<ChapterDelta>)
    requires |ss| == |valid| && Accounts(ss, valid, ds) && Readable(ds)
    ensures |Merge(ss, ds)| <= |Flat(ss)|
    ensures UnmarkAll(Merge(ss, ds)) == UnmarkAll(Flat(ss)) <==> Survives(ss, valid)
    decreases ss
  {
    hide AccountsFor, Contribution, HasBookOp, Survives, Replaced, UnmarkAll, SectionStands;
    if ss != [] {
      SurvivesCons(ss, valid);
      var numbered := ss[0].number.Some?;
      var ds1 := if numbered then ds[1..] else ds;
      MergeWithItself(ss[1..], valid[1..], ds1);
      if numbered { ReplacedByOwn(ss[0], valid[0], ds[0]); }
      var first := if numbered then Replaced(ss[0], ds[0]) else ss[0].nodes;
      MergeHead(ss, valid, ds);
      UnmarkAppend(first, Merge(ss[1..], ds1));
      UnmarkAppend(ss[0].nodes, Flat(ss[1..]));
      UnmarkedLength(first);
      UnmarkedLength(ss[0].nodes);
      UnmarkedLength(Merge(ss[1..], ds1));
      UnmarkedLength(Flat(ss[1..]));
      SplitEqual(UnmarkAll(first), UnmarkAll(Merge(ss[1..], ds1)), UnmarkAll(ss[0].nodes), UnmarkAll(Flat(ss[1..])));
    } else {
      NothingSurvives(valid);
    }
  }

  lemma NothingSurvives(valid: seq<bool>)
    requires valid == []
    ensures Survives([], valid)
  {
  }

  lemma MergeHead(ss: seq<Section>, valid: seq<bool>, ds: seq<ChapterDelta>)
    requires |ss| == |valid| && ss != [] && Accounts(ss, valid, ds)
    ensures Merge(ss, ds)
      == if ss[0].number.Some? then Replaced(ss[0], ds[0]) + Merge(ss[1..], ds[1..])
         else ss[0].nodes + Merge(ss[1..], ds)
  {
    hide Replaced, ProcessDelta, HasBookOp, Books, SectionStands;
    if ds == [] { NoDeltasMerge(ss[1..]); }
  }

  lemma NoDeltasMerge(ss: seq<Section>)
    ensures Merge(ss, []) == Flat(ss)
  {
  }

  lemma {:induction false} OwnDeltas(ss: seq<Section>, valid: seq<bool>, ds: seq<ChapterDelta>, low: int)
    requires |ss| == |valid| && Accounts(ss, valid, ds) && Rising(ss, low)
    ensures Increasing(ds) && (forall i :: 0 <= i < |ds| ==> low < ds[i].number)
    ensures ds != [] ==> HasNumber(ss, ds[|ds| - 1].number)
    ensures !Readable(ds) ==> !Survives(ss, valid)
    decreases ss
  {
    hide Contribution, Increasing, Readable, HasNumber, AllBelow, Survives, AccountsFor, SectionStands;
    if ss == [] {
      NoDeltas();
    } else {
      var numbered := ss[0].number.Some?;
      var ds1 := if numbered then ds[1..] else ds;
      if numbered { NumberedAs(ss[0], valid[0], ds[0]); }
      OwnDeltas(ss[1..], valid[1..], ds1, if numbered then ss[0].number.value else low);
      SurvivesCons(ss, valid);
      assert [ss[0]] + ss[1..] == ss;
      if ds != [] {
        CoveredCons(ss[0], ss[1..], ds[|ds| - 1].number);
      }
      if numbered {
        FirstDelta(ds);
      }
    }
  }

  lemma NumberedAs(s: Section, valid: bool, d: ChapterDelta)
    requires AccountsFor(s, valid, d)
    ensures s.number == Some(d.number)
    ensures (valid ==> SectionStands(s.nodes)) ==> Contribution(d).Success?
  {
    hide ProcessDelta, HasBookOp, Books, SectionStands;
  }

  lemma NoDeltas()
    ensures Increasing([]) && Readable([])
  {
  }

  lemma FirstDelta(ds: seq<ChapterDelta>)
    requires ds != [] && Increasing(ds[1..])
    requires forall i :: 0 <= i < |ds[1..]| ==> ds[0].number < ds[1..][i].number
    ensures Increasing(ds) && forall i :: 0 <= i < |ds| ==> ds[0].number <= ds[i].number
    ensures Readable(ds) <==> Contribution(ds[0]).Success? && Readable(ds[1..])
  {
    hide Contribution;
    assert forall i :: 0 < i < |ds| ==> ds[i] == ds[1..][i - 1];
    assert Readable(ds) ==> forall i :: 0 <= i < |ds[1..]| ==> ds[1..][i] == ds[i + 1];
  }

  // ----- books without a numbered first chapter

  lemma {:induction false} FirstChapterRefused(held: seq<Node>, number: Option<int>, nodes: seq<Node>,
                                               ds: seq<ChapterDelta>, i: nat, cur: int)
    requires i < |ds| && number.Some? && SectionsFrom(held, number, false, nodes)[0].number.None?
    ensures Splice(nodes, ds, i, cur, false) == Failure(InvalidFirstChapter)
    decreases |nodes|
  {
    hide Removed, ChapterNumber;
    if nodes != [] {
      if IsElement(nodes[0], "chapter") {
        FirstNumber(held + [nodes[0]], ChapterNumber(nodes[0]), true, nodes[1..]);
      } else {
        FirstChapterRefused(held + [nodes[0]], number, nodes[1..], ds, i, cur);
      }
    }
  }

  /** Only the section of a book without nodes is empty. */
  lemma {:induction false} SectionsFilled(held: seq<Node>, number: Option<int>, found: bool, nodes: seq<Node>)
    requires held != [] || nodes != []
    requires found ==> held != []
    ensures forall i :: 0 <= i < |SectionsFrom(held, number, found, nodes)| ==>
      SectionsFrom(held, number, found, nodes)[i].nodes != []
    decreases nodes
  {
    hide ChapterNumber;
    if nodes != [] {
      var n := nodes[0];
      if IsElement(n, "chapter") {
        SectionsFilled(if found then [n] else held + [n], ChapterNumber(n), true, nodes[1..]);
      } else {
        SectionsFilled(held + [n], number, found, nodes[1..]);
      }
    }
  }

  lemma {:induction false} FilledDeltas(ss: seq<Section>, valid: seq<bool>, ds: seq<ChapterDelta>)
    requires |ss| == |valid| && Accounts(ss, valid, ds) && forall i :: 0 <= i < |ss| ==> ss[i].nodes != []
    ensures forall i :: 0 <= i < |ds| ==> ds[i].ops != []
    decreases |ss|
  {
    hide ProcessDelta, HasBookOp, Books, SectionStands;
    if ss != [] {
      var ds1 := if ss[0].number.Some? then ds[1..] else ds;
      FilledDeltas(ss[1..], valid[1..], ds1);
      assert forall i :: 0 < i < |ds| ==> ds[i] == ds[1..][i - 1];
    }
  }

  lemma {:induction false} AccountsMatch(ss: seq<Section>, valid: seq<bool>, ds: seq<ChapterDelta>)
    requires Accounts(ss, valid, ds)
    ensures |ss| == |valid|
    ensures ss != [] && ss[0].number.Some? ==> ds != [] && ss[0].number == Some(ds[0].number)
    decreases |ss|
  {
    hide AccountsFor, SectionStands;
    if ss != [] && valid != [] {
      AccountsMatch(ss[1..], valid[1..], if ss[0].number.None? then ds else ds[1..]);
      if ss[0].number.Some? { NumberedAs(ss[0], valid[0], ds[0]); }
    }
  }

  // ----- the law, and where it ends

  /** The book comes back. */
  predicate ComesBack(nodes: seq<Node>, r: Spliced) {
    r.Success? && UnmarkAll(r.value) == UnmarkAll(nodes)
  }

  predicate NumbersRise(nodes: seq<Node>) {
    var ss := Sections(nodes);
    ss[0].number.Some? ==> Rising(ss[1..], ss[0].number.value)
  }

  /**
   * Splicing its own deltas into a book gives the book back exactly if its first chapter has a number and every section
   * that is replaced, being numbered and valid, has only runs of loose nodes that stand.
   */
  lemma {:induction false} RoundTripExactly(children: seq<Child>, g: nat)
    requires Composed(Nodes(children), None) && NumbersRise(Nodes(children))
    ensures ToChapterDeltas(children, g).Some?
    ensures |Verdicts(children, true, true, false)| == |Sections(Nodes(children))|
    ensures ComesBack(Nodes(children), ToUsx(Nodes(children), ToChapterDeltas(children, g).value))
      <==> Sections(Nodes(children))[0].number.Some?
           && Survives(Sections(Nodes(children)), Verdicts(children, true, true, false))
  {
    hide Accounts, Survives, Composed, Verdicts, Merge, Contribution, SectionStands, ToChapterDeltas, Readable, Splice;
    var nodes, valid := Nodes(children), Verdicts(children, true, true, false);
    var ss := Sections(nodes);
    DeltasAccount(children, g);
    var ds := ToChapterDeltas(children, g).value;
    AccountsMatch(ss, valid, ds);
    if ss[0].number.None? {
      NoNumber(nodes, valid, ds);
    } else if |ds| == 1 && ds[0].ops == [] {
      if nodes != [] {
        SectionsFilled([], Some(1), false, nodes);
        FilledDeltas(ss, valid, ds);
      }
      NoNodes(valid);
    } else {
      OwnDeltas(ss, valid, ds, ss[0].number.value - 1);
      SplicingMerges(nodes, ds);
      if Readable(ds) {
        MergeWithItself(ss, valid, ds);
        FlatSections([], Some(1), false, nodes);
        assert [] + nodes == nodes;
      }
    }
  }

  lemma NoNumber(nodes: seq<Node>, valid: seq<bool>, ds: seq<ChapterDelta>)
    requires Sections(nodes)[0].number.None? && Accounts(Sections(nodes), valid, ds)
    ensures ToUsx(nodes, ds) == Failure(if ds == [] then UsxError.NoDeltas else InvalidFirstChapter)
  {
    hide Accounts, Splice;
    assert nodes != [];
    AccountsMatch(Sections(nodes), valid, ds);
    SectionsFilled([], Some(1), false, nodes);
    FilledDeltas(Sections(nodes), valid, ds);
    if ds != [] { FirstChapterRefused([], Some(1), nodes, ds, 0, ds[0].number); }
  }

  lemma NoNodes(valid: seq<bool>)
    ensures |valid| == 1 ==> Survives(Sections([]), valid)
  {
    assert Sections([]) == [Section(Some(1), [])] && SectionStands([]);
  }

  // ----- books in the grammar

  /** Every section that has a number comes back. */
  predicate Standing(ss: seq<Section>) {
    forall i :: 0 <= i < |ss| && ss[i].number.Some? ==> SectionStands(ss[i].nodes)
  }

  /** Chapter numbers, where they are integers, increase; the first one is an integer; all runs of loose nodes stand. */
  predicate Book(children: seq<Child>) {
    var nodes := Nodes(children);
    Composed(nodes, None) && NumbersRise(nodes) && Sections(nodes)[0].number.Some? && Standing(Sections(nodes))
  }

  /** Each numbered section has its delta, which describes exactly the nodes of the section. */
  ghost predicate Describes(ss: seq<Section>, ds: seq<ChapterDelta>) {
    if ss == [] then ds == []
    else if ss[0].number.None? then Describes(ss[1..], ds)
    else
      ds != []
      && ds[0].number == ss[0].number.value
      && ProcessDelta(ds[0].ops) == Some(UnmarkAll(ss[0].nodes))
      && (HasBookOp(ds[0].ops) <==> Books(ss[0].nodes) != [])
      && Describes(ss[1..], ds[1..])
  }

  lemma {:induction false} AccountsDescribe(ss: seq<Section>, valid: seq<bool>, ds: seq<ChapterDelta>)
    requires |ss| == |valid| && Accounts(ss, valid, ds) && Standing(ss)
    ensures Describes(ss, ds)
    decreases |ss|
  {
    hide ProcessDelta, HasBookOp, Books, SectionStands;
    if ss != [] {
      assert forall i :: 0 < i < |ss| ==> ss[i] == ss[1..][i - 1];
      AccountsDescribe(ss[1..], valid[1..], if ss[0].number.None? then ds else ds[1..]);
    }
  }

  /** Every section of the book has a delta that describes it, read on its own. */
  lemma {:induction false} DeltasDescribeSections(children: seq<Child>, g: nat)
    requires Book(children)
    ensures ToChapterDeltas(children, g).Some?
    ensures Describes(Sections(Nodes(children)), ToChapterDeltas(children, g).value)
  {
    hide Accounts, Describes, Composed, Verdicts, ToChapterDeltas, Standing;
    DeltasAccount(children, g);
    var ss, ds := Sections(Nodes(children)), ToChapterDeltas(children, g).value;
    AccountsMatch(ss, Verdicts(children, true, true, false), ds);
    AccountsDescribe(ss, Verdicts(children, true, true, false), ds);
  }

  /** Splicing the deltas of a book into that book gives the book back, whatever validation says about its nodes. */
  lemma {:induction false} WholeBookRoundTrip(children: seq<Child>, g: nat)
    requires Book(children)
    ensures ToChapterDeltas(children, g).Some?
    ensures var r := ToUsx(Nodes(children), ToChapterDeltas(children, g).value);
            r.Success? && UnmarkAll(r.value) == UnmarkAll(Nodes(children))
  {
    hide Composed, Verdicts, ToChapterDeltas, SectionStands, ToUsx;
    RoundTripExactly(children, g);
  }

  lemma {:induction false} AllVerdicts(children: seq<Child>, found: bool)
    requires forall i :: 0 <= i < |children| ==> NodeValid(children[i])
    ensures forall i :: 0 <= i < |Verdicts(children, true, true, found)| ==> Verdicts(children, true, true, found)[i]
    decreases |children|
  {
    hide NodeValid;
    if children != [] {
      BookNodeValid(children[0]);
      AllVerdicts(children[1..], found || IsElement(children[0].node, "chapter"));
    }
  }

  lemma BookNodeValid(child: Child)
    requires NodeValid(child)
    ensures BookValid(child, true)
  {
  }

  /**
   * A book without a validation error, or verse in a paragraph that may not have one, comes back exactly if it stands.
   */
  lemma {:induction false} ValidRoundTrip(children: seq<Child>, g: nat)
    requires Composed(Nodes(children), None) && NumbersRise(Nodes(children))
    requires forall i :: 0 <= i < |children| ==> NodeValid(children[i])
    ensures ToChapterDeltas(children, g).Some?
    ensures ComesBack(Nodes(children), ToUsx(Nodes(children), ToChapterDeltas(children, g).value))
      <==> Sections(Nodes(children))[0].number.Some? && Standing(Sections(Nodes(children)))
  {
    hide Composed, Verdicts, ToChapterDeltas, SectionStands, ToUsx, NodeValid;
    RoundTripExactly(children, g);
    AllVerdicts(children, false);
  }
}
