/** Deltas are compact: no text is empty, and no text could have been merged into the one before it. */
module CompactDeltas {
  import opened Wrappers
  import opened Decimal
  import opened UsxNodes
  import opened RichText
  import opened ChapterWalk
  import opened InsertedOps
  import opened UnstyledParas

  // ----- what a delta says, character by character

  datatype Unit = Letter(c: char, fmt: Fmt) | Thing(insert: Insert, fmt: Fmt)

  function OpUnits(op: Op): seq<Unit> {
    if !op.insert.Str? then [Thing(op.insert, op.fmt)]
    else seq(|op.insert.text|, i requires 0 <= i < |op.insert.text| => Letter(op.insert.text[i], op.fmt))
  }

  function Units(ops: seq<Op>): seq<Unit> {
    if ops == [] then [] else Units(ops[..|ops| - 1]) + OpUnits(Last(ops))
  }

  predicate Compact(ops: seq<Op>) {
    && (forall i :: 0 <= i < |ops| ==> ops[i].insert != Str(""))
    && forall i :: 0 < i < |ops| && ops[i - 1].insert.Str? && ops[i].insert.Str? ==> ops[i - 1].fmt != ops[i].fmt
  }

  // ----- inserting

  /** Inserting an op adds what it says at the end, whether it is dropped, merged or added. */
  lemma {:induction false} AppendedUnits(ops: seq<Op>, op: Op)
    ensures Units(Appended(ops, op)) == Units(ops) + OpUnits(op)
  {
    var r := Appended(ops, op);
    if op.insert == Str("") {
      assert OpUnits(op) == [];
    } else if op.insert.Str? && Merges(ops, op.fmt) {
      assert r[..|r| - 1] == ops[..|ops| - 1];
      assert OpUnits(Last(r)) == OpUnits(Last(ops)) + OpUnits(op);
    } else {
      assert r[..|r| - 1] == ops;
    }
  }

  lemma {:induction false} AppendedCompact(ops: seq<Op>, op: Op)
    requires Compact(ops)
    ensures Compact(Appended(ops, op))
  {
  }

  lemma LastUnit(ops: seq<Op>)
    requires ops != [] && Compact(ops)
    ensures var own := OpUnits(Last(ops));
      && own != [] && Units(ops) != [] && Units(ops)[|Units(ops)| - 1] == own[|own| - 1]
      && (if Last(ops).insert.Str? then own[|own| - 1].Letter? && own[|own| - 1].fmt == Last(ops).fmt
          else own == [Thing(Last(ops).insert, Last(ops).fmt)])
    ensures Compact(ops[..|ops| - 1])
  {
  }

  /** Otherwise the text in front of `a`'s last one would have been merged with it. */
  lemma NotShorter(a: seq<Op>, b: seq<Op>)
    requires a != [] && b != [] && Compact(a) && Compact(b) && Units(a) == Units(b)
    ensures |OpUnits(Last(a))| >= |OpUnits(Last(b))|
  {
    hide Compact, Units;
    LastUnit(a);
    LastUnit(b);
    var own, other := OpUnits(Last(a)), OpUnits(Last(b));
    if |own| < |other| {
      var front := a[..|a| - 1];
      UnitsSplit(a);
      UnitsSplit(b);
      var k := |other| - |own| - 1;
      var at := |Units(b[..|b| - 1])| + k;
      assert Units(a)[at] == Units(b)[at] == other[k];
      assert Units(front)[|Units(front)| - 1] == other[k];
      FrontUnit(a);
      assert false;
    }
  }

  lemma UnitsSplit(ops: seq<Op>)
    requires ops != []
    ensures Units(ops) == Units(ops[..|ops| - 1]) + OpUnits(Last(ops))
  {
  }

  /** What stands in front of a last text is no letter with its formatting. */
  lemma FrontUnit(ops: seq<Op>)
    requires ops != [] && Compact(ops) && Units(ops[..|ops| - 1]) != []
    ensures var units := Units(ops[..|ops| - 1]);
      Last(ops).insert.Str? ==> units[|units| - 1].Thing? || units[|units| - 1].fmt != Last(ops).fmt
  {
    var front := ops[..|ops| - 1];
    assert front != [] && Compact(front);
    LastUnit(front);
    assert front[|front| - 1] == ops[|ops| - 2];
  }

  lemma SameLast(a: seq<Op>, b: seq<Op>)
    requires a != [] && b != [] && Compact(a) && Compact(b) && Units(a) == Units(b)
    ensures Last(a) == Last(b) && Units(a[..|a| - 1]) == Units(b[..|b| - 1])
  {
    hide Compact, Units;
    LastUnit(a);
    LastUnit(b);
    NotShorter(a, b);
    NotShorter(b, a);
    UnitsSplit(a);
    UnitsSplit(b);
    var n := |Units(a[..|a| - 1])|;
    assert Units(a)[..n] == Units(a[..|a| - 1]) && Units(b)[..n] == Units(b[..|b| - 1]);
    assert Units(a)[n..] == OpUnits(Last(a)) && Units(b)[n..] == OpUnits(Last(b));
    if Last(a).insert.Str? {
      SameText(Last(a), Last(b));
    }
  }

  lemma SameText(a: Op, b: Op)
    requires a.insert.Str? && b.insert.Str? && a.fmt == b.fmt && OpUnits(a) == OpUnits(b)
    ensures a == b
  {
    assert |a.insert.text| == |OpUnits(a)| == |b.insert.text|;
    forall i | 0 <= i < |a.insert.text|
      ensures a.insert.text[i] == b.insert.text[i]
    {
      assert OpUnits(a)[i] == OpUnits(b)[i];
    }
  }

  /** A compact delta is determined by what it says. */
  lemma {:induction false} CompactUnique(a: seq<Op>, b: seq<Op>)
    requires Compact(a) && Compact(b) && Units(a) == Units(b)
    ensures a == b
    decreases |a|
  {
    hide Compact, OpUnits;
    if a == [] {
      assert Units(a) == [];
      if b != [] { LastUnit(b); }
    } else {
      LastUnit(a);
      assert b != [];
      LastUnit(b);
      SameLast(a, b);
      CompactUnique(a[..|a| - 1], b[..|b| - 1]);
      assert a == a[..|a| - 1] + [Last(a)] && b == b[..|b| - 1] + [Last(b)];
    }
  }

  // ----- the walk

  lemma {:induction false} AllAppendedCompact(ops: seq<Op>, more: seq<Op>)
    requires Compact(ops)
    ensures Compact(AppendedAll(ops, more))
    decreases |more|
  {
    hide Compact;
    if more != [] {
      AppendedCompact(ops, more[0]);
      AllAppendedCompact(Appended(ops, more[0]), more[1..]);
    }
  }

  lemma InsertsCompact(ops: seq<Op>, ops1: seq<Op>)
    requires Compact(ops) && Inserts(ops, ops1)
    ensures Compact(ops1)
  {
    hide Compact;
    var more :| NoBookOps(more) && AppendedAll(ops, more) == ops1;
    AllAppendedCompact(ops, more);
  }

  ghost predicate AllCompact(ds: seq<ChapterDelta>) {
    forall i :: 0 <= i < |ds| ==> Compact(ds[i].ops)
  }

  lemma EndedCompact(w: Walk, chapters: seq<ChapterDelta>)
    requires Compact(w.ops) && AllCompact(chapters)
    ensures AllCompact(ChapterEnded(w, chapters))
  {
    hide Compact, Inserts, ImpliedEnded, ParseInt;
    EndInserts(w);
    InsertsCompact(w.ops, ImpliedEnded(w).ops);
  }

  lemma ChildCompact(child: Child, s: BookWalk)
    requires s.BookWalk? && Compact(s.walk.ops) && AllCompact(s.chapters)
    ensures var s1 := WalkChild(child, s);
      s1.BookWalk? ==> Compact(s1.walk.ops) && AllCompact(s1.chapters)
  {
    hide Compact, Inserts, WalkNode, WalkPara, Appended, ChapterEnded;
    var n := child.node;
    if n.Text? || n.name !in {"book", "para", "chapter"} {
      NodeInserts(n, s.walk, PLAIN);
      InsertsCompact(s.walk.ops, WalkNode(n, s.walk, PLAIN).ops);
    } else if n.name == "chapter" {
      EndedCompact(s.walk, s.chapters);
      NothingCompact();
      var ops := if s.walk.curChapter.None? then s.walk.ops else [];
      AppendedCompact(ops, Op(Embed("chapter", n.attrs, []), PLAIN.(invalidBlock := n.invalid)));
    } else {
      ParaCompact(n, if n.name == "book" then s.(bookIsValid := child.isValid) else s);
    }
  }

  lemma NothingCompact()
    ensures Compact([])
  {
  }

  lemma ParaCompact(n: Node, s: BookWalk)
    requires s.BookWalk? && n.Elem? && Compact(s.walk.ops)
    ensures var s1 := WalkPara(n, s);
      s1.BookWalk? ==> Compact(s1.walk.ops) && s1.chapters == s.chapters
  {
    hide Compact, Inserts, Appended;
    if WalkPara(n, s).BookWalk? {
      var ended := ParaInserts(n, s);
      InsertsCompact(s.walk.ops, ended);
      AppendedCompact(ended, Op(Str("\n"), ParaFmt(n)));
    }
  }

  lemma {:induction false} WalkCompact(children: seq<Child>, s: BookWalk)
    requires s.BookWalk? && Compact(s.walk.ops) && AllCompact(s.chapters)
    ensures BookEnded(WalkBook(children, s)).Some? ==> AllCompact(BookEnded(WalkBook(children, s)).value)
    decreases |children|
  {
    hide Compact, AllCompact, WalkChild, ChapterEnded;
    if children == [] {
      EndedCompact(if s.walk.curChapter.None? then s.walk.(curChapter := Some("1")) else s.walk, s.chapters);
    } else {
      ChildCompact(children[0], s);
      var s1 := WalkChild(children[0], s);
      if s1.BookWalk? { WalkCompact(children[1..], s1); } else { CrashStays(children[1..]); }
    }
  }

  /** For every list of nodes whatsoever, each delta of the book is compact. */
  lemma {:induction false} DeltasCompact(children: seq<Child>, g: nat)
    requires ToChapterDeltas(children, g).Some?
    ensures AllCompact(ToChapterDeltas(children, g).value)
  {
    hide Compact;
    NothingCompact();
    WalkCompact(children, Start(g));
  }
}
