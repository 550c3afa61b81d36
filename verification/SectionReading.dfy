/**
 * Reading back the delta of a section: as long as its runs of loose nodes stand, the reader has exactly its nodes; from
 * the first that does not, some are missing or misplaced, or it has thrown.
 */
module SectionReading {
  import opened Wrappers
  import opened UsxNodes
  import opened RichText
  import opened ChapterWalk
  import opened DeltaReading
  import opened Grammar
  import opened InlineRoundTrip
  import opened BlockRoundTrip
  import opened ImpliedRoundTrip
  import opened InsertedOps
  import opened BlockEvents

  /** Nothing is harmed yet: the reader has all of `held`, of which the run `ns` waits. */
  ghost predicate Intact(w0: Walk, w: Walk, ns: seq<Node>, held: seq<Node>)
    requires Idle(Run(w0.ops))
  {
    var m, scan := Run(w0.ops), Scanned(held);
    && ns == scan.run
    && Settled(m) + UnmarkAll(ns) == UnmarkAll(held)
    && (m.table.Some? <==> scan.afterTable)
    && (w.implied <==> HasImplied(ns))
    && (m.table.Some? ==> (w.curRef.None? <==> !HasVerse(ns)))
    && (ns != [] && ns[|ns| - 1].Text? ==> w.ops != [] && Last(w.ops).insert.Str?)
  }

  /** Harm that nothing later undoes: too few nodes, or another one in some place. */
  predicate Harmed(m: Machine, waiting: seq<Node>, all: seq<Node>)
    requires Idle(m)
  {
    var count := |Settled(m)| + |waiting|;
    Settled(m) != [] && count <= |all|
    && (count < |all| || exists k :: 0 <= k < |m.content| && k < |all| && Unmark(m.content[k]) != all[k])
  }

  /** What waits ends in the run since the last block, unless a chapter came after it. */
  predicate EndsInRun(w: Walk, ns: seq<Node>, run: seq<Node>) {
    if run == [] then ns == [] || (w.ops != [] && Last(w.ops).insert.Embed?)
    else ns != [] && ns[|ns| - 1] == run[|run| - 1]
  }

  ghost predicate Reads(w0: Walk, w: Walk, ns: seq<Node>, held: seq<Node>) {
    Waits(w0, w, ns) && EndsInRun(w, ns, Scanned(held).run)
    && (if Scanned(held).stands then Intact(w0, w, ns, held) else Harmed(Run(w0.ops), UnmarkAll(ns), UnmarkAll(held)))
  }

  /** What is known of the reader when the walk has `held` of a section. */
  ghost predicate Underway(w: Walk, held: seq<Node>) {
    (Doomed(w.ops) && !Scanned(held).stands) || exists w0, ns :: Reads(w0, w, ns, held)
  }

  /** What may come next in a section. */
  predicate Known(n: Node, held: seq<Node>) {
    if IsBlock(n) then TopLevel(n)
    else
      var run := Scanned(held).run;
      Loose(n) && (run != [] ==> Apart(run[|run| - 1], n))
  }

  lemma ScanSnoc(held: seq<Node>, n: Node)
    ensures Scanned(held + [n]) == ScanNext(Scanned(held), n)
  {
    var all := held + [n];
    assert all[|all| - 1] == n && all[..|all| - 1] == held;
  }

  lemma {:induction false} RunIsLoose(held: seq<Node>)
    ensures forall i :: 0 <= i < |Scanned(held).run| ==> !IsBlock(Scanned(held).run[i])
  {
    if held != [] { RunIsLoose(held[..|held| - 1]); }
  }

  lemma {:induction false} UnmarkedAt(ns: seq<Node>, k: nat)
    requires k < |ns|
    ensures UnmarkAll(ns)[k] == Unmark(ns[k])
  {
    if k > 0 { UnmarkedAt(ns[1..], k - 1); }
  }

  lemma UnmarkSnoc(ns: seq<Node>, n: Node)
    ensures UnmarkAll(ns + [n]) == UnmarkAll(ns) + [Unmark(n)]
  {
    UnmarkAppend(ns, [n]);
    OneUnmarked(n);
  }

  // ----- harm

  lemma SettledContent(m: Machine)
    requires Idle(m)
    ensures m.content <= Settled(m) && |Settled(m)| == |m.content| + (if m.table.Some? then 1 else 0)
  {
  }

  /** What the reader has only grows, by one node at most for each node. */
  lemma HarmGrows(m: Machine, ns: seq<Node>, m1: Machine, ns1: seq<Node>, all: seq<Node>, x: Node)
    requires Idle(m) && Idle(m1) && Harmed(m, ns, all)
    requires m.content <= m1.content && Settled(m1) != [] && |Settled(m1)| + |ns1| <= |Settled(m)| + |ns| + 1
    ensures Harmed(m1, ns1, all + [x])
  {
    if |Settled(m)| + |ns| == |all| {
      var k :| 0 <= k < |m.content| && k < |all| && Unmark(m.content[k]) != all[k];
      assert m1.content[k] == m.content[k] && (all + [x])[k] == all[k];
    }
  }

  // ----- loose nodes

  lemma {:induction false} LooseUnderway(n: Node, w: Walk, held: seq<Node>, chapterIsValid: bool)
    requires Underway(w, held) && !IsBlock(n) && Known(n, held)
    ensures Underway(LooseWalked(n, w, chapterIsValid), held + [n])
  {
    hide Run, Doomed, Reads, WalkNode, Inline;
    ScanSnoc(held, n);
    if Doomed(w.ops) && !Scanned(held).stands {
      NodeInserts(n, w, PLAIN);
      DoomedInserts(w.ops, WalkNode(n, w, PLAIN).ops);
    } else {
      var w0, ns :| Reads(w0, w, ns, held);
      var w1 := LooseReads(n, w0, w, ns, held, chapterIsValid);
    }
  }

  lemma LooseReads(n: Node, w0: Walk, w: Walk, ns: seq<Node>, held: seq<Node>, chapterIsValid: bool) returns (w1: Walk)
    requires Reads(w0, w, ns, held) && !IsBlock(n) && Known(n, held)
    ensures w1 == LooseWalked(n, w, chapterIsValid) && Reads(w0, w1, ns + [n], held + [n])
  {
    hide Run, WalkNode, Inline, Settled, Adds, EndsWith, LastOpOf, Loose, Apart;
    w1 := LooseWalked(n, w, chapterIsValid);
    ScanSnoc(held, n);
    if ns == [] {
      LooseFirst(n, w, chapterIsValid);
      assert [] + [n] == [n];
    } else {
      LooseNext(n, w0, w, ns, chapterIsValid);
    }
    var waiting, all := UnmarkAll(ns), UnmarkAll(held);
    UnmarkSnoc(ns, n);
    UnmarkSnoc(held, n);
    if Scanned(held).stands {
      LooseIntact(n, w0, w, ns, held, chapterIsValid);
    } else {
      HarmGrows(Run(w0.ops), waiting, Run(w0.ops), waiting + [Unmark(n)], all, Unmark(n));
    }
  }

  lemma LooseIntact(n: Node, w0: Walk, w: Walk, ns: seq<Node>, held: seq<Node>, chapterIsValid: bool)
    requires Idle(Run(w0.ops)) && Intact(w0, w, ns, held) && Loose(n) && !IsBlock(n)
    ensures Intact(w0, LooseWalked(n, w, chapterIsValid), ns + [n], held + [n])
  {
    hide Run, WalkNode, Inline, Settled;
    ScanSnoc(held, n);
    UnmarkSnoc(ns, n);
    UnmarkSnoc(held, n);
    MoreLoose(ns, n);
    InlineRef(n, w, PLAIN);
    TextLast(n, w);
    var m := Run(w0.ops);
    assert Settled(m) + UnmarkAll(ns) + [Unmark(n)] == Settled(m) + (UnmarkAll(ns) + [Unmark(n)]);
  }

  lemma TextLast(n: Node, w: Walk)
    requires Loose(n)
    ensures n.Text? ==> WalkNode(n, w, PLAIN).ops != [] && Last(WalkNode(n, w, PLAIN).ops).insert.Str?
  {
  }

  // ----- a block

  /** A run that stands before a block asked for a line break, or is none. */
  lemma StandingRun(w0: Walk, w: Walk, ns: seq<Node>, held: seq<Node>, n: Node)
    requires Idle(Run(w0.ops)) && Intact(w0, w, ns, held) && IsBlock(n) && Scanned(held).stands
    ensures Scanned(held + [n]).run == [] && Scanned(held + [n]).afterTable == (n.name == "table")
    ensures var stands := Scanned(held + [n]).stands;
      && (stands <==> RunStands(ns, Run(w0.ops).table.Some?, Some(n)))
      && (stands && ns != [] ==> w.implied && !Swaps(w0, w, ns) && n.name in {"para", "book"})
      && (!stands && n.name in {"para", "book"} ==> ns != [] && (!w.implied || Swaps(w0, w, ns)))
      && (!stands ==> ns != [])
  {
    hide Run;
    ScanSnoc(held, n);
  }

  /** The state at a new boundary, of which nothing waits. */
  lemma BlockIntact(w1: Walk, held: seq<Node>, n: Node)
    requires AtBoundary(w1) && !w1.implied && Settled(Run(w1.ops)) == UnmarkAll(held) + [Unmark(n)]
    requires Scanned(held + [n]).stands && Scanned(held + [n]).run == []
    requires Scanned(held + [n]).afterTable <==> Run(w1.ops).table.Some?
    requires Run(w1.ops).table.Some? ==> w1.curRef.None?
    ensures Reads(w1, w1, [], held + [n])
  {
    hide Run, Settled;
    UnmarkSnoc(held, n);
    NothingUnmarked();
    assert Settled(Run(w1.ops)) + [] == Settled(Run(w1.ops));
  }

  lemma BlockHarmed(w1: Walk, held: seq<Node>, n: Node)
    requires AtBoundary(w1) && Harmed(Run(w1.ops), [], UnmarkAll(held) + [Unmark(n)])
    requires !Scanned(held + [n]).stands && Scanned(held + [n]).run == []
    ensures Reads(w1, w1, [], held + [n])
  {
    hide Run;
    UnmarkSnoc(held, n);
    NothingUnmarked();
  }

  // ----- paragraphs

  /** After a swap, the first of the loose nodes stands where the table should. */
  lemma SwapHarms(m: Machine, ns: seq<Node>, m1: Machine, x: Node)
    requires Idle(m) && m.table.Some? && ns != [] && Idle(m1) && m1.table.None?
    requires Settled(m1) == Swapped(m, UnmarkAll(ns)) + [x] && !IsBlock(ns[0])
    ensures Harmed(m1, [], Settled(m) + UnmarkAll(ns) + [x])
  {
    var k, all := |m.content|, Settled(m) + UnmarkAll(ns) + [x];
    UnmarkedAt(ns, 0);
    assert m1.content[k] == Unmark(ns[0]);
    assert all[k] == Settled(m)[k] && Settled(m)[k].Elem? && Settled(m)[k].name == "table";
  }

  lemma {:induction false} ParaReads(n: Node, s: BookWalk, w0: Walk, ns: seq<Node>, held: seq<Node>)
    requires s.BookWalk? && Reads(w0, s.walk, ns, held) && TopLevel(n) && n.name in {"para", "book"}
    ensures WalkPara(n, s).BookWalk? && Reads(WalkPara(n, s).walk, WalkPara(n, s).walk, [], held + [n])
  {
    hide Run, WalkPara, Settled, Pending, TopLevel, Swaps, Harmed;
    IsParaBlock(n);
    var block := ParaMeetsLoose(n, s, w0, ns);
    var w1, m, all := WalkPara(n, s).walk, Run(w0.ops), UnmarkAll(held);
    var m1 := Run(w1.ops);
    if Swaps(w0, s.walk, ns) { SwapsTable(w0, s.walk, ns); }
    ScanSnoc(held, n);
    WaitsIdle(w0, s.walk, ns);
    if !Scanned(held).stands {
      ParaGrows(m, UnmarkAll(ns), m1, block, Unmark(n));
      HarmGrows(m, UnmarkAll(ns), m1, [], all, Unmark(n));
      BlockHarmed(w1, held, n);
    } else {
      StandingRun(w0, s.walk, ns, held, n);
      if Scanned(held + [n]).stands {
        BlockIntact(w1, held, n);
      } else {
        if s.walk.implied {
          RunIsLoose(held);
          SwapHarms(m, ns, m1, Unmark(n));
        } else {
          FewerHarms(m, UnmarkAll(ns), m1, [], all, Unmark(n));
        }
        BlockHarmed(w1, held, n);
      }
    }
  }

  lemma IsParaBlock(n: Node)
    requires TopLevel(n) && n.name in {"para", "book"}
    ensures IsBlock(n)
  {
  }

  lemma SwapsTable(w0: Walk, w: Walk, ns: seq<Node>)
    requires Swaps(w0, w, ns)
    ensures ns != [] && Run(w0.ops).Machine? && Run(w0.ops).table.Some?
  {
  }

  lemma WaitsIdle(w0: Walk, w: Walk, ns: seq<Node>)
    requires Waits(w0, w, ns)
    ensures Idle(Run(w0.ops))
  {
    hide Run;
  }

  lemma ParaGrows(m: Machine, ns: seq<Node>, m1: Machine, block: Node, x: Node)
    requires Idle(m) && Idle(m1) && m1.table.None?
    requires Settled(m1) == Settled(m) + [block] || Settled(m1) == Settled(m) + ns + [x]
             || (m.table.Some? && Settled(m1) == Swapped(m, ns) + [x])
    ensures m.content <= m1.content && Settled(m1) != [] && |Settled(m1)| <= |Settled(m)| + |ns| + 1
  {
    SettledContent(m);
  }

  /** Loose nodes that are no nodes of their own any more. */
  lemma FewerHarms(m: Machine, ns: seq<Node>, m1: Machine, ns1: seq<Node>, all: seq<Node>, x: Node)
    requires Idle(m) && Idle(m1) && all == Settled(m) + ns && Settled(m1) != [] && |Settled(m1)| + |ns1| < |all| + 1
    ensures Harmed(m1, ns1, all + [x])
  {
  }

  lemma {:induction false} ParaUnderway(n: Node, s: BookWalk, held: seq<Node>)
    requires s.BookWalk? && Underway(s.walk, held) && TopLevel(n) && n.name in {"para", "book"}
    ensures WalkPara(n, s).BookWalk? && Underway(WalkPara(n, s).walk, held + [n])
  {
    hide Run, Doomed, Reads, WalkPara, Inserts;
    ScanSnoc(held, n);
    IsParaBlock(n);
    ParaKeyed(n, s);
    if Doomed(s.walk.ops) && !Scanned(held).stands {
      var ended := ParaInserts(n, s);
      DoomedInserts(s.walk.ops, ended);
      DoomedAppended(ended, Op(Str("\n"), ParaFmt(n)));
    } else {
      var w0, ns :| Reads(w0, s.walk, ns, held);
      ParaReads(n, s, w0, ns, held);
    }
  }

  lemma ParaKeyed(n: Node, s: BookWalk)
    requires s.BookWalk? && TopLevel(n) && n.name in {"para", "book"}
    ensures WalkPara(n, s).BookWalk?
  {
    hide WalkParaBody, ImpliedEnded;
  }

  // ----- tables

  lemma {:induction false} TableUnderway(n: Node, w: Walk, held: seq<Node>)
    requires Underway(w, held) && TopLevel(n) && n.name == "table"
    ensures Underway(WalkTable(n, w), held + [n])
  {
    hide Run, Doomed, Reads, WalkTable, WalkRows;
    ScanSnoc(held, n);
    IsTableBlock(n);
    if Doomed(w.ops) && !Scanned(held).stands {
      NodeInserts(n, w, PLAIN);
      assert WalkNode(n, w, PLAIN) == WalkTable(n, w);
      DoomedInserts(w.ops, WalkTable(n, w).ops);
    } else {
      var w0, ns :| Reads(w0, w, ns, held);
      TableReads(n, w, w0, ns, held);
    }
  }

  lemma IsTableBlock(n: Node)
    requires TopLevel(n) && n.name in {"table", "chapter"}
    ensures IsBlock(n) && n.Elem?
  {
  }

  lemma {:induction false} TableReads(n: Node, w: Walk, w0: Walk, ns: seq<Node>, held: seq<Node>)
    requires Reads(w0, w, ns, held) && TopLevel(n) && n.name == "table"
    ensures var w1 := WalkTable(n, w); Reads(w1, w1, [], held + [n]) || (Doomed(w1.ops) && !Scanned(held + [n]).stands)
  {
    hide Run, WalkTable, Settled, Pending, TopLevel, Harmed, Doomed, Swaps;
    IsTableBlock(n);
    ScanSnoc(held, n);
    WaitsIdle(w0, w, ns);
    var m, all, w1 := Run(w0.ops), UnmarkAll(held), WalkTable(n, w);
    if Scanned(held).stands { StandingRun(w0, w, ns, held, n); }
    if ns == [] {
      TableRoundTrip(n, w);
      SettledContent(m);
      SettledContent(Run(w1.ops));
      if Scanned(held).stands {
        NothingUnmarked();
        assert Settled(m) + [] == Settled(m);
        BlockIntact(w1, held, n);
      } else {
        HarmGrows(m, UnmarkAll(ns), Run(w1.ops), [], all, Unmark(n));
        BlockHarmed(w1, held, n);
      }
    } else {
      var block := TableJoined(n, w0, w, ns);
      if !Doomed(w1.ops) {
        SettledContent(m);
        SettledContent(Run(w1.ops));
        TableGrows(m, Run(w1.ops), block);
        if Scanned(held).stands {
          FewerHarms(m, UnmarkAll(ns), Run(w1.ops), [], all, Unmark(n));
        } else {
          HarmGrows(m, UnmarkAll(ns), Run(w1.ops), [], all, Unmark(n));
        }
        BlockHarmed(w1, held, n);
      }
    }
  }

  lemma TableGrows(m: Machine, m1: Machine, block: Node)
    requires Idle(m) && Idle(m1) && Settled(m1) == Settled(m) + [block]
    ensures m.content <= m1.content
  {
    SettledContent(m);
    SettledContent(m1);
  }

  // ----- the first chapter

  lemma {:induction false} ChapterUnderway(n: Node, w: Walk, held: seq<Node>)
    requires Underway(w, held) && TopLevel(n) && n.name == "chapter"
    requires forall i :: 0 <= i < |held| ==> !IsElement(held[i], "chapter")
    ensures Underway(ChapterWalked(n, w), held + [n])
  {
    hide Run, Doomed, Reads, Appended;
    ScanSnoc(held, n);
    IsTableBlock(n);
    if Doomed(w.ops) && !Scanned(held).stands {
      InsertsOne(w.ops, ChapterOp(n));
      DoomedInserts(w.ops, ChapterWalked(n, w).ops);
    } else {
      var w0, ns :| Reads(w0, w, ns, held);
      var w2, ns1 := ChapterReads(n, w, w0, ns, held);
    }
  }

  lemma {:induction false} ChapterReads(n: Node, w: Walk, w0: Walk, ns: seq<Node>, held: seq<Node>)
      returns (w2: Walk, ns1: seq<Node>)
    requires Reads(w0, w, ns, held) && TopLevel(n) && n.name == "chapter"
    requires forall i :: 0 <= i < |held| ==> !IsElement(held[i], "chapter")
    ensures Reads(w2, ChapterWalked(n, w), ns1, held + [n])
  {
    hide Run, Settled, Pending, TopLevel, Harmed, Swaps, Appended;
    IsTableBlock(n);
    ScanSnoc(held, n);
    WaitsIdle(w0, w, ns);
    var m, all, w1 := Run(w0.ops), UnmarkAll(held), ChapterWalked(n, w);
    if Scanned(held).stands { StandingRun(w0, w, ns, held, n); }
    if ns == [] {
      ChapterRoundTrip(w, n);
      w2, ns1 := w1, [];
      if Scanned(held).stands {
        NothingUnmarked();
        assert Settled(m) + [] == Settled(m);
        BlockIntact(w1, held, n);
      } else {
        TableGrows(m, Run(w1.ops), Unmark(n));
        HarmGrows(m, UnmarkAll(ns), Run(w1.ops), [], all, Unmark(n));
        BlockHarmed(w1, held, n);
      }
    } else {
      w2 := ChapterMeetsLoose(n, w0, w, ns);
      ns1 := if m.table.Some? then [] else ns;
      var m1 := Run(w2.ops);
      WaitsIdle(w2, w1, ns1);
      TableGrows(m, m1, Unmark(n));
      if !Scanned(held).stands {
        HarmGrows(m, UnmarkAll(ns), m1, UnmarkAll(ns1), all, Unmark(n));
      } else if m.table.Some? {
        FewerHarms(m, UnmarkAll(ns), m1, UnmarkAll(ns1), all, Unmark(n));
      } else {
        RunIsLoose(held);
        PassedHarms(m, ns, m1, n);
      }
      UnmarkSnoc(held, n);
    }
  }

  /** A chapter that has been put before loose nodes stands where the first of these should. */
  lemma PassedHarms(m: Machine, ns: seq<Node>, m1: Machine, n: Node)
    requires Idle(m) && Idle(m1) && m1.table.None? && ns != [] && !IsBlock(ns[0]) && IsElement(n, "chapter")
    requires Settled(m1) == Settled(m) + [Unmark(n)]
    ensures Harmed(m1, UnmarkAll(ns), Settled(m) + UnmarkAll(ns) + [Unmark(n)])
  {
    var k, all := |Settled(m)|, Settled(m) + UnmarkAll(ns) + [Unmark(n)];
    UnmarkedAt(ns, 0);
    assert m1.content[k] == Unmark(n) && all[k] == Unmark(ns[0]);
  }

  // ----- the end of a section

  /**
   * A section comes back exactly if all its runs stand; otherwise reading throws or gives no more nodes than it had.
   */
  lemma {:induction false} SectionRead(w: Walk, held: seq<Node>)
    requires Underway(w, held)
    ensures var r := ProcessDelta(ImpliedEnded(w).ops);
      && (SectionStands(held) ==> r == Some(UnmarkAll(held)))
      && (!SectionStands(held) && r.Some? ==> UnmarkAll(r.value) != UnmarkAll(held))
      && (r.Some? ==> |r.value| <= |held|)
  {
    hide Run, Doomed, Reads, ProcessDelta;
    if Doomed(w.ops) && !Scanned(held).stands {
      EndInserts(w);
      DoomedInserts(w.ops, ImpliedEnded(w).ops);
      DoomedFaults(ImpliedEnded(w).ops);
      Unread(ImpliedEnded(w).ops);
    } else {
      var w0, ns :| Reads(w0, w, ns, held);
      RunRead(w, w0, ns, held);
    }
  }

  lemma Unread(ops: seq<Op>)
    requires Run(ops).Fault?
    ensures ProcessDelta(ops).None?
  {
    hide Run;
  }

  lemma {:induction false} RunRead(w: Walk, w0: Walk, ns: seq<Node>, held: seq<Node>)
    requires Reads(w0, w, ns, held)
    ensures var r := ProcessDelta(ImpliedEnded(w).ops);
      && (SectionStands(held) ==> r == Some(UnmarkAll(held)))
      && (!SectionStands(held) && r.Some? ==> UnmarkAll(r.value) != UnmarkAll(held))
      && (r.Some? ==> |r.value| <= |held|)
  {
    hide Run, Settled, Pending, ProcessDelta, ImpliedEnded;
    WaitsIdle(w0, w, ns);
    var m := Run(w0.ops);
    var r := SectionNodes(w, w0, ns);
    SettledContent(m);
    RunIsLoose(held);
    if Scanned(held).stands {
      if Swaps(w0, w, ns) { SwapDiffers(m, ns); }
      assert ns == [] ==> Settled(m) + UnmarkAll(ns) == Settled(m) by { NothingUnmarked(); }
      assert |UnmarkAll(held)| == |Settled(m)| + |ns|;
    } else {
      HarmSeen(m, UnmarkAll(ns), UnmarkAll(held), r);
    }
  }

  lemma HarmSeen(m: Machine, waiting: seq<Node>, all: seq<Node>, r: seq<Node>)
    requires Idle(m) && Harmed(m, waiting, all) && m.content <= r && |r| <= |Settled(m)| + |waiting|
    ensures UnmarkAll(r) != all && |r| <= |all|
  {
    hide Settled, Unmark;
    if |r| == |all| {
      SettledContent(m);
      var k :| 0 <= k < |m.content| && k < |all| && Unmark(m.content[k]) != all[k];
      UnmarkedAt(r, k);
    }
  }

  /** What the delta is read as. */
  lemma {:induction false} SectionNodes(w: Walk, w0: Walk, ns: seq<Node>) returns (r: seq<Node>)
    requires Waits(w0, w, ns)
    ensures ProcessDelta(ImpliedEnded(w).ops) == Some(r)
    ensures Idle(Run(w0.ops))
    ensures var m := Run(w0.ops);
      r == if !w.implied then (if m.table.Some? then Settled(m) else Settled(m) + UnmarkAll(ns))
              else if Swaps(w0, w, ns) then Swapped(m, UnmarkAll(ns))
              else Settled(m) + UnmarkAll(ns)
  {
    hide Run, Settled, Pending, ImpliedEnded, ProcessDelta, Swaps;
    WaitsIdle(w0, w, ns);
    var m := Run(w0.ops);
    NothingUnmarked();
    assert Settled(m) + [] == Settled(m);
    if ns == [] {
      if w.implied { EmptyBreak(w); } else { NotImplied(w); }
      NothingSwaps(w0, w);
      r := Settled(Run(ImpliedEnded(w).ops));
      IdleRead(ImpliedEnded(w).ops);
    } else if w.implied {
      ImpliedDone(w0, w, ns);
      r := Settled(Run(ImpliedEnded(w).ops));
      IdleRead(ImpliedEnded(w).ops);
    } else {
      PendingFinished(w0, w, ns);
      r := if m.table.Some? then Settled(m) else Settled(m) + UnmarkAll(ns);
    }
  }

  lemma NothingSwaps(w0: Walk, w: Walk)
    ensures !Swaps(w0, w, [])
  {
  }

  lemma IdleRead(ops: seq<Op>)
    requires Idle(Run(ops))
    ensures ProcessDelta(ops) == Some(Settled(Run(ops)))
  {
    hide Run, Settled;
    IdleFinished(Run(ops));
  }

  lemma SwapDiffers(m: Machine, ns: seq<Node>)
    requires Idle(m) && m.table.Some? && ns != [] && !IsBlock(ns[0])
    ensures UnmarkAll(Swapped(m, UnmarkAll(ns))) != Settled(m) + UnmarkAll(ns)
  {
    var k, swapped := |m.content|, Swapped(m, UnmarkAll(ns));
    UnmarkedAt(ns, 0);
    UnmarkedAt(swapped, k);
    assert swapped[k] == Unmark(ns[0]);
    assert (Settled(m) + UnmarkAll(ns))[k] == Settled(m)[k];
  }

  // ----- any node of the section

  lemma {:induction false} ChildUnderway(child: Child, s: BookWalk, held: seq<Node>)
    requires s.BookWalk? && Underway(s.walk, held) && Known(child.node, held)
    requires IsElement(child.node, "chapter") ==> s.walk.curChapter.None?
    requires IsElement(child.node, "chapter") ==> forall i :: 0 <= i < |held| ==> !IsElement(held[i], "chapter")
    ensures WalkChild(child, s).BookWalk? && Underway(WalkChild(child, s).walk, held + [child.node])
  {
    hide Underway, WalkPara, WalkNode, WalkTable, ChapterWalked, Inline, Scanned, TopLevel, LooseWalked;
    var n := child.node;
    BlockShape(n);
    if !IsBlock(n) {
      LooseChild(child, s);
      LooseUnderway(n, s.walk, held, WalkChild(child, s).walk.chapterIsValid);
    } else if n.name == "table" {
      TableChild(child, s);
      TableUnderway(n, s.walk, held);
      UnderwayRevalidated(WalkTable(n, s.walk), held + [n], WalkChild(child, s).walk.chapterIsValid);
    } else if n.name == "chapter" {
      ChapterChild(child, s);
      ChapterUnderway(n, s.walk, held);
      UnderwayRevalidated(ChapterWalked(n, s.walk), held + [n], WalkChild(child, s).walk.chapterIsValid);
    } else {
      var s0 := if n.name == "book" then s.(bookIsValid := child.isValid) else s;
      ParaUnderway(n, s0, held);
      UnderwayRevalidated(WalkPara(n, s0).walk, held + [n], WalkChild(child, s).walk.chapterIsValid);
    }
  }

  lemma BlockShape(n: Node)
    ensures IsBlock(n) ==> n.Elem?
  {
  }

  lemma UnderwayRevalidated(w: Walk, held: seq<Node>, chapterIsValid: bool)
    requires Underway(w, held)
    ensures Underway(w.(chapterIsValid := chapterIsValid), held)
  {
    hide Run, Doomed, Reads;
    if !(Doomed(w.ops) && !Scanned(held).stands) {
      var w0, ns :| Reads(w0, w, ns, held);
      ReadsRevalidated(w0, w, ns, held, chapterIsValid);
    }
  }

  lemma ReadsRevalidated(w0: Walk, w: Walk, ns: seq<Node>, held: seq<Node>, chapterIsValid: bool)
    requires Reads(w0, w, ns, held)
    ensures var w1 := w.(chapterIsValid := chapterIsValid); Reads(if ns == [] then w1 else w0, w1, ns, held)
  {
    hide Run, Settled, Harmed, Aligned, UnmarkAll, EndsWith, HasImplied, HasVerse, Numbered;
    var w1 := w.(chapterIsValid := chapterIsValid);
    if ns != [] { LastOpKept(w, w1, ns[|ns| - 1]); }
  }

  lemma LooseChild(child: Child, s: BookWalk)
    requires s.BookWalk? && !IsBlock(child.node) && Loose(child.node)
    ensures var s1 := WalkChild(child, s);
      && s1.BookWalk? && s1 == s.(walk := LooseWalked(child.node, s.walk, s1.walk.chapterIsValid))
  {
    hide WalkNode;
    InlineKeeps(child.node, s.walk, PLAIN);
  }

  lemma TableChild(child: Child, s: BookWalk)
    requires s.BookWalk? && IsElement(child.node, "table")
    ensures var s1 := WalkChild(child, s);
      && s1.BookWalk? && s1 == s.(walk := WalkTable(child.node, s.walk).(chapterIsValid := s1.walk.chapterIsValid))
  {
    hide WalkTable;
    assert WalkNode(child.node, s.walk, PLAIN) == WalkTable(child.node, s.walk);
  }

  lemma ChapterChild(child: Child, s: BookWalk)
    requires s.BookWalk? && IsElement(child.node, "chapter") && s.walk.curChapter.None?
    ensures var s1 := WalkChild(child, s);
      && s1.BookWalk? && s1 == s.(walk := ChapterWalked(child.node, s.walk).(chapterIsValid := s1.walk.chapterIsValid))
  {
  }

  /** Between two sections. */
  lemma NothingHeld(w: Walk)
    requires w.ops == [] && !w.implied
    ensures Underway(w, [])
  {
    NothingUnmarked();
    assert Reads(w, w, [], []);
  }

  lemma UnderwayOps(w: Walk, held: seq<Node>)
    requires Underway(w, held) && w.ops == []
    ensures held == []
  {
    if !Doomed(w.ops) {
      var w0, ns :| Reads(w0, w, ns, held);
      assert ns == [] && Settled(Run([])) == [];
      if Scanned(held).stands { NothingUnmarked(); }
    }
  }
}
