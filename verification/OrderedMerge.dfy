/** Splicing deltas into a book is an ordered merge of the book's chapters with the deltas. */
module OrderedMerge {
  import opened Wrappers
  import opened UsxNodes
  import opened ChapterWalk
  import opened Splicing
  import DeltaReading

  /** A chapter with everything up to the next one; the first section also holds the introduction. */
  datatype Section = Section(number: Option<int>, nodes: seq<Node>)

  /** Divides the rest of a book, given what the current section holds already. A book without chapters is chapter 1. */
  function SectionsFrom(held: seq<Node>, number: Option<int>, found: bool, nodes: seq<Node>): (ss: seq<Section>)
    ensures ss != []
    decreases nodes
  {
    if nodes == [] then [Section(number, held)]
    else if !IsElement(nodes[0], "chapter") then SectionsFrom(held + [nodes[0]], number, found, nodes[1..])
    else if !found then SectionsFrom(held + [nodes[0]], ChapterNumber(nodes[0]), true, nodes[1..])
    else [Section(number, held)] + SectionsFrom([nodes[0]], ChapterNumber(nodes[0]), true, nodes[1..])
  }

  function Sections(nodes: seq<Node>): (ss: seq<Section>)
    ensures ss != []
  {
    SectionsFrom([], Some(1), false, nodes)
  }

  function Flat(ss: seq<Section>): seq<Node> {
    if ss == [] then [] else ss[0].nodes + Flat(ss[1..])
  }

  // ----- the merge

  /** What a readable delta contributes. */
  function Added(d: ChapterDelta): seq<Node> {
    var c := Contribution(d);
    if c.Success? then c.value else []
  }

  function AllAdded(ds: seq<ChapterDelta>): seq<Node> {
    if ds == [] then [] else Added(ds[0]) + AllAdded(ds[1..])
  }

  function Books(ns: seq<Node>): seq<Node> {
    if ns == [] then [] else (if IsElement(ns[0], "book") then [ns[0]] else []) + Books(ns[1..])
  }

  /** A section and the delta with its number. */
  function Replaced(s: Section, d: ChapterDelta): seq<Node> {
    if !d.isValid then s.nodes
    else (if HasBookOp(d.ops) then [] else Books(s.nodes)) + Added(d)
  }

  /** Sections without a number stay where they are. */
  function Merge(ss: seq<Section>, ds: seq<ChapterDelta>): seq<Node>
    decreases |ss| + |ds|
  {
    if ss == [] then AllAdded(ds)
    else if ds == [] then Flat(ss)
    else if ss[0].number.None? then ss[0].nodes + Merge(ss[1..], ds)
    else if ss[0].number.value == ds[0].number then Replaced(ss[0], ds[0]) + Merge(ss[1..], ds[1..])
    else if ss[0].number.value < ds[0].number then ss[0].nodes + Merge(ss[1..], ds)
    else Added(ds[0]) + Merge(ss, ds[1..])
  }

  // ----- when the merge applies

  /** The numbers of the sections increase, from above `low`. */
  predicate Rising(ss: seq<Section>, low: int) {
    ss == [] ||
    (if ss[0].number.None? then Rising(ss[1..], low)
     else low < ss[0].number.value && Rising(ss[1..], ss[0].number.value))
  }

  predicate Increasing(ds: seq<ChapterDelta>) {
    forall i, j :: 0 <= i < j < |ds| ==> ds[i].number < ds[j].number
  }

  predicate Readable(ds: seq<ChapterDelta>) {
    forall i :: 0 <= i < |ds| ==> Contribution(ds[i]).Success?
  }

  predicate HasNumber(ss: seq<Section>, n: int) {
    exists i :: 0 <= i < |ss| && ss[i].number == Some(n)
  }

  predicate AllBelow(ss: seq<Section>, n: int) {
    forall i :: 0 <= i < |ss| && ss[i].number.Some? ==> ss[i].number.value < n
  }

  /** The last delta belongs to a chapter of the book or comes after all of them. */
  predicate Covered(ss: seq<Section>, ds: seq<ChapterDelta>) {
    ds == [] || HasNumber(ss, ds[|ds| - 1].number) || AllBelow(ss, ds[|ds| - 1].number)
  }

  function MergeOrFault(ss: seq<Section>, ds: seq<ChapterDelta>): Spliced {
    if Covered(ss, ds) then Success(Merge(ss, ds)) else Failure(Corrupt)
  }

  /** What remains of the nodes already visited in the current section. */
  function Kept(held: seq<Node>, d: ChapterDelta, cur: int): seq<Node> {
    if held == [] then [] else (if Removed(held[0], d, cur) then [] else [held[0]]) + Kept(held[1..], d, cur)
  }

  lemma {:induction false} KeptSnoc(held: seq<Node>, n: Node, d: ChapterDelta, cur: int)
    ensures Kept(held + [n], d, cur) == Kept(held, d, cur) + (if Removed(n, d, cur) then [] else [n])
  {
    if held == [] {
      assert [n][1..] == [];
    } else {
      assert (held + [n])[1..] == held[1..] + [n];
      KeptSnoc(held[1..], n, d, cur);
    }
  }

  /** Whether it is replaced or not, a finished section contributes what the merge says. */
  lemma {:induction false} KeptIsReplaced(held: seq<Node>, d: ChapterDelta, cur: int)
    ensures Kept(held, d, cur) == if d.number != cur || !d.isValid then held
                                  else if HasBookOp(d.ops) then [] else Books(held)
  {
    if held != [] {
      KeptIsReplaced(held[1..], d, cur);
    }
  }

  lemma {:induction false} FlatSections(held: seq<Node>, number: Option<int>, found: bool, nodes: seq<Node>)
    ensures Flat(SectionsFrom(held, number, found, nodes)) == held + nodes
    decreases nodes
  {
    var ss := SectionsFrom(held, number, found, nodes);
    if nodes == [] {
      assert Flat(ss) == held + Flat([]);
    } else if IsElement(nodes[0], "chapter") && found {
      var ss2 := SectionsFrom([nodes[0]], ChapterNumber(nodes[0]), true, nodes[1..]);
      FlatSections([nodes[0]], ChapterNumber(nodes[0]), true, nodes[1..]);
      assert ss[1..] == ss2;
    } else {
      var number1 := if IsElement(nodes[0], "chapter") then ChapterNumber(nodes[0]) else number;
      FlatSections(held + [nodes[0]], number1, found || IsElement(nodes[0], "chapter"), nodes[1..]);
      assert held + [nodes[0]] + nodes[1..] == held + nodes;
    }
  }

  lemma {:induction false} ContributionsOf(ds: seq<ChapterDelta>)
    requires Readable(ds)
    ensures Contributions(ds) == Success(AllAdded(ds))
  {
    if ds != [] {
      ContributionsOf(ds[1..]);
    }
  }

  lemma LastOfSuffix(ds: seq<ChapterDelta>, i: nat)
    requires i < |ds|
    ensures ds[i..][|ds[i..]| - 1] == ds[|ds| - 1]
  {
  }

  /** Deltas before the next section are placed before it. */
  lemma {:induction false} SkippedMerge(ss: seq<Section>, ds: seq<ChapterDelta>, i: nat)
    requires i <= |ds| && ss != [] && ss[0].number.Some? && Rising(ss[1..], ss[0].number.value) && Increasing(ds)
    requires i < |ds|
    ensures var k := Skipped(ds, i, ss[0].number.value);
            MergeOrFault(ss, ds[i..])
            == (if k < |ds| then Prepend(AllAdded(ds[i..k]), MergeOrFault(ss, ds[k..])) else Failure(Corrupt))
    decreases |ds| - i
  {
    hide Contribution;
    var c := ss[0].number.value;
    var k := Skipped(ds, i, c);
    if ds[i].number < c {
      NumbersAbove(ss[1..], c);
      CoveredCons(ss[0], ss[1..], ds[i].number);
      assert [ss[0]] + ss[1..] == ss;
      if i + 1 < |ds| {
        SkippedMerge(ss, ds, i + 1);
        assert ds[i..][1..] == ds[i + 1..];
        assert ds[i..k][0] == ds[i] && ds[i..k][1..] == ds[i + 1..k];
        assert Merge(ss, ds[i..]) == Added(ds[i]) + Merge(ss, ds[i + 1..]);
        LastOfSuffix(ds, i);
        LastOfSuffix(ds, i + 1);
        if k < |ds| {
          assert AllAdded(ds[i..k]) == Added(ds[i]) + AllAdded(ds[i + 1..k]);
          PrependTwice(Added(ds[i]), AllAdded(ds[i + 1..k]), MergeOrFault(ss, ds[k..]));
        }
      }
    } else {
      assert ds[i..k] == [] && [] + Merge(ss, ds[i..]) == Merge(ss, ds[i..]);
    }
  }

  lemma {:induction false} NumbersAbove(ss: seq<Section>, low: int)
    requires Rising(ss, low)
    ensures forall i :: 0 <= i < |ss| && ss[i].number.Some? ==> low < ss[i].number.value
  {
    if ss != [] {
      NumbersAbove(ss[1..], if ss[0].number.None? then low else ss[0].number.value);
      assert forall i :: 0 < i < |ss| ==> ss[i] == ss[1..][i - 1];
    }
  }

  /** A section that is finished before the next delta's chapter. */
  lemma LeftMerge(s: Section, ss: seq<Section>, ds: seq<ChapterDelta>, cur: int)
    requires ds != [] && Increasing(ds) && Rising(ss, cur) && (s.number == Some(cur) || s.number == None)
    requires if s.number.Some? then cur <= ds[0].number else cur < ds[0].number
    ensures MergeOrFault([s] + ss, ds)
         == Prepend(Kept(s.nodes, ds[0], cur) + (if ds[0].number == cur then Added(ds[0]) else []),
                    MergeOrFault(ss, if ds[0].number == cur then ds[1..] else ds))
  {
    var last := ds[|ds| - 1].number;
    KeptIsReplaced(s.nodes, ds[0], cur);
    NumbersAbove(ss, cur);
    CoveredCons(s, ss, last);
    assert cur <= last && ([s] + ss)[1..] == ss;
    var added := if ds[0].number == cur then Added(ds[0]) else [];
    assert Kept(s.nodes, ds[0], cur) + added == if ds[0].number == cur then Replaced(s, ds[0]) else s.nodes;
    if ds[0].number == cur {
      assert |ds| > 1 ==> cur < last && ds[1..][|ds| - 2] == ds[|ds| - 1];
      assert ds[0].isValid || Added(ds[0]) == [];
    }
  }

  lemma CoveredCons(s: Section, ss: seq<Section>, n: int)
    ensures HasNumber([s] + ss, n) <==> s.number == Some(n) || HasNumber(ss, n)
    ensures AllBelow([s] + ss, n) <==> (s.number.Some? ==> s.number.value < n) && AllBelow(ss, n)
  {
    var all := [s] + ss;
    assert all[0] == s && forall i :: 0 < i < |all| ==> all[i] == ss[i - 1];
    forall i | 0 <= i < |ss|
      ensures ss[i] == all[i + 1]
    {
    }
  }

  // ----- splicing refines the merge

  /** What the loop is given when it has visited `held` of the current section. */
  predicate Ordered(ss: seq<Section>, ds: seq<ChapterDelta>, i: nat, cur: int)
    requires ss != []
  {
    i < |ds| && Increasing(ds) && Readable(ds)
    && Rising(ss[1..], cur)
    && (ss[0].number == Some(cur) || ss[0].number == None)
    && (if ss[0].number.Some? then cur <= ds[i].number else cur < ds[i].number)
  }

  lemma {:induction false} SpliceIsMerge(held: seq<Node>, number: Option<int>, found: bool, nodes: seq<Node>,
                                         ds: seq<ChapterDelta>, i: nat, cur: int)
    requires Ordered(SectionsFrom(held, number, found, nodes), ds, i, cur)
    requires !found ==> SectionsFrom(held, number, found, nodes)[0].number.Some?
    ensures Prepend(Kept(held, ds[i], cur), Splice(nodes, ds, i, cur, found))
         == MergeOrFault(SectionsFrom(held, number, found, nodes), ds[i..])
    decreases nodes, 1
  {
    var ss := SectionsFrom(held, number, found, nodes);
    if nodes == [] {
      ContributionsOf(ds[i..]);
      LastSection(ss[0], ds[i..], cur);
    } else if IsElement(nodes[0], "chapter") && found {
      NextSection(held, number, nodes, ds, i, cur);
    } else {
      var number1 := if IsElement(nodes[0], "chapter") then ChapterNumber(nodes[0]) else number;
      var found1 := found || IsElement(nodes[0], "chapter");
      FirstNumber(held + [nodes[0]], number1, found1, nodes[1..]);
      SpliceIsMerge(held + [nodes[0]], number1, found1, nodes[1..], ds, i, cur);
      KeptSnoc(held, nodes[0], ds[i], cur);
      var now := if Removed(nodes[0], ds[i], cur) then [] else [nodes[0]];
      PrependTwice(Kept(held, ds[i], cur), now, Splice(nodes[1..], ds, i, cur, found1));
      PrependNothing(Splice(nodes[1..], ds, i, cur, found1));
    }
  }

  /** Once the first chapter is found, the number of the section is settled. */
  lemma {:induction false} FirstNumber(held: seq<Node>, number: Option<int>, found: bool, nodes: seq<Node>)
    ensures found ==> SectionsFrom(held, number, found, nodes)[0].number == number
    decreases nodes
  {
    if found && nodes != [] && !IsElement(nodes[0], "chapter") {
      FirstNumber(held + [nodes[0]], number, found, nodes[1..]);
    }
  }

  lemma LastSection(s: Section, ds: seq<ChapterDelta>, cur: int)
    requires ds != [] && Increasing(ds) && (s.number == Some(cur) || s.number == None)
    requires if s.number.Some? then cur <= ds[0].number else cur < ds[0].number
    ensures MergeOrFault([s], ds) == Success(Kept(s.nodes, ds[0], cur) + AllAdded(ds))
  {
    LeftMerge(s, [], ds, cur);
    assert [s] + [] == [s];
    var kept := Kept(s.nodes, ds[0], cur);
    if ds[0].number == cur {
      NothingLeft(ds[1..]);
      PrependTwice(kept, Added(ds[0]), Success(AllAdded(ds[1..])));
    } else {
      NothingLeft(ds);
      assert kept + [] == kept;
    }
  }

  lemma NothingLeft(ds: seq<ChapterDelta>)
    ensures MergeOrFault([], ds) == Success(AllAdded(ds))
  {
    assert ds != [] ==> AllBelow([], ds[|ds| - 1].number);
  }

  /** The chapter node after a section: the section is left, earlier deltas are placed, the visit goes on. */
  lemma {:induction false} NextSection(held: seq<Node>, number: Option<int>, nodes: seq<Node>, ds: seq<ChapterDelta>,
                                       i: nat, cur: int)
    requires nodes != [] && IsElement(nodes[0], "chapter")
    requires Ordered(SectionsFrom(held, number, true, nodes), ds, i, cur)
    ensures Prepend(Kept(held, ds[i], cur), Splice(nodes, ds, i, cur, true))
         == MergeOrFault(SectionsFrom(held, number, true, nodes), ds[i..])
    decreases nodes, 0
  {
    hide MergeOrFault, Kept, Contribution, Contributions, Skipped;
    var number2 := ChapterNumber(nodes[0]);
    var ss2 := SectionsFrom([nodes[0]], number2, true, nodes[1..]);
    FirstNumber([nodes[0]], number2, true, nodes[1..]);
    var i1 := Left(ds, i, cur);
    var kept := Kept(held, ds[i], cur);
    var before := LeftSection(Section(number, held), ss2, ds, i, cur);
    FlatSections([nodes[0]], number2, true, nodes[1..]);
    assert [nodes[0]] + nodes[1..] == nodes;
    if i1 < |ds| {
      var cur1 := if number2.None? then cur else number2.value;
      var k := Skipped(ds, i1, cur1);
      PlacedBefore(ss2, ds, i1, cur1);
      if k < |ds| {
        SpliceIsMerge([nodes[0]], number2, true, nodes[1..], ds, k, cur1);
        SpliceNodeKept(nodes, ds, k, cur1);
        var r := MergeOrFault(ss2, ds[k..]);
        assert Splice(nodes, ds, i, cur, true) == Prepend(before + AllAdded(ds[i1..k]), r) by {
          assert ChapterMet(nodes[0], ds, i, cur) == GoOn(before + AllAdded(ds[i1..k]), k, cur1);
        }
        PrependThrice(kept, before, AllAdded(ds[i1..k]), r);
      } else {
        assert ChapterMet(nodes[0], ds, i, cur) == Failed;
      }
    } else {
      assert ChapterMet(nodes[0], ds, i, cur) == AllPlaced(before);
      PrependTwice(kept, before, Success(nodes));
    }
  }

  lemma PrependThrice(a: seq<Node>, b: seq<Node>, c: seq<Node>, r: Spliced)
    ensures Prepend(a, Prepend(b + c, r)) == Prepend(a + b, Prepend(c, r))
  {
    if r.Success? {
      assert a + ((b + c) + r.value) == (a + b) + (c + r.value);
    }
  }

  lemma LeftSection(s: Section, ss: seq<Section>, ds: seq<ChapterDelta>, i: nat, cur: int) returns (before: seq<Node>)
    requires i < |ds| && Increasing(ds) && Readable(ds) && Rising(ss, cur)
      && (s.number == Some(cur) || s.number == None)
    requires if s.number.Some? then cur <= ds[i].number else cur < ds[i].number
    ensures Leaving(ds, i, cur) == Success(before)
    ensures var i1 := Left(ds, i, cur);
            (i1 < |ds| ==> cur < ds[i1].number)
            && MergeOrFault([s] + ss, ds[i..])
               == Prepend(Kept(s.nodes, ds[i], cur) + before,
                          if i1 < |ds| then MergeOrFault(ss, ds[i1..]) else Success(Flat(ss)))
  {
    before := if ds[i].number == cur then Added(ds[i]) else [];
    LeftMerge(s, ss, ds[i..], cur);
    assert ds[i..][1..] == ds[i + 1..];
    assert MergeOrFault(ss, []) == Success(Flat(ss));
  }

  lemma SpliceNodeKept(nodes: seq<Node>, ds: seq<ChapterDelta>, i: nat, cur: int)
    requires i < |ds| && nodes != []
    ensures SpliceNode(nodes, ds, i, cur, true)
         == Prepend(Kept([nodes[0]], ds[i], cur), Splice(nodes[1..], ds, i, cur, true))
  {
    assert Kept([nodes[0]], ds[i], cur) == (if Removed(nodes[0], ds[i], cur) then [] else [nodes[0]]);
    PrependNothing(Splice(nodes[1..], ds, i, cur, true));
  }

  lemma PlacedBefore(ss: seq<Section>, ds: seq<ChapterDelta>, i: nat, cur: int)
    requires ss != [] && i < |ds| && Increasing(ds) && Readable(ds)
    requires if ss[0].number.Some? then ss[0].number.value == cur && Rising(ss[1..], cur) else cur < ds[i].number
    ensures var k := Skipped(ds, i, cur);
            MergeOrFault(ss, ds[i..])
            == (if k < |ds| then Prepend(AllAdded(ds[i..k]), MergeOrFault(ss, ds[k..])) else Failure(Corrupt))
            && Contributions(ds[i..k]) == Success(AllAdded(ds[i..k]))
            && (k < |ds| ==> cur <= ds[k].number && (ss[0].number.None? ==> cur < ds[k].number))
  {
    var k := Skipped(ds, i, cur);
    ContributionsOf(ds[i..k]);
    SkippedStops(ds, i, cur);
    if ss[0].number.Some? {
      SkippedMerge(ss, ds, i);
    } else {
      assert ds[i..k] == [];
      PrependNothing(MergeOrFault(ss, ds[i..]));
    }
  }

  lemma {:induction false} SkippedStops(ds: seq<ChapterDelta>, i: nat, cur: int)
    requires i <= |ds|
    ensures var k := Skipped(ds, i, cur); k < |ds| ==> cur <= ds[k].number
    decreases |ds| - i
  {
    if i < |ds| && ds[i].number < cur {
      SkippedStops(ds, i + 1, cur);
    }
  }

  // ----- deltas that cannot be read

  lemma {:induction false} ContributionsReadable(ds: seq<ChapterDelta>)
    ensures Contributions(ds).Success? <==> Readable(ds)
    ensures Contributions(ds).Failure? ==> Contributions(ds) == Failure(Corrupt)
  {
    hide DeltaReading.ProcessDelta;
    if ds != [] {
      ContributionsReadable(ds[1..]);
      assert forall i :: 0 < i < |ds| ==> ds[i] == ds[1..][i - 1];
    }
  }

  /** Before a splice succeeds it has read every valid delta that was left. */
  lemma {:induction false} SuccessReadsAll(nodes: seq<Node>, ds: seq<ChapterDelta>, i: nat, cur: int, found: bool)
    requires i < |ds|
    ensures Splice(nodes, ds, i, cur, found).Success? ==> Readable(ds[i..])
    decreases |nodes|
  {
    hide Contribution, Readable, Removed, ChapterMet;
    if nodes == [] {
      ContributionsReadable(ds[i..]);
    } else if !IsElement(nodes[0], "chapter") || !found {
      var found1 := found || IsElement(nodes[0], "chapter");
      SuccessReadsAll(nodes[1..], ds, i, cur, found1);
      var rest := Splice(nodes[1..], ds, i, cur, found1);
      assert SpliceNode(nodes, ds, i, cur, found1).Success? ==> rest.Success?;
    } else {
      var met := ChapterMet(nodes[0], ds, i, cur);
      MetReads(nodes[0], ds, i, cur);
      if met.GoOn? {
        SuccessReadsAll(nodes[1..], ds, met.i, met.cur, true);
        var rest := Splice(nodes[1..], ds, met.i, met.cur, true);
        assert SpliceNode(nodes, ds, met.i, met.cur, true).Success? ==> rest.Success?;
        if Readable(ds[met.i..]) { ReadablePrefix(ds, i, met.i); }
      }
    }
  }

  lemma MetReads(n: Node, ds: seq<ChapterDelta>, i: nat, cur: int)
    requires i < |ds| && n.Elem?
    ensures match ChapterMet(n, ds, i, cur)
      case Failed => true
      case AllPlaced(_) => Readable(ds[i..])
      case GoOn(_, k, _) => i <= k && Readable(ds[i..k])
  {
    hide Contribution, Contributions, Skipped;
    var i1 := Left(ds, i, cur);
    var cur1 := if ChapterNumber(n).None? then cur else ChapterNumber(n).value;
    if i1 < |ds| {
      var k := Skipped(ds, i1, cur1);
      ContributionsReadable(ds[i1..k]);
      if Leaving(ds, i, cur).Success? && Readable(ds[i1..k]) { OneMoreReadable(ds, i, i1, k); }
    }
  }

  lemma OneMoreReadable(ds: seq<ChapterDelta>, i: nat, i1: nat, k: nat)
    requires i <= i1 <= i + 1 && i1 <= k <= |ds| && Readable(ds[i1..k])
    requires i < i1 ==> Contribution(ds[i]).Success?
    ensures Readable(ds[i..k])
  {
    hide Contribution;
    assert ds[i..k] == ds[i..i1] + ds[i1..k];
  }

  lemma ReadablePrefix(ds: seq<ChapterDelta>, i: nat, k: nat)
    requires i <= k <= |ds| && Readable(ds[i..k]) && Readable(ds[k..])
    ensures Readable(ds[i..])
  {
    hide Contribution;
    assert ds[i..] == ds[i..k] + ds[k..];
  }

  /** Once the first chapter has a number, every failure is one of the deltas. */
  lemma {:induction false} FailureIsCorrupt(held: seq<Node>, number: Option<int>, found: bool, nodes: seq<Node>,
                                            ds: seq<ChapterDelta>, i: nat, cur: int)
    requires i < |ds|
    requires !found ==> SectionsFrom(held, number, found, nodes)[0].number.Some?
    ensures Splice(nodes, ds, i, cur, found).Failure? ==> Splice(nodes, ds, i, cur, found) == Failure(Corrupt)
    decreases |nodes|
  {
    hide Contribution, Contributions, Removed, ChapterMet;
    if nodes == [] {
      ContributionsReadable(ds[i..]);
    } else {
      var n := nodes[0];
      var number1 := if IsElement(n, "chapter") then ChapterNumber(n) else number;
      if !IsElement(n, "chapter") || !found {
        FirstNumber(held + [n], number1, found || IsElement(n, "chapter"), nodes[1..]);
        FailureIsCorrupt(held + [n], number1, found || IsElement(n, "chapter"), nodes[1..], ds, i, cur);
      } else {
        var met := ChapterMet(n, ds, i, cur);
        if met.GoOn? { FailureIsCorrupt([n], number1, true, nodes[1..], ds, met.i, met.cur); }
      }
    }
  }

  /** A single delta without ops leaves any book as it is, with chapters or without. */
  lemma EmptyDeltaKeepsBook(nodes: seq<Node>, d: ChapterDelta)
    requires d.ops == []
    ensures ToUsx(nodes, [d]) == Success(nodes)
  {
  }

  lemma NoDeltasFail(nodes: seq<Node>)
    ensures ToUsx(nodes, []) == Failure(NoDeltas)
  {
  }

  /**
   * A single delta without ops leaves the book as it is. Otherwise splicing is the ordered merge. It succeeds exactly
   * when every valid delta can be read and the last delta belongs to a chapter of the book or comes after all of them.
   */
  lemma {:induction false} SplicingMerges(nodes: seq<Node>, ds: seq<ChapterDelta>)
    requires ds != [] && Increasing(ds)
    requires var ss := Sections(nodes); ss[0].number == Some(ds[0].number) && Rising(ss[1..], ds[0].number)
    ensures ToUsx(nodes, ds)
      == if |ds| == 1 && ds[0].ops == [] then Success(nodes)
         else if Readable(ds) && Covered(Sections(nodes), ds) then Success(Merge(Sections(nodes), ds))
         else Failure(Corrupt)
  {
    hide Contribution, Readable, Splice;
    assert ds[0..] == ds;
    if |ds| == 1 && ds[0].ops == [] {
      EmptyDeltaKeepsBook(nodes, ds[0]);
      assert ds == [ds[0]];
    } else if Readable(ds) {
      SpliceIsMerge([], Some(1), false, nodes, ds, 0, ds[0].number);
      PrependNothing(Splice(nodes, ds, 0, ds[0].number, false));
    } else {
      SuccessReadsAll(nodes, ds, 0, ds[0].number, false);
      FailureIsCorrupt([], Some(1), false, nodes, ds, 0, ds[0].number);
    }
  }
}
