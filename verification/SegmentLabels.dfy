/** The segment references of the chapter deltas of a whole book. */
module SegmentLabels {
  import opened Wrappers
  import opened Decimal
  import opened UsxNodes
  import opened ChapterWalk
  import opened VersePlaces
  import opened Grammar
  import opened OrderedMerge
  import opened RichText
  import opened InlineRoundTrip
  import opened ImpliedRoundTrip
  import opened SectionReading
  import opened BookRoundTrip
  import opened SegmentRuns
  import Splicing

  /** Every run of loose nodes begins where no reference is current: not after a paragraph that may hold verse text. */
  predicate RunsFree(ns: seq<Node>, tables: nat) {
    ns == []
    || var front, n := ns[..|ns| - 1], ns[|ns| - 1];
       RunsFree(front, tables)
       && (!IsBlock(n) && Scanned(front).run == [] ==> NumberedAfter(front, Fresh(tables)).curRef.None?)
  }

  /** The runs of a delta are the references its section issues, and blanks stand alone. */
  predicate DeltaLabelled(s: Section, d: ChapterDelta, tables: nat) {
    RunsOf(d.ops) == TagRefs(SectionTags(s.nodes, Fresh(tables))) && BlanksAlone(d.ops)
  }

  /** Otherwise some reference has a second run. */
  predicate DeltaRepeats(s: Section, d: ChapterDelta, tables: nat) {
    |RunsOf(d.ops)| > |SectionTags(s.nodes, Fresh(tables))| && !Distinct(RunsOf(d.ops)) && BlanksAlone(d.ops)
  }

  /** The delta of a section that comes back. */
  predicate LabelledIfFree(s: Section, d: ChapterDelta, tables: nat) {
    SectionStands(s.nodes) ==>
      if RunsFree(s.nodes, tables) then DeltaLabelled(s, d, tables) else DeltaRepeats(s, d, tables)
  }

  /** Each numbered section has a delta labelled like this; tables are numbered through the book. */
  predicate Labelled(ss: seq<Section>, ds: seq<ChapterDelta>, tables: nat) {
    if ss == [] then ds == []
    else
      var after := NumberedAfter(ss[0].nodes, Fresh(tables)).tables;
      if ss[0].number.None? then Labelled(ss[1..], ds, after)
      else ds != [] && LabelledIfFree(ss[0], ds[0], tables) && Labelled(ss[1..], ds[1..], after)
  }

  lemma {:induction false} TagsSnoc(ns: seq<Node>, n: Node, s: Numbering)
    ensures SectionTags(ns + [n], s) == SectionTags(ns, s) + TopTags(n, NumberedAfter(ns, s))
    ensures NumberedAfter(ns + [n], s) == Renumbered(n, NumberedAfter(ns, s))
    decreases ns
  {
    hide TopTags, Renumbered;
    var all := ns + [n];
    if ns == [] {
      assert all == [n] && all[1..] == [];
    } else {
      assert all[0] == ns[0] && all[1..] == ns[1..] + [n];
      TagsSnoc(ns[1..], n, Renumbered(ns[0], s));
    }
  }

  lemma FreeSnoc(ns: seq<Node>, n: Node, tables: nat)
    ensures RunsFree(ns + [n], tables) <==>
      RunsFree(ns, tables) && (!IsBlock(n) && Scanned(ns).run == [] ==> NumberedAfter(ns, Fresh(tables)).curRef.None?)
  {
    hide Scanned, NumberedAfter;
    var all := ns + [n];
    assert all[|all| - 1] == n && all[..|all| - 1] == ns;
  }

  // ----- the references of the nodes so far

  /** The runs in the delta that holds `held`, counting the current reference if it still waits for an op. */
  ghost predicate IssuedAs(s: BookWalk, held: seq<Node>, tables: nat, runs: seq<string>) {
    s.BookWalk? && NumberingOf(s) == NumberedAfter(held, Fresh(tables))
    && (if RunsFree(held, tables) then runs == TagRefs(SectionTags(held, Fresh(tables)))
        else |runs| > |SectionTags(held, Fresh(tables))| && !Distinct(runs))
    && (s.walk.curRef.Some? ==> s.walk.curRef.value in runs)
    && RunAt(s.walk, Scanned(held).run, runs)
  }

  ghost predicate RunAt(w: Walk, run: seq<Node>, runs: seq<string>) {
    if run == [] then AtBlock(w, runs)
    else
      LooseAt(w, runs) && (w.implied <==> HasImplied(run))
      && (!HasImplied(run) && w.curRef.Some? ==> Labelling(w, runs))
  }

  /** As long as the section stands, the walk has issued the references of `held`. */
  ghost predicate Issued(s: BookWalk, held: seq<Node>, tables: nat) {
    s.BookWalk? && s.walk.tableIndex == NumberedAfter(held, Fresh(tables)).tables
    && (Scanned(held).stands ==> exists runs :: IssuedAs(s, held, tables, runs))
  }

  lemma RepeatsStay<T>(a: seq<T>, b: seq<T>)
    requires !Distinct(a)
    ensures !Distinct(a + b)
  {
    var i, j :| 0 <= i < j < |a| && a[i] == a[j];
    assert (a + b)[i] == (a + b)[j];
  }

  lemma OnceMore<T>(a: seq<T>, x: T)
    requires x in a
    ensures !Distinct(a + [x])
  {
    var i :| 0 <= i < |a| && a[i] == x;
    assert (a + [x])[i] == (a + [x])[|a|];
  }

  /** The references of one node come after those before it, and after the current one if that begins again. */
  lemma RunsGrow(held: seq<Node>, n: Node, tables: nat, runs: seq<string>, again: Option<string>, tags: seq<Tag>)
    requires if RunsFree(held, tables) then runs == TagRefs(SectionTags(held, Fresh(tables)))
             else |runs| > |SectionTags(held, Fresh(tables))| && !Distinct(runs)
    requires tags == TopTags(n, NumberedAfter(held, Fresh(tables)))
    requires RunsFree(held + [n], tables) <==> RunsFree(held, tables) && again.None?
    requires again.Some? ==> again.value in runs
    ensures var runs1 := Begun(runs, again) + TagRefs(tags);
      if RunsFree(held + [n], tables) then runs1 == TagRefs(SectionTags(held + [n], Fresh(tables)))
      else |runs1| > |SectionTags(held + [n], Fresh(tables))| && !Distinct(runs1)
  {
    hide RunsFree, SectionTags, NumberedAfter, TopTags, TagRef, Distinct;
    var refs := SectionTags(held, Fresh(tables));
    TagsSnoc(held, n, Fresh(tables));
    TagRefsAppend(refs, tags);
    if again.Some? {
      OnceMore(runs, again.value);
      RepeatsStay(runs + [again.value], TagRefs(tags));
    } else if !RunsFree(held, tables) {
      RepeatsStay(runs, TagRefs(tags));
    }
  }

  function Begun(runs: seq<string>, again: Option<string>): seq<string> {
    if again.Some? then runs + [again.value] else runs
  }

  lemma {:induction false} LooseIssued(child: Child, s: BookWalk, held: seq<Node>, tables: nat, runs: seq<string>)
      returns (runs1: seq<string>)
    requires IssuedAs(s, held, tables, runs) && Loose(child.node) && !IsBlock(child.node)
    ensures IssuedAs(WalkChild(child, s), held + [child.node], tables, runs1)
  {
    hide RunAt, RunsFree, SectionTags, NumberedAfter, Scanned, WalkNode, Inline, Distinct, TagRefs, WalkChild;
    var n, run := child.node, Scanned(held).run;
    var again := if run == [] then s.walk.curRef else None;
    var tags := VerseTags([n], s.walk.curChapter);
    LooseChild(child, s);
    InlineKeeps(n, s.walk, PLAIN);
    LooseRun(n, s.walk, run, runs, again, WalkChild(child, s).walk.chapterIsValid);
    FreeSnoc(held, n, tables);
    TagsSnoc(held, n, Fresh(tables));
    RunsGrow(held, n, tables, runs, again, tags);
    runs1 := Begun(runs, again) + TagRefs(tags);
    ScanSnoc(held, n);
    LooseCurrent(s.walk.curRef, runs, again, tags);
  }

  lemma LooseRun(n: Node, w: Walk, run: seq<Node>, runs: seq<string>, again: Option<string>, chapterIsValid: bool)
    requires RunAt(w, run, runs) && Loose(n) && again == (if run == [] then w.curRef else None)
    ensures var w1, tags := LooseWalked(n, w, chapterIsValid), VerseTags([n], w.curChapter);
      && RunAt(w1, run + [n], Begun(runs, again) + TagRefs(tags))
      && w1.curRef == (if tags == [] then w.curRef else LastRef(tags))
      && (IsElement(n, "verse") <==> tags != [])
  {
    hide RunsOf, BlanksAlone, WalkNode, Inline, TagRefs, VerseTags;
    if run == [] { LooseStarted(w, runs); }
    LooseSegments(n, w, Begun(runs, again));
    MoreLoose(run, n);
    NoTags(Begun(runs, again), w.curChapter);
  }

  lemma LooseCurrent(curRef: Option<string>, runs: seq<string>, again: Option<string>, tags: seq<Tag>)
    requires curRef.Some? ==> curRef.value in runs
    ensures var runs1, ref := Begun(runs, again) + TagRefs(tags), if tags == [] then curRef else LastRef(tags);
      ref.Some? ==> ref.value in runs1
  {
    if tags != [] { assert TagRefs(tags)[|tags| - 1] == TagRef(tags[|tags| - 1]); }
  }

  // ----- blocks

  /** A block of a section that still stands. */
  lemma {:induction false} BlockIssued(child: Child, s: BookWalk, held: seq<Node>, tables: nat, runs: seq<string>)
      returns (runs1: seq<string>)
    requires IssuedAs(s, held, tables, runs) && TopLevel(child.node) && Scanned(held + [child.node]).stands
    requires IsElement(child.node, "chapter") ==> s.walk.curChapter.None?
    ensures IssuedAs(WalkChild(child, s), held + [child.node], tables, runs1)
  {
    hide RunsFree, SectionTags, NumberedAfter, Scanned, Distinct, TagRefs, WalkChild, TopLevel, AtBlock, LooseAt;
    var n := child.node;
    BlockIsTop(n);
    ScanSnoc(held, n);
    StandingEnd(child, s, Scanned(held), runs);
    var tags := TopTags(n, NumberingOf(s));
    FreeSnoc(held, n, tables);
    TagsSnoc(held, n, Fresh(tables));
    RunsGrow(held, n, tables, runs, None, tags);
    runs1 := runs + TagRefs(tags);
    BlockCurrent(n, NumberingOf(s), runs);
  }

  lemma BlockIsTop(n: Node)
    requires TopLevel(n)
    ensures IsBlock(n) && n.Elem?
  {
  }

  /** Loose nodes before the block, if there are any, have their line break first. */
  lemma StandingEnd(child: Child, s: BookWalk, scan: Scan, runs: seq<string>)
    requires s.BookWalk? && RunAt(s.walk, scan.run, runs) && TopLevel(child.node) && ScanNext(scan, child.node).stands
    requires IsElement(child.node, "chapter") ==> s.walk.curChapter.None?
    ensures var s1, tags := WalkChild(child, s), TopTags(child.node, NumberingOf(s));
      && s1.BookWalk? && AtBlock(s1.walk, runs + TagRefs(tags))
      && NumberingOf(s1) == Renumbered(child.node, NumberingOf(s))
  {
    hide AtBlock, LooseAt, WalkChild, TagRefs, TopTags, Renumbered, ImpliedEnded;
    BlockIsTop(child.node);
    if scan.run == [] {
      BlockSegmentsOf(child, s, runs);
    } else {
      LooseEnded(s.walk, runs);
      var s0 := s.(walk := ImpliedEnded(s.walk));
      EndedBefore(child, s);
      BlockSegmentsOf(child, s0, runs);
    }
  }

  lemma EndedBefore(child: Child, s: BookWalk)
    requires s.BookWalk? && (IsElement(child.node, "para") || IsElement(child.node, "book"))
    ensures WalkChild(child, s.(walk := ImpliedEnded(s.walk))) == WalkChild(child, s)
  {
    hide WalkParaBody, ParaKey, SegmentEnded, Appended;
    ImpliedFields(s.walk);
  }

  lemma BlockCurrent(n: Node, s: Numbering, runs: seq<string>)
    requires IsBlock(n)
    ensures var runs1, ref := runs + TagRefs(TopTags(n, s)), Renumbered(n, s).curRef;
      ref.Some? ==> ref.value in runs1
  {
    hide TableTags, VerseTags, ParaTagOf, TagRef;
    var tags := TopTags(n, s);
    if tags != [] { assert TagRefs(tags)[|tags| - 1] == TagRef(tags[|tags| - 1]); }
  }

  // ----- one more top-level node

  lemma {:induction false} ChildIssued(child: Child, s: BookWalk, held: seq<Node>, tables: nat)
    requires Issued(s, held, tables) && Known(child.node, held)
    requires IsElement(child.node, "chapter") ==> s.walk.curChapter.None?
    ensures Issued(WalkChild(child, s), held + [child.node], tables)
  {
    hide IssuedAs, SectionTags, NumberedAfter, Scanned, WalkChild, TopLevel, Inline, Apart;
    var n := child.node;
    ChildKeeps(child, s);
    TagsSnoc(held, n, Fresh(tables));
    ScanSnoc(held, n);
    TablesCounted(n, NumberedAfter(held, Fresh(tables)));
    if Scanned(held + [n]).stands {
      var runs :| IssuedAs(s, held, tables, runs);
      if IsBlock(n) {
        var runs1 := BlockIssued(child, s, held, tables, runs);
      } else {
        var runs1 := LooseIssued(child, s, held, tables, runs);
      }
    }
  }

  lemma TablesCounted(n: Node, s: Numbering)
    ensures Renumbered(n, s).tables == s.tables + (if IsElement(n, "table") then 1 else 0)
  {
    hide TopTags, ParaTagOf;
  }

  lemma NothingIssued(s: BookWalk)
    requires s.BookWalk? && s.walk.ops == [] && !s.walk.implied && s.walk.curRef.None? && s.walk.curChapter.None?
    requires s.nextIds == map[]
    ensures Issued(s, [], s.walk.tableIndex)
  {
    assert IssuedAs(s, [], s.walk.tableIndex, []);
  }

  /** A later chapter starts the numbering afresh, except that of tables. */
  lemma ChapterLabels(child: Child, s: BookWalk)
    requires s.BookWalk? && Known(child.node, []) && IsElement(child.node, "chapter") && s.walk.curChapter.Some?
    ensures Issued(WalkChild(child, s), [child.node], s.walk.tableIndex)
  {
    hide IssuedAs, WalkChild;
    var s0 := s.(walk := s.walk.(ops := [], implied := false, curRef := None, curChapter := None), nextIds := map[]);
    NothingIssued(s0);
    ChildIssued(child, s0, [], s.walk.tableIndex);
    assert [] + [child.node] == [child.node];
    ChapterAfresh(child, s, s0);
    IssuedAlike(WalkChild(child, s0), WalkChild(child, s), [child.node], s.walk.tableIndex);
  }

  /** A later chapter leaves what a first chapter would, but for the validity of its section. */
  lemma ChapterAfresh(child: Child, s: BookWalk, s0: BookWalk)
    requires s.BookWalk? && IsElement(child.node, "chapter") && s.walk.curChapter.Some?
    requires s0 == s.(walk := s.walk.(ops := [], implied := false, curRef := None, curChapter := None),
                      nextIds := map[])
    ensures var s1, s2 := WalkChild(child, s), WalkChild(child, s0);
      && s1.BookWalk? && s2.BookWalk?
      && s1.walk == s2.walk.(chapterIsValid := s1.walk.chapterIsValid) && s1.nextIds == s2.nextIds
  {
  }

  lemma IssuedAlike(s: BookWalk, s1: BookWalk, held: seq<Node>, tables: nat)
    requires Issued(s, held, tables) && s1.BookWalk?
    requires s1.walk == s.walk.(chapterIsValid := s1.walk.chapterIsValid) && s1.nextIds == s.nextIds
    ensures Issued(s1, held, tables)
  {
    hide RunsOf, BlanksAlone, BetweenSegments, TagRefs, SectionTags, NumberedAfter, RunsFree, Scanned, Distinct,
        HasImplied;
    if Scanned(held).stands {
      var runs :| IssuedAs(s, held, tables, runs);
      assert IssuedAs(s1, held, tables, runs);
    }
  }

  // ----- the end of a section

  lemma {:induction false} SectionLabels(s: BookWalk, held: seq<Node>, number: int, tables: nat)
    requires Issued(s, held, tables)
    ensures LabelledIfFree(Section(Some(number), held),
      ChapterDelta(number, s.walk.lastVerse, s.walk.chapterIsValid, ImpliedEnded(s.walk).ops), tables)
  {
    hide IssuedAs, RunsFree, SectionTags, TagRefs, ImpliedEnded, RunsOf, BlanksAlone, Distinct, Scanned;
    if SectionStands(held) {
      var runs :| IssuedAs(s, held, tables, runs);
      IssuedRuns(s, held, tables, runs);
      EndLabels(s.walk, Scanned(held), runs);
      RefsCount(SectionTags(held, Fresh(tables)));
    }
  }

  lemma RefsCount(tags: seq<Tag>)
    ensures |TagRefs(tags)| == |tags|
  {
  }

  lemma IssuedRuns(s: BookWalk, held: seq<Node>, tables: nat, runs: seq<string>)
    requires IssuedAs(s, held, tables, runs)
    ensures s.BookWalk? && RunAt(s.walk, Scanned(held).run, runs)
    ensures if RunsFree(held, tables) then runs == TagRefs(SectionTags(held, Fresh(tables)))
            else |runs| > |SectionTags(held, Fresh(tables))| && !Distinct(runs)
  {
  }

  /** What the end of a section that stands leaves of its runs of ops. */
  lemma EndLabels(w: Walk, scan: Scan, runs: seq<string>)
    requires RunAt(w, scan.run, runs) && RunStands(scan.run, scan.afterTable, None)
    ensures RunsOf(ImpliedEnded(w).ops) == runs && BlanksAlone(ImpliedEnded(w).ops)
  {
    hide RunsOf, BlanksAlone, HasImplied;
    if scan.run != [] && HasImplied(scan.run) { LooseEnded(w, runs); }
  }

  lemma SectionLabelled(s: BookWalk, held: seq<Node>, number: Option<int>, tables: nat, ss: seq<Section>,
                        later: seq<ChapterDelta>)
      returns (ds: seq<ChapterDelta>)
    requires Issued(s, held, tables) && Labelled(ss, later, s.walk.tableIndex)
    ensures Labelled([Section(number, held)] + ss, ds, tables)
    ensures s.chapters + ds == Ended(s, number) + later
  {
    hide IssuedAs, LabelledIfFree, NumberedAfter, Scanned;
    ds := Ended(s.(chapters := []), number) + later;
    assert ([Section(number, held)] + ss)[1..] == ss;
    if number.Some? {
      SectionLabels(s, held, number.value, tables);
      assert ds[1..] == later;
    } else {
      assert ds == later;
    }
  }

  lemma {:induction false} WalkLabels(children: seq<Child>, s: BookWalk, held: seq<Node>, number: Option<int>,
                                      found: bool, tables: nat) returns (ds: seq<ChapterDelta>)
    requires Issued(s, held, tables) && Composed(Nodes(children), LastLoose(held))
    requires found == s.walk.curChapter.Some?
    requires number == (if found then ParseInt(s.walk.curChapter.value) else Some(1))
    ensures BookEnded(WalkBook(children, s)) == Some(s.chapters + ds)
    ensures Labelled(SectionsFrom(held, number, found, Nodes(children)), ds, tables)
    decreases children
  {
    hide Issued, Labelled, TopLevel, WalkChild, Loose, Composed, Scanned, Apart, NodeValid;
    if children == [] {
      IsWalking(s, held, tables);
      NothingLabelled(s.walk.tableIndex);
      ds := SectionLabelled(s, held, number, tables, [], []);
      assert [Section(number, held)] + [] == [Section(number, held)];
      BookEndedWith(s, number, found);
      assert Ended(s, number) + [] == Ended(s, number);
    } else {
      var child := children[0];
      var n, s1 := child.node, WalkChild(child, s);
      IsWalking(s, held, tables);
      ComposedNext(children, held);
      if !IsElement(n, "chapter") || !found {
        ChildIssued(child, s, held, tables);
        ChildRefs(child, s, held);
        ds := WalkLabels(children[1..], s1, held + [n],
                         if IsElement(n, "chapter") then Splicing.ChapterNumber(n) else number,
                         found || IsElement(n, "chapter"), tables);
      } else {
        ChapterLabels(child, s);
        ChapterRefs(child, s, number);
        var later := WalkLabels(children[1..], s1, [n], Splicing.ChapterNumber(n), true, s.walk.tableIndex);
        ds := SectionLabelled(s, held, number, tables,
                              SectionsFrom([n], Splicing.ChapterNumber(n), true, Nodes(children[1..])), later);
      }
    }
  }

  lemma NothingLabelled(tables: nat)
    ensures Labelled([], [], tables)
  {
  }

  lemma IsWalking(s: BookWalk, held: seq<Node>, tables: nat)
    requires Issued(s, held, tables)
    ensures s.BookWalk?
  {
  }

  lemma ChildRefs(child: Child, s: BookWalk, held: seq<Node>)
    requires s.BookWalk? && Known(child.node, held) && (IsElement(child.node, "chapter") ==> s.walk.curChapter.None?)
    ensures var s1 := WalkChild(child, s);
      && s1.BookWalk? && s1.chapters == s.chapters
      && s1.walk.curChapter
         == (if IsElement(child.node, "chapter") then Attr(child.node, "number") else s.walk.curChapter)
    ensures IsElement(child.node, "chapter") ==> Attr(child.node, "number").Some?
  {
    ChildKeeps(child, s);
  }

  lemma ChapterRefs(child: Child, s: BookWalk, number: Option<int>)
    requires s.BookWalk? && Known(child.node, []) && IsElement(child.node, "chapter") && s.walk.curChapter.Some?
    requires number == ParseInt(s.walk.curChapter.value)
    ensures var s1 := WalkChild(child, s);
      && s1.BookWalk? && s1.walk.curChapter == Attr(child.node, "number") && s1.walk.curChapter.Some?
      && s1.chapters == Ended(s, number)
    ensures IsBlock(child.node)
  {
  }

  /**
   * In the delta of every section that comes back, each reference the section issues labels one run of ops, in the
   * order of issue, exactly if each run of loose nodes begins where no reference is current.
   */
  lemma {:induction false} DeltasAreLabelled(children: seq<Child>, g: nat)
    requires Composed(Nodes(children), None)
    ensures ToChapterDeltas(children, g).Some?
    ensures Labelled(Sections(Nodes(children)), ToChapterDeltas(children, g).value, 0)
  {
    hide Issued, Labelled, Composed;
    NothingIssued(Start(g));
    var ds := WalkLabels(children, Start(g), [], Some(1), false, 0);
    assert [] + ds == ds;
  }

  // ----- a paragraph and loose text

  /** Loose text after a paragraph carries on the paragraph's reference, in a run of its own. */
  lemma {:induction false} LooseTextRepeats(p: Node, n: Node, g: nat)
    requires TopLevel(p) && p.name == "para" && HoldsVerses(Attr(p, "style")) && Loose(n) && !IsBlock(n)
      && StartsImplied(n)
    ensures var ds := ToChapterDeltas([Child(p, true), Child(n, true)], g);
      ds.Some? && |ds.value| == 1 && !Distinct(RunsOf(ds.value[0].ops))
  {
    hide ToChapterDeltas, RunsOf, Loose, TopLevel, Distinct;
    var children := [Child(p, true), Child(n, true)];
    PairComposed(Child(p, true), Child(n, true));
    DeltasAreLabelled(children, g);
    PairScanned(p, n);
    assert Labelled([Section(Some(1), [p, n])], ToChapterDeltas(children, g).value, 0);
  }

  lemma PairComposed(a: Child, b: Child)
    requires TopLevel(a.node) && Loose(b.node) && !IsBlock(b.node)
    ensures Nodes([a, b]) == [a.node, b.node] && Composed([a.node, b.node], None)
  {
    hide TopLevel, Loose;
    BlockIsTop(a.node);
    assert [a, b][1..] == [b] && [b][1..] == [];
    assert Nodes([b]) == [b.node] + Nodes([]) == [b.node];
    assert [a.node, b.node][1..] == [b.node] && [b.node][1..] == [];
    assert Composed([], Some(b.node)) && Composed([b.node], None);
  }

  lemma PairScanned(p: Node, n: Node)
    requires TopLevel(p) && p.name == "para" && HoldsVerses(Attr(p, "style")) && Loose(n) && !IsBlock(n)
      && StartsImplied(n)
    ensures Sections([p, n]) == [Section(Some(1), [p, n])]
    ensures SectionStands([p, n]) && !RunsFree([p, n], 0)
  {
    hide TopLevel, Loose, HoldsVerses, CutAt, VerseTags;
    BlockIsTop(p);
    ScanSnoc([], p);
    ScanSnoc([p], n);
    TagsSnoc([], p, Fresh(0));
    FreeSnoc([p], n, 0);
    assert [] + [p] == [p] && [p] + [n] == [p, n] && [n][0] == n && [] + [n] == [n];
    assert [p, n][1..] == [n] && [n][1..] == [];
    assert SectionsFrom([p], Some(1), false, [n]) == SectionsFrom([p, n], Some(1), false, []);
  }
}
