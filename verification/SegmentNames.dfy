/** When the segment references of a chapter delta are distinct, and what follows for its ops. */
module SegmentNames {
  import opened Wrappers
  import opened Decimal
  import opened UsxNodes
  import opened RichText
  import opened ChapterWalk
  import opened VersePlaces
  import opened Grammar
  import opened SegmentRuns
  import opened SegmentLabels
  import OrderedMerge
  import Splicing

  predicate PlainName(s: string) {
    '_' !in s && '/' !in s
  }

  /** The parts of a reference can be told apart. */
  predicate PlainTag(tag: Tag) {
    match tag
    case ParaTag(base, style, _) => PlainName(style) && (base.Some? ==> '/' !in base.value)
    case VerseTag(chapter, number) => PlainName(chapter) && '/' !in number
    case CellTag(_, _, _) => true
  }

  // ----- references of different segments are different strings

  function ParaPrefix(tag: Tag): string
    requires tag.ParaTag?
  {
    if tag.base.Some? then tag.base.value + "/" + tag.style else tag.style
  }

  lemma ParaRefs(a: Tag, b: Tag)
    requires a.ParaTag? && b.ParaTag? && PlainTag(a) && PlainTag(b) && TagRef(a) == TagRef(b)
    ensures a == b
  {
    SplitUniqueLast(ParaPrefix(a), Render(a.id), ParaPrefix(b), Render(b.id), '_');
    RenderInjective(a.id, b.id);
    if a.base.Some? && b.base.Some? {
      SplitUnique(a.base.value, a.style, b.base.value, b.style, '/');
    } else {
      SlashInPrefix(a);
      SlashInPrefix(b);
    }
  }

  lemma SlashInPrefix(a: Tag)
    requires a.ParaTag? && PlainTag(a)
    ensures '/' in ParaPrefix(a) <==> a.base.Some?
    ensures '/' in TagRef(a) <==> a.base.Some?
  {
    if a.base.Some? {
      assert ParaPrefix(a)[|a.base.value|] == '/' && TagRef(a)[|a.base.value|] == '/';
    } else {
      assert TagRef(a) == a.style + "_" + Render(a.id);
    }
  }

  /** What follows the first underscore of a verse or cell reference has another one. */
  lemma TailedRefs(a: Tag, head: string, first: string, rest: string)
    requires a.ParaTag? && PlainTag(a) && '_' !in head && '/' !in head + "_" + (first + "_" + rest)
    ensures TagRef(a) != head + "_" + (first + "_" + rest)
  {
    var tail := first + "_" + rest;
    assert tail[|first|] == '_' && '_' !in Render(a.id);
    SlashInPrefix(a);
    if TagRef(a) == head + "_" + tail {
      SplitUnique(a.style, Render(a.id), head, tail, '_');
      assert false;
    }
  }

  lemma VerseForm(v: Tag)
    requires v.VerseTag?
    ensures TagRef(v) == "verse" + "_" + (v.chapter + "_" + v.number)
  {
  }

  lemma CellForm(c: Tag)
    requires c.CellTag?
    ensures TagRef(c) == "cell" + "_" + (Render(c.table) + "_" + (Render(c.row) + "_" + Render(c.cell)))
  {
  }

  lemma VerseRefs(a: Tag, b: Tag)
    requires a.VerseTag? && b.VerseTag? && PlainTag(a) && PlainTag(b) && TagRef(a) == TagRef(b)
    ensures a == b
  {
    VerseForm(a);
    VerseForm(b);
    SamePrefix("verse" + "_", a.chapter + "_" + a.number, b.chapter + "_" + b.number);
    SplitUnique(a.chapter, a.number, b.chapter, b.number, '_');
  }

  lemma CellRefs(a: Tag, b: Tag)
    requires a.CellTag? && b.CellTag? && TagRef(a) == TagRef(b)
    ensures a == b
  {
    CellForm(a);
    CellForm(b);
    var x, y := Render(a.row) + "_" + Render(a.cell), Render(b.row) + "_" + Render(b.cell);
    SamePrefix("cell" + "_", Render(a.table) + "_" + x, Render(b.table) + "_" + y);
    SplitUnique(Render(a.table), x, Render(b.table), y, '_');
    SplitUnique(Render(a.row), Render(a.cell), Render(b.row), Render(b.cell), '_');
    RenderInjective(a.table, b.table);
    RenderInjective(a.row, b.row);
    RenderInjective(a.cell, b.cell);
  }

  lemma ParaAndOther(a: Tag, b: Tag)
    requires a.ParaTag? && !b.ParaTag? && PlainTag(a) && PlainTag(b)
    ensures TagRef(a) != TagRef(b)
  {
    if b.VerseTag? {
      VerseForm(b);
      TailedRefs(a, "verse", b.chapter, b.number);
    } else {
      CellForm(b);
      TailedRefs(a, "cell", Render(b.table), Render(b.row) + "_" + Render(b.cell));
    }
  }

  lemma VerseAndCell(v: Tag, c: Tag)
    requires v.VerseTag? && c.CellTag?
    ensures TagRef(v) != TagRef(c)
  {
    VerseForm(v);
    CellForm(c);
    assert TagRef(v)[0] == 'v' && TagRef(c)[0] == 'c';
  }

  lemma {:induction false} RefInjective(a: Tag, b: Tag)
    requires PlainTag(a) && PlainTag(b) && TagRef(a) == TagRef(b)
    ensures a == b
  {
    if a.ParaTag? && b.ParaTag? {
      ParaRefs(a, b);
    } else if a.ParaTag? {
      ParaAndOther(a, b);
    } else if b.ParaTag? {
      ParaAndOther(b, a);
    } else if a.VerseTag? && b.VerseTag? {
      VerseRefs(a, b);
    } else if a.CellTag? && b.CellTag? {
      CellRefs(a, b);
    } else {
      VerseAndCell(if a.VerseTag? then a else b, if a.VerseTag? then b else a);
    }
  }

  // ----- a section numbers its segments apart

  /** Not handed out before this point. */
  predicate Ahead(tag: Tag, s: Numbering) {
    match tag
    case ParaTag(_, _, id) => NextId(s.nextIds, TagKey(tag)) <= id
    case VerseTag(_, _) => true
    case CellTag(t, _, _) => s.tables < t
  }

  /** Handed out before this point. */
  predicate Behind(tag: Tag, s: Numbering) {
    match tag
    case ParaTag(_, _, id) => id < NextId(s.nextIds, TagKey(tag))
    case VerseTag(_, _) => true
    case CellTag(t, _, _) => t <= s.tables
  }

  predicate AllAhead(tags: seq<Tag>, s: Numbering) {
    forall i :: 0 <= i < |tags| ==> Ahead(tags[i], s)
  }

  predicate AllBehind(tags: seq<Tag>, s: Numbering) {
    forall i :: 0 <= i < |tags| ==> Behind(tags[i], s)
  }

  /** Apart from verses, no tag occurs twice. */
  predicate NumberedApart(tags: seq<Tag>) {
    forall i, j :: 0 <= i < j < |tags| && !tags[i].VerseTag? ==> tags[i] != tags[j]
  }

  predicate VersesApart(tags: seq<Tag>) {
    forall i, j :: 0 <= i < j < |tags| && tags[i].VerseTag? ==> tags[i] != tags[j]
  }

  predicate AllVerses(tags: seq<Tag>) {
    forall i :: 0 <= i < |tags| ==> tags[i].VerseTag?
  }

  lemma {:induction false} VerseTagsAreVerses(ns: seq<Node>, chapter: Option<string>)
    ensures AllVerses(VerseTags(ns, chapter))
  {
    if ns != [] {
      VerseTagsAreVerses(ns[1..], chapter);
    }
  }

  /** The cells of table `t` from row `r` on, in that row from cell `c` on. */
  predicate CellsFrom(tags: seq<Tag>, t: nat, r: nat, c: nat) {
    forall i :: 0 <= i < |tags| ==>
      match tags[i]
      case ParaTag(_, _, _) => false
      case VerseTag(_, _) => true
      case CellTag(t1, r1, c1) => t1 == t && (r < r1 || (r == r1 && c <= c1))
  }

  lemma JoinApart(a: seq<Tag>, b: seq<Tag>)
    requires NumberedApart(a) && NumberedApart(b)
    requires forall i, j :: 0 <= i < |a| && 0 <= j < |b| && !a[i].VerseTag? ==> a[i] != b[j]
    ensures NumberedApart(a + b)
  {
  }

  lemma {:induction false} RowApart(cells: seq<Node>, t: nat, r: nat, c: nat, chapter: Option<string>)
    ensures var tags := RowTags(cells, t, r, c, chapter); NumberedApart(tags) && CellsFrom(tags, t, r, c)
    ensures forall i :: 0 <= i < |RowTags(cells, t, r, c, chapter)| && RowTags(cells, t, r, c, chapter)[i].CellTag? ==>
              RowTags(cells, t, r, c, chapter)[i].row == r
    decreases cells
  {
    if cells != [] && cells[0].Elem? {
      var verses := if cells[0].name == "cell" then VerseTags(cells[0].kids, chapter)
                    else VerseTags([cells[0]], chapter);
      VerseTagsAreVerses(cells[0].kids, chapter);
      VerseTagsAreVerses([cells[0]], chapter);
      var first, rest := [CellTag(t, r, c)] + verses, RowTags(cells[1..], t, r, c + 1, chapter);
      assert first == CellTags(cells[0], t, r, c, chapter);
      RowApart(cells[1..], t, r, c + 1, chapter);
      JoinApart(first, rest);
    }
  }

  lemma {:induction false} TableApart(rows: seq<Node>, t: nat, r: nat, chapter: Option<string>)
    ensures var tags := TableTags(rows, t, r, chapter); NumberedApart(tags) && CellsFrom(tags, t, r, 0)
    decreases rows
  {
    if rows != [] && rows[0].Elem? {
      var first, rest := RowTags(rows[0].kids, t, r, 1, chapter), TableTags(rows[1..], t, r + 1, chapter);
      RowApart(rows[0].kids, t, r, 1, chapter);
      TableApart(rows[1..], t, r + 1, chapter);
      JoinApart(first, rest);
    }
  }

  lemma TopApart(n: Node, s: Numbering)
    ensures var tags := TopTags(n, s);
            NumberedApart(tags) && AllAhead(tags, s) && AllBehind(tags, Renumbered(n, s))
  {
    hide VerseTags, TableTags, HoldsVerses, CutAt, TagRef;
    if !IsBlock(n) {
      VerseTagsAreVerses([n], s.chapter);
    } else if n.name == "table" {
      TableApart(n.kids, s.tables + 1, 1, s.chapter);
    } else if n.name != "chapter" {
      VerseTagsAreVerses(n.kids, s.chapter);
    }
  }

  /** Numbers only grow. */
  ghost predicate NotAfter(s: Numbering, s1: Numbering) {
    s.tables <= s1.tables && forall k :: NextId(s.nextIds, k) <= NextId(s1.nextIds, k)
  }

  lemma {:induction false} SectionApart(ns: seq<Node>, s: Numbering)
    requires forall k :: k in s.nextIds ==> 1 <= s.nextIds[k]
    ensures NumberedApart(SectionTags(ns, s)) && AllAhead(SectionTags(ns, s), s)
    decreases ns
  {
    if ns != [] {
      var s1 := Renumbered(ns[0], s);
      var first, rest := TopTags(ns[0], s), SectionTags(ns[1..], s1);
      TopApart(ns[0], s);
      SectionApart(ns[1..], s1);
      assert forall i, j :: 0 <= i < |first| && 0 <= j < |rest| && !first[i].VerseTag? ==>
        Behind(first[i], s1) && Ahead(rest[j], s1);
      JoinApart(first, rest);
      assert NotAfter(s, s1);
      AheadEarlier(rest, s, s1);
    }
  }

  lemma AheadEarlier(tags: seq<Tag>, s: Numbering, s1: Numbering)
    requires AllAhead(tags, s1) && NotAfter(s, s1)
    ensures AllAhead(tags, s)
  {
    forall i | 0 <= i < |tags|
      ensures Ahead(tags[i], s)
    {
      assert Ahead(tags[i], s1);
    }
  }

  // ----- distinct references

  /** What a section must look like for its references to be told apart. */
  predicate PlainSection(ns: seq<Node>) {
    forall i :: 0 <= i < |ns| ==> PlainTop(ns[i])
  }

  predicate PlainTop(n: Node) {
    (IsElement(n, "chapter") ==> Splicing.ChapterNumber(n).Some?)
    && (IsElement(n, "para") || IsElement(n, "book") ==> PlainName(Show(Attr(n, "style"))))
    && PlainVerses([n])
  }

  /** No verse number contains a slash. */
  predicate PlainVerses(ns: seq<Node>) {
    ns == [] || (
      (ns[0].Elem? ==>
         (ns[0].name == "verse" ==> '/' !in Show(Attr(ns[0], "number"))) && PlainVerses(ns[0].kids))
      && PlainVerses(ns[1..]))
  }

  predicate PlainTags(tags: seq<Tag>) {
    forall i :: 0 <= i < |tags| ==> PlainTag(tags[i])
  }

  predicate PlainNumbering(s: Numbering) {
    PlainName(Show(s.chapter))
  }

  lemma {:induction false} CutIsPlain(s: string, sep: char)
    ensures sep !in CutAt(s, sep)
  {
    if s != [] && s[0] != sep {
      CutIsPlain(s[1..], sep);
    }
  }

  lemma {:induction false} VersesPlain(ns: seq<Node>, chapter: Option<string>)
    requires PlainVerses(ns) && PlainName(Show(chapter))
    ensures PlainTags(VerseTags(ns, chapter))
  {
    if ns != [] {
      VersesPlain(ns[1..], chapter);
    }
  }

  lemma {:induction false} RowPlain(cells: seq<Node>, t: nat, r: nat, c: nat, chapter: Option<string>)
    requires PlainVerses(cells) && PlainName(Show(chapter))
    ensures PlainTags(RowTags(cells, t, r, c, chapter))
    decreases cells
  {
    if cells != [] && cells[0].Elem? {
      VersesPlain(cells[0].kids, chapter);
      assert PlainVerses([cells[0]]);
      VersesPlain([cells[0]], chapter);
      RowPlain(cells[1..], t, r, c + 1, chapter);
    }
  }

  lemma {:induction false} TablePlain(rows: seq<Node>, t: nat, r: nat, chapter: Option<string>)
    requires PlainVerses(rows) && PlainName(Show(chapter))
    ensures PlainTags(TableTags(rows, t, r, chapter))
    decreases rows
  {
    if rows != [] && rows[0].Elem? {
      RowPlain(rows[0].kids, t, r, 1, chapter);
      TablePlain(rows[1..], t, r + 1, chapter);
    }
  }

  lemma TopPlain(n: Node, s: Numbering)
    requires PlainTop(n) && PlainNumbering(s)
    ensures PlainTags(TopTags(n, s)) && PlainNumbering(Renumbered(n, s))
  {
    hide TableTags, VerseTags, PlainTag, CutAt, ParseInt, HoldsVerses;
    if !IsBlock(n) {
      VersesPlain([n], s.chapter);
    } else if n.name == "table" {
      TablePlain(n.kids, s.tables + 1, 1, s.chapter);
    } else if n.name == "chapter" {
      ParsedChars(Attr(n, "number").value);
      assert !IntegerChar('_') && !IntegerChar('/');
    } else {
      VersesPlain(n.kids, s.chapter);
      ParaPlain(n, s);
    }
  }

  lemma ParaPlain(n: Node, s: Numbering)
    requires n.Elem? && PlainName(Show(Attr(n, "style")))
    ensures PlainTag(ParaTagOf(n, s))
  {
    hide HoldsVerses;
    if s.curRef.Some? {
      CutIsPlain(s.curRef.value, '/');
    }
  }

  lemma {:induction false} SectionPlain(ns: seq<Node>, s: Numbering)
    requires PlainSection(ns) && PlainNumbering(s)
    ensures PlainTags(SectionTags(ns, s))
    decreases ns
  {
    if ns != [] {
      TopPlain(ns[0], s);
      SectionPlain(ns[1..], Renumbered(ns[0], s));
    }
  }

  /** The references a section issues are pairwise distinct strings, if its verses are pairwise distinct. */
  lemma {:induction false} ReferencesDistinct(ns: seq<Node>, tables: nat)
    requires PlainSection(ns)
    ensures var tags := SectionTags(ns, Fresh(tables)); VersesApart(tags) <==> Distinct(TagRefs(tags))
  {
    SectionApart(ns, Fresh(tables));
    SectionPlain(ns, Fresh(tables));
    TagsDistinct(SectionTags(ns, Fresh(tables)));
  }

  lemma TagsDistinct(tags: seq<Tag>)
    requires NumberedApart(tags) && PlainTags(tags)
    ensures VersesApart(tags) <==> Distinct(TagRefs(tags))
  {
    hide PlainTag, TagRef;
    var refs := TagRefs(tags);
    forall i, j | 0 <= i < j < |refs|
      ensures refs[i] == refs[j] <==> tags[i] == tags[j]
    {
      if refs[i] == refs[j] {
        RefInjective(tags[i], tags[j]);
      }
    }
    if !VersesApart(tags) {
      var i, j :| 0 <= i < j < |tags| && tags[i].VerseTag? && tags[i] == tags[j];
      assert refs[i] == refs[j];
    }
  }

  // ----- what distinct runs mean for the ops

  lemma {:induction false} InRuns(ops: seq<Op>, i: nat)
    requires i < |ops| && ops[i].fmt.segment.Some?
    ensures ops[i].fmt.segment.value in RunsOf(ops)
    decreases |ops|
  {
    var front := ops[..|ops| - 1];
    if i < |front| {
      InRuns(front, i);
    } else if front != [] && Last(front).fmt.segment == Last(ops).fmt.segment {
      InRuns(front, |front| - 1);
    }
  }

  lemma DistinctPrefix(a: seq<string>, b: seq<string>)
    requires a <= b && Distinct(b)
    ensures Distinct(a)
  {
  }

  lemma NotRepeated(refs: seq<string>, r: string)
    requires Distinct(refs + [r])
    ensures r !in refs
  {
    var all := refs + [r];
    assert forall p :: 0 <= p < |refs| ==> all[p] == refs[p] && all[p] != all[|refs|];
  }

  /** The ops with one reference follow each other without a gap. */
  lemma {:induction false} RunsAreContiguous(ops: seq<Op>, i: nat, j: nat, k: nat)
    requires Distinct(RunsOf(ops)) && i <= j <= k < |ops|
    requires ops[i].fmt.segment.Some? && ops[i].fmt.segment == ops[k].fmt.segment
    ensures ops[j].fmt.segment == ops[i].fmt.segment
    decreases |ops|
  {
    var front := ops[..|ops| - 1];
    var runs := RunsOf(front);
    DistinctPrefix(runs, RunsOf(ops));
    if k < |front| {
      RunsAreContiguous(front, i, j, k);
    } else if i < k {
      InRuns(front, i);
      if Last(front).fmt.segment == Last(ops).fmt.segment {
        if j < |front| {
          RunsAreContiguous(front, i, j, |front| - 1);
        }
      } else {
        NotRepeated(runs, ops[i].fmt.segment.value);
        assert false;
      }
    }
  }

  /** The ops with one reference follow each other without a gap, whatever the reference. */
  predicate Unbroken(ops: seq<Op>) {
    forall i, j, k | 0 <= i <= j <= k < |ops| && ops[i].fmt.segment.Some? ::
      ops[i].fmt.segment == ops[k].fmt.segment ==> ops[j].fmt.segment == ops[i].fmt.segment
  }

  lemma {:induction false} RunHasOp(ops: seq<Op>, r: string) returns (i: nat)
    requires r in RunsOf(ops)
    ensures i < |ops| && ops[i].fmt.segment == Some(r)
    decreases |ops|
  {
    var front := ops[..|ops| - 1];
    if r in RunsOf(front) { i := RunHasOp(front, r); } else { i := |ops| - 1; }
  }

  /** References have one run each exactly if their ops are unbroken. */
  lemma {:induction false} UnbrokenDistinct(ops: seq<Op>)
    ensures Unbroken(ops) <==> Distinct(RunsOf(ops))
    decreases |ops|
  {
    if Distinct(RunsOf(ops)) {
      forall i, j, k | 0 <= i <= j <= k < |ops| && ops[i].fmt.segment.Some? && ops[i].fmt.segment == ops[k].fmt.segment
        ensures ops[j].fmt.segment == ops[i].fmt.segment
      {
        RunsAreContiguous(ops, i, j, k);
      }
    } else if ops != [] && Unbroken(ops) {
      UnbrokenFront(ops);
    }
  }

  lemma {:induction false} UnbrokenFront(ops: seq<Op>)
    requires ops != [] && Unbroken(ops)
    ensures Distinct(RunsOf(ops))
    decreases |ops|
  {
    var front, last := ops[..|ops| - 1], Last(ops).fmt.segment;
    if front != [] {
      assert Unbroken(front);
      UnbrokenFront(front);
      if last.Some? && last.value in RunsOf(front) {
        var i := RunHasOp(front, last.value);
        assert ops[i].fmt.segment == ops[|ops| - 1].fmt.segment;
        assert Last(front).fmt.segment == last;
      }
    }
  }

  /**
   * In the delta of a section that comes back and whose verses are distinct, each reference labels one unbroken run of
   * ops exactly if every run of loose nodes begins where no reference is current; then a blank is the only op with its
   * reference.
   */
  lemma {:induction false} SegmentsOfDelta(s: OrderedMerge.Section, d: ChapterDelta, tables: nat)
    requires LabelledIfFree(s, d, tables) && SectionStands(s.nodes) && PlainSection(s.nodes)
    requires VersesApart(SectionTags(s.nodes, Fresh(tables)))
    ensures Unbroken(d.ops) <==> RunsFree(s.nodes, tables)
    ensures RunsFree(s.nodes, tables) ==>
      forall i, j | 0 <= i < |d.ops| && 0 <= j < |d.ops| && i != j && d.ops[i].fmt.segment.Some? ::
        d.ops[i].insert.Blank? ==> d.ops[j].fmt.segment != d.ops[i].fmt.segment
  {
    hide SectionTags, RunsOf, PlainSection, SectionStands, RunsFree;
    ReferencesDistinct(s.nodes, tables);
    UnbrokenDistinct(d.ops);
    if RunsFree(s.nodes, tables) { BlanksApart(d.ops); }
  }

  lemma BlanksApart(ops: seq<Op>)
    requires Unbroken(ops) && BlanksAlone(ops)
    ensures forall i, j | 0 <= i < |ops| && 0 <= j < |ops| && i != j && ops[i].fmt.segment.Some? ::
      ops[i].insert.Blank? ==> ops[j].fmt.segment != ops[i].fmt.segment
  {
    hide BlanksAlone, Unbroken;
    forall i, j | 0 <= i < |ops| && 0 <= j < |ops| && i != j && ops[i].insert.Blank? && ops[i].fmt.segment.Some?
      ensures ops[j].fmt.segment != ops[i].fmt.segment
    {
      if ops[j].fmt.segment == ops[i].fmt.segment { NotBesideBlank(ops, i, j); }
    }
  }

  lemma NotBesideBlank(ops: seq<Op>, i: nat, j: nat)
    requires Unbroken(ops) && i < |ops| && j < |ops| && i != j && ops[i].fmt.segment.Some?
    requires ops[j].fmt.segment == ops[i].fmt.segment
    ensures !(ops[i].insert.Blank? && BlanksAlone(ops))
  {
    var k := if i < j then i + 1 else i - 1;
    assert ops[k].fmt.segment == ops[i].fmt.segment;
  }
}
