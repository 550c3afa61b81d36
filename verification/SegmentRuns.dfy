/**
 * Which ops carry which segment reference. A paragraph, cell or verse issues a reference; ops inserted from then on
 * carry it, and a segment that would get no op gets a blank. The ops that carry one reference are a run; here the runs
 * of a delta are shown to be the references that were issued, one run each and in that order, through blocks, and what
 * loose nodes add to them.
 */
module SegmentRuns {
  import opened Wrappers
  import opened Decimal
  import opened UsxNodes
  import opened RichText
  import opened ChapterWalk
  import opened VersePlaces
  import opened Grammar

  /** The references of the maximal runs of ops that carry the same one, in order. */
  function RunsOf(ops: seq<Op>): seq<string> {
    if ops == [] then []
    else
      var front := ops[..|ops| - 1];
      var segment := Last(ops).fmt.segment;
      if segment.None? || (front != [] && Last(front).fmt.segment == segment) then RunsOf(front)
      else RunsOf(front) + [segment.value]
  }

  /** A blank stands for a segment that has nothing else. */
  predicate BlanksAlone(ops: seq<Op>) {
    forall i :: 0 < i < |ops| && (ops[i].insert.Blank? || ops[i - 1].insert.Blank?) ==>
                  ops[i].fmt.segment.None? || ops[i - 1].fmt.segment != ops[i].fmt.segment
  }

  // ----- the references a section issues

  datatype Tag =
    | ParaTag(base: Option<string>, style: string, id: nat)
    | VerseTag(chapter: string, number: string)
    | CellTag(table: nat, row: nat, cell: nat)

  function TagRef(tag: Tag): string {
    match tag
    case ParaTag(base, style, id) => ParaRef(if base.Some? then base.value + "/" + style else style, id)
    case VerseTag(chapter, number) => "verse_" + chapter + "_" + number
    case CellTag(t, r, c) => CellRef(t, r, c)
  }

  function TagRefs(tags: seq<Tag>): (refs: seq<string>)
    ensures |refs| == |tags| && forall i :: 0 <= i < |tags| ==> refs[i] == TagRef(tags[i])
  {
    if tags == [] then [] else [TagRef(tags[0])] + TagRefs(tags[1..])
  }

  /** What numbers the next segment. */
  datatype Numbering = Numbering(curRef: Option<string>, chapter: Option<string>, nextIds: map<string, nat>,
                                 tables: nat)

  function VerseTags(ns: seq<Node>, chapter: Option<string>): seq<Tag> {
    if ns == [] then []
    else
      (if IsElement(ns[0], "verse") then [VerseTag(Show(chapter), Show(Attr(ns[0], "number")))] else [])
      + VerseTags(ns[1..], chapter)
  }

  function LastRef(tags: seq<Tag>): Option<string> {
    if tags == [] then None else Some(TagRef(tags[|tags| - 1]))
  }

  function ParaTagOf(n: Node, s: Numbering): Tag
    requires n.Elem?
  {
    var style := Attr(n, "style");
    if HoldsVerses(style) && s.curRef.Some? then
      var base := CutAt(s.curRef.value, '/');
      ParaTag(Some(base), Show(style), NextId(s.nextIds, base))
    else ParaTag(None, Show(style), NextId(s.nextIds, Show(style)))
  }

  function TagKey(tag: Tag): string
    requires tag.ParaTag?
  {
    if tag.base.Some? then tag.base.value else tag.style
  }

  function CellTags(cell: Node, t: nat, r: nat, c: nat, chapter: Option<string>): seq<Tag>
    requires cell.Elem?
  {
    [CellTag(t, r, c)] + (if cell.name == "cell" then VerseTags(cell.kids, chapter) else VerseTags([cell], chapter))
  }

  function RowTags(cells: seq<Node>, t: nat, r: nat, c: nat, chapter: Option<string>): seq<Tag> {
    if cells == [] || cells[0].Text? then []
    else CellTags(cells[0], t, r, c, chapter) + RowTags(cells[1..], t, r, c + 1, chapter)
  }

  function TableTags(rows: seq<Node>, t: nat, r: nat, chapter: Option<string>): seq<Tag> {
    if rows == [] || rows[0].Text? then []
    else RowTags(rows[0].kids, t, r, 1, chapter) + TableTags(rows[1..], t, r + 1, chapter)
  }

  /** The references that one top-level node issues. */
  function TopTags(n: Node, s: Numbering): seq<Tag> {
    if !IsBlock(n) then VerseTags([n], s.chapter)
    else if n.name == "chapter" then []
    else if n.name == "table" then TableTags(n.kids, s.tables + 1, 1, s.chapter)
    else [ParaTagOf(n, s)] + VerseTags(n.kids, s.chapter)
  }

  function Renumbered(n: Node, s: Numbering): Numbering {
    if !IsBlock(n) then s.(curRef := if IsElement(n, "verse") then LastRef(TopTags(n, s)) else s.curRef)
    else if n.name == "chapter" then s.(curRef := None, chapter := Attr(n, "number"))
    else if n.name == "table" then s.(curRef := None, tables := s.tables + 1)
    else
      var tag := ParaTagOf(n, s);
      s.(curRef := if HoldsVerses(Attr(n, "style")) then LastRef(TopTags(n, s)) else None,
         nextIds := s.nextIds[TagKey(tag) := tag.id + 1])
  }

  function SectionTags(ns: seq<Node>, s: Numbering): seq<Tag> {
    if ns == [] then [] else TopTags(ns[0], s) + SectionTags(ns[1..], Renumbered(ns[0], s))
  }

  function NumberedAfter(ns: seq<Node>, s: Numbering): Numbering {
    if ns == [] then s else NumberedAfter(ns[1..], Renumbered(ns[0], s))
  }

  /** The numbering a section starts with. */
  function Fresh(tables: nat): Numbering {
    Numbering(None, None, map[], tables)
  }

  // ----- one op more

  lemma RunsSnoc(ops: seq<Op>, op: Op)
    ensures RunsOf(ops + [op]) ==
            if op.fmt.segment.None? || (ops != [] && Last(ops).fmt.segment == op.fmt.segment) then RunsOf(ops)
            else RunsOf(ops) + [op.fmt.segment.value]
  {
    assert (ops + [op])[..|ops|] == ops;
  }

  lemma BlanksSnoc(ops: seq<Op>, op: Op)
    requires BlanksAlone(ops)
    requires ops == [] || op.fmt.segment.None? || Last(ops).fmt.segment != op.fmt.segment
             || !(op.insert.Blank? || Last(ops).insert.Blank?)
    ensures BlanksAlone(ops + [op])
  {
  }

  /** Whether text is merged into the last op or not makes no difference here. */
  lemma AppendedRuns(ops: seq<Op>, op: Op)
    requires op.insert != Str("") && BlanksAlone(ops)
    requires ops == [] || op.fmt.segment.None? || Last(ops).fmt.segment != op.fmt.segment
             || !(op.insert.Blank? || Last(ops).insert.Blank?)
    ensures var r := Appended(ops, op);
            r != [] && RunsOf(r) == RunsOf(ops + [op]) && BlanksAlone(r)
            && Last(r).fmt == op.fmt && EndsSegment(Last(r)) == EndsSegment(op)
            && Last(r).insert.Blank? == op.insert.Blank?
  {
    hide RunsOf, BlanksAlone;
    if op.insert.Str? && Merges(ops, op.fmt) {
      assert ops == ops[..|ops| - 1] + [Last(ops)];
      MergedRuns(ops[..|ops| - 1], Last(ops), op);
    } else {
      BlanksSnoc(ops, op);
    }
  }

  lemma MergedRuns(front: seq<Op>, last: Op, op: Op)
    requires BlanksAlone(front + [last]) && last.insert.Str? && op.insert.Str? && last.fmt == op.fmt
    ensures var longer := Op(Str(last.insert.text + op.insert.text), op.fmt);
            RunsOf(front + [longer]) == RunsOf(front + [last] + [op]) && BlanksAlone(front + [longer])
  {
    hide RunsOf;
    var longer := Op(Str(last.insert.text + op.insert.text), op.fmt);
    RunsSnoc(front, last);
    RunsSnoc(front, longer);
    RunsSnoc(front + [last], op);
    var ops, r := front + [last], front + [longer];
    assert forall i :: 0 <= i < |r| ==> r[i].fmt == ops[i].fmt && r[i].insert.Blank? == ops[i].insert.Blank?;
  }

  // ----- inside a segment

  /** The current reference has been issued, and either labels the last op or waits for its first one. */
  ghost predicate InSegment(w: Walk, issued: seq<string>) {
    w.curRef.Some? && BlanksAlone(w.ops)
    && (Labelling(w, issued) || Waiting(w, issued))
  }

  ghost predicate Labelling(w: Walk, issued: seq<string>) {
    w.ops != [] && Last(w.ops).fmt.segment == w.curRef && !EndsSegment(Last(w.ops)) && !Last(w.ops).insert.Blank?
    && RunsOf(w.ops) == issued
  }

  ghost predicate Waiting(w: Walk, issued: seq<string>)
    requires w.curRef.Some?
  {
    BetweenSegments(w.ops) && issued == RunsOf(w.ops) + [w.curRef.value]
  }

  predicate BetweenSegments(ops: seq<Op>) {
    ops == [] || (EndsSegment(Last(ops)) && Last(ops).fmt.segment.None? && !Last(ops).insert.Blank?)
  }

  /** An op with the current reference. */
  lemma LabelledOp(w: Walk, op: Op, issued: seq<string>)
    requires InSegment(w, issued) && op.insert != Str("") && op.fmt.segment == w.curRef
    requires !EndsSegment(op) && !op.insert.Blank?
    ensures InSegment(w.(ops := Appended(w.ops, op)), issued) && Labelling(w.(ops := Appended(w.ops, op)), issued)
  {
    AppendedRuns(w.ops, op);
    RunsSnoc(w.ops, op);
  }

  /** A segment that got nothing gets a blank; then anything without a reference may follow. */
  lemma EndedSegment(w: Walk, op: Op, issued: seq<string>)
    requires InSegment(w, issued) && op.insert != Str("") && op.fmt.segment.None? && EndsSegment(op)
      && !op.insert.Blank?
    ensures var ops := Appended(SegmentEnded(w.ops, w.curRef), op);
            BlanksAlone(ops) && BetweenSegments(ops) && RunsOf(ops) == issued
  {
    var blank := Op(Blank, PLAIN.(segment := w.curRef));
    if Waiting(w, issued) {
      AppendedRuns(w.ops, blank);
      RunsSnoc(w.ops, blank);
    }
    var ended := SegmentEnded(w.ops, w.curRef);
    AppendedRuns(ended, op);
    RunsSnoc(ended, op);
  }

  /** Within a segment of a chapter: what the walk over inline nodes keeps. */
  ghost predicate InlineSegments(w: Walk, w1: Walk, issued: seq<string>, tags: seq<Tag>) {
    InSegment(w1, issued + TagRefs(tags))
    && w1.curRef == (if tags == [] then w.curRef else LastRef(tags))
    && w1 == w.(ops := w1.ops, curRef := w1.curRef, nextGuid := w1.nextGuid, lastVerse := w1.lastVerse)
  }

  lemma {:induction false} NodeSegments(n: Node, w: Walk, f: Fmt, issued: seq<string>)
    requires Inline(n, f.chars != []) && InSegment(w, issued)
    requires f.segment.None? && f.block.None? && f.table.None?
    ensures InlineSegments(w, WalkNode(n, w, f), issued, VerseTags([n], w.curChapter))
    ensures !IsElement(n, "verse") ==> VerseTags([n], w.curChapter) == [] && Labelling(WalkNode(n, w, f), issued)
    decreases n, 1
  {
    hide RunsOf, BlanksAlone, WalkChar, WalkEmbed, WalkTable, SegmentEnded;
    assert issued + [] == issued;
    if n.Text? {
      assert n.value[|n.value| - 1] in n.value;
      LabelledOp(w, Op(Str(n.value), WithSegment(f, w.curRef)), issued);
    } else if n.name == "ref" {
      var text := n.kids[0].value;
      assert TextOf(n.kids) == text + TextOf(n.kids[1..]) == text;
      assert text[|text| - 1] in text;
      LabelledOp(w, Op(Str(text), WithSegment(InlineInvalid(f.(ref := Some(n.attrs)), n.invalid), w.curRef)), issued);
    } else if n.name == "verse" {
      VerseSegment(n, w, issued);
    } else if n.name == "char" {
      CharSegments(n, w, f, issued);
    } else {
      EmbedSegment(n, w, f, issued);
    }
  }

  lemma VerseSegment(n: Node, w: Walk, issued: seq<string>)
    requires IsElement(n, "verse") && InSegment(w, issued)
    ensures InlineSegments(w, VerseInserted(n.attrs, n.invalid, w), issued, VerseTags([n], w.curChapter))
  {
    EndedSegment(w, Op(Embed("verse", n.attrs, []), InlineInvalid(PLAIN, n.invalid)), issued);
    assert VerseTags([n], w.curChapter) == [VerseTag(Show(w.curChapter), Show(Attr(n, "number")))];
  }

  lemma {:induction false} CharSegments(n: Node, w: Walk, f: Fmt, issued: seq<string>)
    requires IsElement(n, "char") && Inline(n, f.chars != []) && InSegment(w, issued)
    requires f.segment.None? && f.block.None? && f.table.None?
    ensures InlineSegments(w, WalkChar(n, w, f), issued, []) && Labelling(WalkChar(n, w, f), issued)
    decreases n, 0
  {
    hide RunsOf, BlanksAlone, BetweenSegments, WalkNodes, Appended;
    var g := CharFmt(n.attrs, n.invalid, w.nextGuid, f);
    var w0 := w.(nextGuid := w.nextGuid + 1);
    assert InSegment(w0, issued) && issued + [] == issued;
    if n.kids == [] {
      LabelledOp(w0, Op(Empty, g.(segment := w0.curRef)), issued);
    } else {
      InlinesSegments(n.kids, w0, g, issued);
      NoVerses(n.kids, w.curChapter);
      NoTags(issued, w.curChapter);
    }
  }

  lemma {:induction false} NoVerses(ns: seq<Node>, chapter: Option<string>)
    requires Inlines(ns, true)
    ensures VerseTags(ns, chapter) == [] && (ns != [] ==> !IsElement(ns[|ns| - 1], "verse"))
  {
    if ns != [] {
      NoVerses(ns[1..], chapter);
    }
  }

  lemma EmbedSegment(n: Node, w: Walk, f: Fmt, issued: seq<string>)
    requires n.Elem? && n.name !in {"verse", "chapter"} && InSegment(w, issued)
    requires f.segment.None? && f.block.None? && f.table.None?
    ensures InlineSegments(w, WalkEmbed(n, w, f), issued, []) && Labelling(WalkEmbed(n, w, f), issued)
  {
    hide WalkNodes, RunsOf, BlanksAlone;
    var inner := WalkNodes(n.kids, FreshState([], w.nextGuid), PLAIN);
    assert issued + [] == issued;
    LabelledOp(w, Op(Embed(n.name, n.attrs, inner.ops), WithSegment(InlineInvalid(f, n.invalid), w.curRef)), issued);
  }

  lemma {:induction false} InlinesSegments(ns: seq<Node>, w: Walk, f: Fmt, issued: seq<string>)
    requires Inlines(ns, f.chars != []) && InSegment(w, issued)
    requires f.segment.None? && f.block.None? && f.table.None?
    ensures InlineSegments(w, WalkNodes(ns, w, f), issued, VerseTags(ns, w.curChapter))
    ensures ns != [] && !IsElement(ns[|ns| - 1], "verse") ==>
      Labelling(WalkNodes(ns, w, f), issued + TagRefs(VerseTags(ns, w.curChapter)))
    decreases ns, 0
  {
    hide WalkNode, RunsOf, BlanksAlone, InSegment, TagRefs, VerseTags, Inline, Labelling;
    if ns == [] {
      NoTags(issued, w.curChapter);
    } else {
      var w1 := WalkNode(ns[0], w, f);
      NodeSegments(ns[0], w, f, issued);
      var first, rest := VerseTags([ns[0]], w.curChapter), VerseTags(ns[1..], w.curChapter);
      InlinesSegments(ns[1..], w1, f, issued + TagRefs(first));
      if |ns| == 1 {
        assert ns == [ns[0]];
        NoTags(issued, w.curChapter);
      }
      VerseTagsHead(ns, w.curChapter);
      TagRefsAppend(first, rest);
      assert issued + TagRefs(first) + TagRefs(rest) == issued + TagRefs(first + rest);
    }
  }

  lemma NoTags(issued: seq<string>, chapter: Option<string>)
    ensures VerseTags([], chapter) == [] && issued + TagRefs([]) == issued
  {
  }

  lemma VerseTagsHead(ns: seq<Node>, chapter: Option<string>)
    requires ns != []
    ensures VerseTags(ns, chapter) == VerseTags([ns[0]], chapter) + VerseTags(ns[1..], chapter)
  {
    assert [ns[0]][1..] == [];
  }

  lemma {:induction false} TagRefsAppend(a: seq<Tag>, b: seq<Tag>)
    ensures TagRefs(a + b) == TagRefs(a) + TagRefs(b)
  {
    if a == [] {
      assert a + b == b && TagRefs(a) + TagRefs(b) == TagRefs(b);
    } else {
      assert (a + b)[0] == a[0] && (a + b)[1..] == a[1..] + b;
      TagRefsAppend(a[1..], b);
    }
  }

  // ----- outside any segment

  /** No reference is current, and the last op carries none. */
  ghost predicate Unlabelled(w: Walk, runs: seq<string>) {
    w.curRef.None? && BlanksAlone(w.ops) && RunsOf(w.ops) == runs
    && (w.ops != [] ==> Last(w.ops).fmt.segment.None? && !Last(w.ops).insert.Blank?)
  }

  lemma UnlabelledOp(w: Walk, op: Op, runs: seq<string>)
    requires Unlabelled(w, runs) && op.insert != Str("") && op.fmt.segment.None? && !op.insert.Blank?
    ensures Unlabelled(w.(ops := Appended(w.ops, op)), runs)
  {
    AppendedRuns(w.ops, op);
    RunsSnoc(w.ops, op);
  }

  lemma {:induction false} NodeUnlabelled(n: Node, w: Walk, f: Fmt, runs: seq<string>)
    requires Inline(n, f.chars != []) && !IsElement(n, "verse") && Unlabelled(w, runs) && f.segment.None?
    ensures Unlabelled(WalkNode(n, w, f), runs)
    decreases n, 1
  {
    hide RunsOf, BlanksAlone, WalkNodes;
    if n.Text? {
      UnlabelledOp(w, Op(Str(n.value), f), runs);
    } else if n.name == "ref" {
      var text := n.kids[0].value;
      assert TextOf(n.kids) == text + TextOf(n.kids[1..]) == text;
      UnlabelledOp(w, Op(Str(text), InlineInvalid(f.(ref := Some(n.attrs)), n.invalid)), runs);
    } else if n.name == "char" {
      CharUnlabelled(n, w, f, runs);
    } else {
      var inner := WalkNodes(n.kids, FreshState([], w.nextGuid), PLAIN);
      UnlabelledOp(w, Op(Embed(n.name, n.attrs, inner.ops), InlineInvalid(f, n.invalid)), runs);
    }
  }

  lemma {:induction false} CharUnlabelled(n: Node, w: Walk, f: Fmt, runs: seq<string>)
    requires IsElement(n, "char") && Inline(n, f.chars != []) && Unlabelled(w, runs) && f.segment.None?
    ensures Unlabelled(WalkChar(n, w, f), runs)
    decreases n, 0
  {
    hide RunsOf, BlanksAlone;
    var g := CharFmt(n.attrs, n.invalid, w.nextGuid, f);
    var w0 := w.(nextGuid := w.nextGuid + 1);
    if n.kids == [] {
      UnlabelledOp(w0, Op(Empty, g.(segment := None)), runs);
    } else {
      InlinesUnlabelled(n.kids, w0, g, runs);
    }
  }

  lemma {:induction false} InlinesUnlabelled(ns: seq<Node>, w: Walk, f: Fmt, runs: seq<string>)
    requires Inlines(ns, true) && f.chars != [] && Unlabelled(w, runs) && f.segment.None?
    ensures Unlabelled(WalkNodes(ns, w, f), runs)
    decreases ns, 0
  {
    hide RunsOf, BlanksAlone, WalkNode, Unlabelled;
    if ns != [] {
      NodeUnlabelled(ns[0], w, f, runs);
      InlinesUnlabelled(ns[1..], WalkNode(ns[0], w, f), f, runs);
    }
  }

  // ----- loose nodes

  /** Among loose nodes, which may be in a segment or not. */
  ghost predicate LooseAt(w: Walk, runs: seq<string>) {
    if w.curRef.None? then Unlabelled(w, runs) else InSegment(w, runs)
  }

  /** The first loose node after a block goes on with the block's reference, if one is still current. */
  lemma LooseStarted(w: Walk, runs: seq<string>)
    requires AtBlock(w, runs)
    ensures LooseAt(w, if w.curRef.None? then runs else runs + [w.curRef.value])
  {
  }

  /** One more loose node. */
  lemma {:induction false} LooseSegments(n: Node, w: Walk, runs: seq<string>)
    requires LooseAt(w, runs) && Inline(n, false)
    ensures var w1, tags := WalkNode(n, w, PLAIN), VerseTags([n], w.curChapter);
      && LooseAt(w1, runs + TagRefs(tags))
      && w1.curRef == (if tags == [] then w.curRef else LastRef(tags))
      && (IsElement(n, "verse") <==> tags != [])
      && (tags == [] && w1.curRef.Some? ==> Labelling(w1, runs))
  {
    hide RunsOf, BlanksAlone, SegmentEnded, WalkChar, WalkEmbed;
    assert runs + [] == runs;
    if w.curRef.Some? {
      NodeSegments(n, w, PLAIN, runs);
    } else if IsElement(n, "verse") {
      VerseStarts(n, w, runs);
    } else {
      NodeUnlabelled(n, w, PLAIN, runs);
    }
  }

  lemma VerseStarts(n: Node, w: Walk, runs: seq<string>)
    requires IsElement(n, "verse") && Unlabelled(w, runs)
    ensures var w1, tags := VerseInserted(n.attrs, n.invalid, w), VerseTags([n], w.curChapter);
      tags != [] && InSegment(w1, runs + TagRefs(tags)) && w1.curRef == LastRef(tags)
  {
    var op := Op(Embed("verse", n.attrs, []), InlineInvalid(PLAIN, n.invalid));
    hide RunsOf, BlanksAlone, Appended;
    AppendedRuns(w.ops, op);
    RunsSnoc(w.ops, op);
    var tags := VerseTags([n], w.curChapter);
    assert [n][1..] == [] && VerseTags([], w.curChapter) == [];
    assert tags == [VerseTag(Show(w.curChapter), Show(Attr(n, "number")))];
    assert TagRefs(tags) == [TagRef(tags[0])];
  }

  /** The line break that ends loose nodes. */
  lemma LooseEnded(w: Walk, runs: seq<string>)
    requires LooseAt(w, runs) && w.implied
    ensures AtBlock(ImpliedEnded(w), runs) && ImpliedEnded(w) == w.(ops := ImpliedEnded(w).ops, implied := false)
  {
    var op := Op(Str("\n"), PLAIN);
    if w.curRef.Some? {
      EndedSegment(w, op, runs);
    } else {
      AppendedRuns(w.ops, op);
      RunsSnoc(w.ops, op);
    }
  }

  // ----- blocks and sections

  /** Between two blocks of a section. */
  ghost predicate AtBlock(w: Walk, issued: seq<string>) {
    BlanksAlone(w.ops) && BetweenSegments(w.ops) && RunsOf(w.ops) == issued && !w.implied
  }

  ghost predicate BlockSegments(w: Walk, w1: Walk, issued: seq<string>, tags: seq<Tag>) {
    AtBlock(w1, issued + TagRefs(tags)) && w1.curChapter == w.curChapter && w1.tableIndex == w.tableIndex
  }

  lemma SegmentStarted(w: Walk, issued: seq<string>, tag: Tag)
    requires AtBlock(w, issued)
    ensures InSegment(w.(curRef := Some(TagRef(tag))), issued + TagRefs([tag]))
  {
    assert TagRefs([tag]) == [TagRef(tag)];
  }

  /** The line break that ends a paragraph or a cell. */
  lemma SegmentClosed(w: Walk, w1: Walk, issued: seq<string>, tag: Tag, verses: seq<Tag>, op: Op)
    requires InlineSegments(w, w1, issued + TagRefs([tag]), verses)
    requires op.insert == Str("\n") && op.fmt.segment.None?
    ensures var ops := Appended(SegmentEnded(w1.ops, w1.curRef), op);
            BlanksAlone(ops) && BetweenSegments(ops) && RunsOf(ops) == issued + TagRefs([tag] + verses)
    ensures w.curRef == LastRef([tag]) ==> w1.curRef == LastRef([tag] + verses)
  {
    hide RunsOf, BlanksAlone, BetweenSegments, SegmentEnded, Appended, TagRefs;
    TagRefsAppend([tag], verses);
    assert issued + TagRefs([tag]) + TagRefs(verses) == issued + TagRefs([tag] + verses);
    EndedSegment(w1, op, issued + TagRefs([tag] + verses));
  }

  lemma ParaBodySegments(n: Node, w: Walk, issued: seq<string>, tag: Tag)
    requires AtBlock(w, issued) && TopLevel(n) && n.name in {"para", "book"}
    ensures var tags := [tag] + VerseTags(n.kids, w.curChapter);
            var w1 := WalkParaBody(n, w.(curRef := Some(TagRef(tag))));
            BlockSegments(w, w1, issued, tags)
            && w1.curRef == (if HoldsVerses(Attr(n, "style")) then LastRef(tags) else None)
  {
    hide RunsOf, BlanksAlone, VerseTags, BetweenSegments, WalkNodes, SegmentEnded, Appended, InSegment, TagRefs, TagRef;
    hide CanParaContainVerseText, HoldsVerses;
    VerseStyles(Attr(n, "style"));
    var w0 := w.(curRef := Some(TagRef(tag)));
    SegmentStarted(w, issued, tag);
    InlinesSegments(n.kids, w0, PLAIN, issued + TagRefs([tag]));
    SegmentClosed(w0, WalkNodes(n.kids, w0, PLAIN), issued, tag, VerseTags(n.kids, w.curChapter),
        Op(Str("\n"), ParaFmt(n)));
  }

  lemma CellSegments(cell: Node, w: Walk, table: Attrs, r: nat, c: nat, invalid: bool, issued: seq<string>)
    requires AtBlock(w, issued) && Cell(cell)
    ensures BlockSegments(w, WalkCell(cell, w, w.tableIndex, table, r, c, invalid), issued,
      CellTags(cell, w.tableIndex, r, c, w.curChapter))
  {
    hide RunsOf, BlanksAlone, VerseTags, BetweenSegments, SegmentEnded, Appended, InSegment, TagRefs, CellRef;
    var tag := CellTag(w.tableIndex, r, c);
    var w0 := w.(curRef := Some(TagRef(tag)));
    SegmentStarted(w, issued, tag);
    var verses := CellVerses(cell, w0, issued + TagRefs([tag]));
    SegmentClosed(w0, WalkNode(cell, w0, PLAIN), issued, tag, verses,
        Op(Str("\n"), CellFmt(cell, w.tableIndex, table, r, invalid)));
  }

  lemma CellVerses(cell: Node, w: Walk, issued: seq<string>) returns (verses: seq<Tag>)
    requires InSegment(w, issued) && Cell(cell)
    ensures InlineSegments(w, WalkNode(cell, w, PLAIN), issued, verses)
    ensures verses == if cell.name == "cell" then VerseTags(cell.kids, w.curChapter)
                       else VerseTags([cell], w.curChapter)
  {
    hide InSegment, VerseTags;
    if cell.name == "cell" {
      InlinesSegments(cell.kids, w, PLAIN, issued);
      verses := VerseTags(cell.kids, w.curChapter);
    } else {
      NodeSegments(cell, w, PLAIN, issued);
      verses := VerseTags([cell], w.curChapter);
    }
  }

  lemma {:induction false} RowSegments(cells: seq<Node>, w: Walk, table: Attrs, r: nat, c: nat, invalid: bool,
                                       issued: seq<string>)
    requires AtBlock(w, issued) && Cells(cells)
    ensures BlockSegments(w, WalkCells(cells, w, w.tableIndex, table, r, c, invalid), issued,
      RowTags(cells, w.tableIndex, r, c, w.curChapter))
    decreases cells
  {
    hide WalkCell, AtBlock, CellTags, TagRefs, Inline, Inlines;
    if cells == [] {
      NoTags(issued, w.curChapter);
    } else {
      var first, rest := CellTags(cells[0], w.tableIndex, r, c, w.curChapter),
          RowTags(cells[1..], w.tableIndex, r, c + 1, w.curChapter);
      CellSegments(cells[0], w, table, r, c, invalid, issued);
      RowSegments(cells[1..], WalkCell(cells[0], w, w.tableIndex, table, r, c, invalid), table, r, c + 1, invalid,
          issued + TagRefs(first));
      TagRefsAppend(first, rest);
      assert issued + TagRefs(first) + TagRefs(rest) == issued + TagRefs(first + rest);
    }
  }

  lemma {:induction false} TableSegments(rows: seq<Node>, w: Walk, table: Attrs, r: nat, invalid: bool,
                                         issued: seq<string>)
    requires AtBlock(w, issued) && Rows(rows)
    ensures BlockSegments(w, WalkRows(rows, w, table, r, invalid), issued,
      TableTags(rows, w.tableIndex, r, w.curChapter))
    decreases rows
  {
    hide WalkCells, AtBlock, RowTags, TagRefs, Cells;
    if rows == [] {
      NoTags(issued, w.curChapter);
    } else {
      var inv := invalid || rows[0].invalid;
      var first, rest := RowTags(rows[0].kids, w.tableIndex, r, 1, w.curChapter),
          TableTags(rows[1..], w.tableIndex, r + 1, w.curChapter);
      RowSegments(rows[0].kids, w, table, r, 1, inv, issued);
      TableSegments(rows[1..], WalkCells(rows[0].kids, w, w.tableIndex, table, r, 1, inv), table, r + 1, invalid,
          issued + TagRefs(first));
      TagRefsAppend(first, rest);
      assert issued + TagRefs(first) + TagRefs(rest) == issued + TagRefs(first + rest);
    }
  }

  function NumberingOf(s: BookWalk): Numbering
    requires s.BookWalk?
  {
    Numbering(s.walk.curRef, s.walk.curChapter, s.nextIds, s.walk.tableIndex)
  }

  /** Reading `s1` off from `s`, a block issued the references of its tags. */
  ghost predicate BlockIssued(n: Node, s: BookWalk, s1: BookWalk, issued: seq<string>)
    requires s.BookWalk? && n.Elem?
  {
    s1.BookWalk? && AtBlock(s1.walk, issued + TagRefs(TopTags(n, NumberingOf(s))))
    && NumberingOf(s1) == Renumbered(n, NumberingOf(s))
  }

  /** One block of a section, other than a chapter that ends it. */
  lemma BlockSegmentsOf(child: Child, s: BookWalk, issued: seq<string>)
    requires s.BookWalk? && AtBlock(s.walk, issued) && TopLevel(child.node)
    requires child.node.name == "chapter" ==> s.walk.curChapter.None?
    ensures BlockIssued(child.node, s, WalkChild(child, s), issued)
  {
    hide WalkPara, WalkChapter, WalkTable, Renumbered, TopTags, TagRefs, RunsOf, BlanksAlone;
    var n := child.node;
    if n.name == "chapter" {
      ChapterSegments(n, s, issued);
    } else if n.name == "table" {
      TableBlockSegments(n, s, issued);
    } else {
      var s0 := if n.name == "book" then s.(bookIsValid := child.isValid) else s;
      ParaSegments(n, s0, issued);
    }
  }

  lemma ChapterSegments(n: Node, s: BookWalk, issued: seq<string>)
    requires s.BookWalk? && AtBlock(s.walk, issued) && TopLevel(n) && n.name == "chapter" && s.walk.curChapter.None?
    ensures BlockIssued(n, s, WalkChapter(n, s), issued)
  {
    NoTags(issued, None);
    var op := Op(Embed("chapter", n.attrs, []), PLAIN.(invalidBlock := n.invalid));
    AppendedRuns(s.walk.ops, op);
    RunsSnoc(s.walk.ops, op);
  }

  lemma TableBlockSegments(n: Node, s: BookWalk, issued: seq<string>)
    requires s.BookWalk? && AtBlock(s.walk, issued) && TopLevel(n) && n.name == "table"
    ensures BlockIssued(n, s, s.(walk := WalkTable(n, s.walk)), issued)
  {
    hide WalkRows, RunsOf, BlanksAlone, TagRefs, TableTags;
    var t := s.walk.tableIndex + 1;
    var w := s.walk.(tableIndex := t);
    TableSegments(n.kids, w, n.attrs["id" := TableId(t)], 1, n.invalid, issued);
  }

  lemma ParaSegments(n: Node, s: BookWalk, issued: seq<string>)
    requires s.BookWalk? && AtBlock(s.walk, issued) && TopLevel(n) && n.name in {"para", "book"}
    ensures BlockIssued(n, s, WalkPara(n, s), issued)
  {
    hide RunsOf, BlanksAlone, BetweenSegments, WalkParaBody, TagRefs, CutAt, ParaRef, HoldsVerses;
    VerseStyles(Attr(n, "style"));
    ParaBodySegments(n, s.walk, issued, ParaTagOf(n, NumberingOf(s)));
  }
}
