/** The walk over a USX book that builds its chapter deltas, updating its state as it goes. */
module ChapterDeltas {
  import opened Wrappers
  import opened Decimal
  import opened UsxNodes
  import opened RichText
  import opened ChapterWalk

  /** Hands out identifiers that were never handed out before. */
  class GuidService {
    var next: nat

    constructor (first: nat)
      ensures next == first
    {
      next := first;
    }

    method Generate() returns (id: string)
      modifies this
      ensures id == Guid(old(next)) && next == old(next) + 1
    {
      id := Render(next);
      next := next + 1;
    }
  }

  class ParseState {
    var curRef: Option<string>
    var curChapter: Option<string>
    var curChapterIsValid: bool
    var tableIndex: nat
    var impliedParagraph: bool
    var lastVerse: int

    constructor ()
      ensures curRef == None && curChapter == None && curChapterIsValid && tableIndex == 0 && !impliedParagraph
      ensures lastVerse == 0
    {
      curRef, curChapter, curChapterIsValid, tableIndex, impliedParagraph, lastVerse := None, None, true, 0, false, 0;
    }

    /** Keeps the last verse if the number cannot be read. */
    method SetLastVerse(number: Option<string>)
      modifies this`lastVerse
      ensures lastVerse == VerseSeen(number, old(lastVerse))
    {
      if number.None? { return; }
      var digits := VerseDigits(number.value);
      var lastVerseInt := ParseInt(if digits == [] then number.value else digits);
      if lastVerseInt.Some? { lastVerse := lastVerseInt.value; }
    }
  }

  function WalkOf(delta: Delta, state: ParseState, guids: GuidService): Walk
    reads delta, state, guids
  {
    WalkWith(delta, state, guids.next)
  }

  function WalkWith(delta: Delta, state: ParseState, next: nat): Walk
    reads delta, state
  {
    Walk(delta.ops, state.curRef, state.curChapter, state.curChapterIsValid, state.tableIndex, state.impliedParagraph,
         next, state.lastVerse)
  }

  method EndSegment(newDelta: Delta, segRef: Option<string>)
    modifies newDelta
    ensures newDelta.ops == SegmentEnded(old(newDelta.ops), segRef)
  {
    if segRef.None? {
      return;
    }
    if |newDelta.ops| == 0 {
      newDelta.InsertBlank(segRef.value);
    } else {
      var lastOp := newDelta.ops[|newDelta.ops| - 1];
      if EndsSegment(lastOp) {
        newDelta.InsertBlank(segRef.value);
      }
    }
  }

  method ProcessChildNodes(kids: seq<Node>, newDelta: Delta, state: ParseState, guids: GuidService, fmt: Fmt)
    modifies newDelta, state, guids
    ensures WalkOf(newDelta, state, guids) == WalkNodes(kids, old(WalkOf(newDelta, state, guids)), fmt)
    decreases kids
  {
    var i := 0;
    while i < |kids|
      invariant 0 <= i <= |kids|
      invariant WalkNodes(kids[i..], WalkOf(newDelta, state, guids), fmt)
             == WalkNodes(kids, old(WalkOf(newDelta, state, guids)), fmt)
    {
      assert kids[i..][0] == kids[i] && kids[i..][1..] == kids[i + 1..];
      ProcessChildNode(kids[i], newDelta, state, guids, fmt);
      i := i + 1;
    }
  }

  method ProcessChildNode(node: Node, newDelta: Delta, state: ParseState, guids: GuidService, fmt: Fmt)
    modifies newDelta, state, guids
    ensures WalkOf(newDelta, state, guids) == WalkNode(node, old(WalkOf(newDelta, state, guids)), fmt)
    decreases node, 1
  {
    match node {
      case Text(value) =>
        newDelta.InsertText(value, state.curRef, fmt);
      case Elem(name, attrs, kids, invalid) =>
        if name == "para" {
          ProcessNestedPara(node, newDelta, state, guids);
        } else if name == "verse" {
          InsertVerse(attrs, invalid, newDelta, state);
        } else if name == "ref" {
          newDelta.InsertText(TextOf(kids), state.curRef, InlineInvalid(fmt.(ref := Some(attrs)), invalid));
        } else if name == "char" {
          ProcessChar(node, newDelta, state, guids, fmt);
        } else if name == "table" {
          ProcessTable(node, newDelta, state, guids);
        } else if name == "cell" {
          ProcessChildNodes(kids, newDelta, state, guids, PLAIN);
        } else {
          InsertEmbed(node, newDelta, state, guids, fmt);
        }
    }
  }

  method ProcessNestedPara(elem: Node, newDelta: Delta, state: ParseState, guids: GuidService)
    requires elem.Elem?
    modifies newDelta, state, guids
    ensures WalkOf(newDelta, state, guids) == WalkNestedPara(elem, old(WalkOf(newDelta, state, guids)))
    decreases elem, 0
  {
    var innerState := new ParseState();
    ProcessChildNodes(elem.kids, newDelta, innerState, guids, PLAIN);
    InsertPara(elem, newDelta, state);
  }

  method ProcessChar(elem: Node, newDelta: Delta, state: ParseState, guids: GuidService, fmt: Fmt)
    requires elem.Elem?
    modifies newDelta, state, guids
    ensures WalkOf(newDelta, state, guids) == WalkChar(elem, old(WalkOf(newDelta, state, guids)), fmt)
    decreases elem, 0
  {
    var newCharAttrs := elem.attrs;
    if "cid" !in newCharAttrs {
      var cid := guids.Generate();
      newCharAttrs := newCharAttrs["cid" := cid];
    }
    var newChildFmt := InlineInvalid(fmt.(chars := fmt.chars + [newCharAttrs]), elem.invalid);
    if elem.kids == [] {
      newDelta.InsertEmpty(state.curRef, newChildFmt);
    } else {
      ProcessChildNodes(elem.kids, newDelta, state, guids, newChildFmt);
    }
  }

  method ProcessTable(elem: Node, newDelta: Delta, state: ParseState, guids: GuidService)
    requires elem.Elem?
    modifies newDelta, state, guids
    ensures WalkOf(newDelta, state, guids) == WalkTable(elem, old(WalkOf(newDelta, state, guids)))
    decreases elem, 0
  {
    state.tableIndex := state.tableIndex + 1;
    var tableAttrs := elem.attrs["id" := "table_" + Render(state.tableIndex)];
    ghost var all := WalkRows(elem.kids, WalkOf(newDelta, state, guids), tableAttrs, 1, elem.invalid);
    var rowIndex := 1;
    var i := 0;
    while i < |elem.kids|
      invariant 0 <= i <= |elem.kids|
      invariant WalkRows(elem.kids[i..], WalkOf(newDelta, state, guids), tableAttrs, rowIndex, elem.invalid) == all
    {
      var row := elem.kids[i];
      assert elem.kids[i..][0] == row && elem.kids[i..][1..] == elem.kids[i + 1..];
      if IsElement(row, "row") {
        ProcessRow(row, newDelta, state, guids, tableAttrs, rowIndex, elem.invalid);
        rowIndex := rowIndex + 1;
      }
      i := i + 1;
    }
    state.curRef := None;
  }

  method ProcessRow(row: Node, newDelta: Delta, state: ParseState, guids: GuidService, tableAttrs: Attrs, rowIndex: nat,
                    invalid: bool)
    requires row.Elem?
    modifies newDelta, state, guids
    ensures WalkOf(newDelta, state, guids)
         == WalkCells(row.kids, old(WalkOf(newDelta, state, guids)), old(state.tableIndex), tableAttrs, rowIndex, 1,
                      invalid || row.invalid)
    decreases row, 0
  {
    var inv := invalid || row.invalid;
    var tableIndex := state.tableIndex;
    ghost var all := WalkCells(row.kids, WalkOf(newDelta, state, guids), tableIndex, tableAttrs, rowIndex, 1, inv);
    var cellIndex := 1;
    var j := 0;
    while j < |row.kids|
      invariant 0 <= j <= |row.kids|
      invariant WalkCells(row.kids[j..], WalkOf(newDelta, state, guids), tableIndex, tableAttrs, rowIndex, cellIndex,
        inv) == all
    {
      var cell := row.kids[j];
      assert row.kids[j..][0] == cell && row.kids[j..][1..] == row.kids[j + 1..];
      if cell.Elem? {
        state.curRef := Some("cell_" + Render(state.tableIndex) + "_" + Render(rowIndex) + "_" + Render(cellIndex));
        ProcessChildNode(cell, newDelta, state, guids, PLAIN);
        EndSegment(newDelta, state.curRef);
        newDelta.Insert(Str("\n"), CellFmt(cell, tableIndex, tableAttrs, rowIndex, inv));
        cellIndex := cellIndex + 1;
      }
      j := j + 1;
    }
  }

  method InsertVerse(attrs: Attrs, invalid: bool, newDelta: Delta, state: ParseState)
    modifies newDelta, state
    ensures forall g :: WalkWith(newDelta, state, g) == VerseInserted(attrs, invalid, old(WalkWith(newDelta, state, g)))
  {
    state.SetLastVerse(Lookup(attrs, "number"));
    EndSegment(newDelta, state.curRef);
    state.curRef := Some("verse_" + Show(state.curChapter) + "_" + Show(Lookup(attrs, "number")));
    newDelta.InsertEmbed("verse", attrs, [], None, InlineInvalid(PLAIN, invalid));
  }

  method InsertEmbed(elem: Node, newDelta: Delta, state: ParseState, guids: GuidService, fmt: Fmt)
    requires elem.Elem?
    modifies newDelta, state, guids
    ensures WalkOf(newDelta, state, guids) == WalkEmbed(elem, old(WalkOf(newDelta, state, guids)), fmt)
    decreases elem, 0
  {
    var contents := new Delta();
    var innerState := new ParseState();
    ProcessChildNodes(elem.kids, contents, innerState, guids, PLAIN);
    newDelta.InsertEmbed(elem.name, elem.attrs, contents.ops, state.curRef, InlineInvalid(fmt, elem.invalid));
  }

  method InsertPara(elem: Node, newDelta: Delta, state: ParseState)
    requires elem.Elem?
    modifies newDelta, state
    ensures forall g :: WalkWith(newDelta, state, g) == ParaInserted(elem, old(WalkWith(newDelta, state, g)))
  {
    var invalid := elem.invalid;
    if !CanParaContainVerseText(Attr(elem, "style")) && HasDescendant(elem.kids, "verse") {
      invalid := true;
      state.curChapterIsValid := false;
    }
    newDelta.Insert(Str("\n"), PLAIN.(block := Some(Block(elem.name, elem.attrs)), invalidBlock := invalid));
  }

  // ----- the top level

  function BookOf(delta: Delta, state: ParseState, guids: GuidService, nextIds: map<string, nat>, bookIsValid: bool,
                  chapters: seq<ChapterDelta>): BookWalk
    reads delta, state, guids
  {
    BookWalk(WalkOf(delta, state, guids), nextIds, bookIsValid, chapters)
  }

  method GetParagraphRef(nextIds: map<string, nat>, key: string, prefix: string)
      returns (paraRef: string, updated: map<string, nat>)
    ensures paraRef == ParaRef(prefix, NextId(nextIds, key))
    ensures updated == nextIds[key := NextId(nextIds, key) + 1]
  {
    updated := nextIds;
    if key !in updated {
      updated := updated[key := 1];
    }
    paraRef := prefix + "_" + Render(updated[key]);
    updated := updated[key := updated[key] + 1];
  }

  method EndImpliedParagraph(chapterDelta: Delta, state: ParseState)
    modifies chapterDelta, state
    ensures forall g :: WalkWith(chapterDelta, state, g) == ImpliedEnded(old(WalkWith(chapterDelta, state, g)))
  {
    if state.impliedParagraph {
      EndSegment(chapterDelta, state.curRef);
      chapterDelta.Insert(Str("\n"), PLAIN);
      state.impliedParagraph := false;
    }
  }

  method EndChapter(chapterDeltas: seq<ChapterDelta>, chapterDelta: Delta, state: ParseState)
      returns (result: seq<ChapterDelta>)
    modifies chapterDelta, state
    ensures result == ChapterEnded(old(WalkWith(chapterDelta, state, 0)), chapterDeltas)
    ensures forall g :: WalkWith(chapterDelta, state, g) == ImpliedEnded(old(WalkWith(chapterDelta, state, g)))
  {
    EndImpliedParagraph(chapterDelta, state);
    assert WalkWith(chapterDelta, state, 0) == ImpliedEnded(old(WalkWith(chapterDelta, state, 0)));
    result := chapterDeltas;
    var chapterNum := ParseInt(Show(state.curChapter));
    if chapterNum.Some? {
      result := result + [ChapterDelta(chapterNum.value, state.lastVerse, state.curChapterIsValid, chapterDelta.ops)];
    }
  }

  /** A `para` or `book` at the top level. It throws when there is nothing to number the paragraph by. */
  method ProcessPara(elem: Node, chapterDelta: Delta, state: ParseState, guids: GuidService, nextIds: map<string, nat>,
                     ghost bookIsValid: bool, ghost chapterDeltas: seq<ChapterDelta>)
      returns (ok: bool, updated: map<string, nat>)
    requires elem.Elem?
    modifies chapterDelta, state, guids
    ensures WalkPara(elem, old(BookOf(chapterDelta, state, guids, nextIds, bookIsValid, chapterDeltas)))
         == if ok then BookOf(chapterDelta, state, guids, updated, bookIsValid, chapterDeltas) else Crashed
  {
    hide WalkParaBody, CanParaContainVerseText, CutAt, NextId, SegmentEnded;
    updated := nextIds;
    ghost var s := BookOf(chapterDelta, state, guids, nextIds, bookIsValid, chapterDeltas);
    EndImpliedParagraph(chapterDelta, state);
    ghost var w := WalkOf(chapterDelta, state, guids);
    assert w == ImpliedEnded(s.walk);
    var style := Attr(elem, "style");
    var key, prefix;
    if CanParaContainVerseText(style) && state.curRef.Some? {
      key := CutAt(state.curRef.value, '/');
      prefix := key + "/" + Show(style);
    } else {
      if style.None? {
        return false, updated;
      }
      key, prefix := style.value, style.value;
    }
    assert ParaKey(style, w.curRef) == Some((key, prefix));
    var paraRef;
    paraRef, updated := GetParagraphRef(updated, key, prefix);
    state.curRef := Some(paraRef);
    assert WalkOf(chapterDelta, state, guids) == w.(curRef := Some(paraRef));
    ParaWalked(elem, s, w, key, prefix);
    ProcessParaBody(elem, chapterDelta, state, guids);
    ok := true;
  }

  lemma ParaWalked(elem: Node, s: BookWalk, w: Walk, key: string, prefix: string)
    requires s.BookWalk? && elem.Elem? && w == ImpliedEnded(s.walk)
    requires ParaKey(Attr(elem, "style"), w.curRef) == Some((key, prefix))
    ensures var id := NextId(s.nextIds, key);
            WalkPara(elem, s) == s.(walk := WalkParaBody(elem, w.(curRef := Some(ParaRef(prefix, id)))),
                                    nextIds := s.nextIds[key := id + 1])
  {
  }

  method ProcessParaBody(elem: Node, chapterDelta: Delta, state: ParseState, guids: GuidService)
    requires elem.Elem?
    modifies chapterDelta, state, guids
    ensures WalkOf(chapterDelta, state, guids) == WalkParaBody(elem, old(WalkOf(chapterDelta, state, guids)))
  {
    ProcessChildNodes(elem.kids, chapterDelta, state, guids, PLAIN);
    EndSegment(chapterDelta, state.curRef);
    if !CanParaContainVerseText(Attr(elem, "style")) {
      state.curRef := None;
    }
    label BeforeBreak:
    InsertPara(elem, chapterDelta, state);
    assert WalkOf(chapterDelta, state, guids)
        == ParaInserted(elem, old@BeforeBreak(WalkOf(chapterDelta, state, guids)));
  }

  /** A chapter element: a chapter that was open before is finished, and a new delta begun. */
  method ProcessChapter(elem: Node, chapterDelta: Delta, state: ParseState, guids: GuidService,
                        nextIds: map<string, nat>,
                        bookIsValid: bool, chapterDeltas: seq<ChapterDelta>)
      returns (newDelta: Delta, updated: map<string, nat>, result: seq<ChapterDelta>)
    requires elem.Elem?
    modifies chapterDelta, state
    ensures newDelta == chapterDelta || fresh(newDelta)
    ensures BookOf(newDelta, state, guids, updated, bookIsValid, result)
         == WalkChapter(elem, old(BookOf(chapterDelta, state, guids, nextIds, bookIsValid, chapterDeltas)))
  {
    newDelta, updated, result := chapterDelta, nextIds, chapterDeltas;
    if state.curChapter.Some? {
      result := EndChapter(result, newDelta, state);
      assert WalkWith(newDelta, state, 0) == ImpliedEnded(old(WalkWith(chapterDelta, state, 0)));
      updated := map[];
      newDelta := new Delta();
      state.curChapterIsValid := bookIsValid;
    }
    state.curRef := None;
    state.lastVerse := 0;
    state.curChapter := Attr(elem, "number");
    newDelta.InsertEmbed("chapter", elem.attrs, [], None, PLAIN.(invalidBlock := elem.invalid));
  }

  lemma {:induction false} CrashedForGood(children: seq<Child>)
    ensures WalkBook(children, Crashed) == Crashed
  {
    if children != [] {
      CrashedForGood(children[1..]);
    }
  }

  method ProcessElement(elem: Node, isValid: bool, chapterDelta: Delta, state: ParseState, guids: GuidService,
                        nextIds: map<string, nat>, bookIsValid: bool, chapterDeltas: seq<ChapterDelta>)
      returns (ok: bool, newDelta: Delta, updated: map<string, nat>, valid: bool, result: seq<ChapterDelta>)
    requires elem.Elem?
    modifies chapterDelta, state, guids
    ensures newDelta == chapterDelta || fresh(newDelta)
    ensures WalkElement(elem, isValid, old(BookOf(chapterDelta, state, guids, nextIds, bookIsValid, chapterDeltas)))
         == if ok then BookOf(newDelta, state, guids, updated, valid, result) else Crashed
  {
    ok, newDelta, updated, valid, result := true, chapterDelta, nextIds, bookIsValid, chapterDeltas;
    if elem.name == "book" || elem.name == "para" {
      if elem.name == "book" {
        valid := isValid;
      }
      ok, updated := ProcessPara(elem, newDelta, state, guids, updated, valid, result);
    } else if elem.name == "chapter" {
      newDelta, updated, result := ProcessChapter(elem, newDelta, state, guids, updated, valid, result);
    } else {
      ProcessChildNode(elem, newDelta, state, guids, PLAIN);
      if elem.name == "verse" || elem.name == "note" {
        state.impliedParagraph := true;
      }
    }
  }

  method ProcessChild(child: Child, chapterDelta: Delta, state: ParseState, guids: GuidService,
                      nextIds: map<string, nat>,
                      bookIsValid: bool, chapterDeltas: seq<ChapterDelta>)
      returns (ok: bool, newDelta: Delta, updated: map<string, nat>, valid: bool, result: seq<ChapterDelta>)
    modifies chapterDelta, state, guids
    ensures newDelta == chapterDelta || fresh(newDelta)
    ensures WalkChild(child, old(BookOf(chapterDelta, state, guids, nextIds, bookIsValid, chapterDeltas)))
         == if ok then BookOf(newDelta, state, guids, updated, valid, result) else Crashed
  {
    ok, newDelta, updated, valid, result := true, chapterDelta, nextIds, bookIsValid, chapterDeltas;
    if child.node.Text? {
      newDelta.InsertText(child.node.value, state.curRef, PLAIN);
      state.impliedParagraph := true;
    } else {
      ok, newDelta, updated, valid, result :=
        ProcessElement(child.node, child.isValid, chapterDelta, state, guids, nextIds, bookIsValid, chapterDeltas);
      if !child.isValid {
        state.curChapterIsValid := false;
      }
    }
  }

  /** The chapter deltas of a book, or nothing if the walk throws. */
  method BuildChapterDeltas(children: seq<Child>, guids: GuidService) returns (r: Option<seq<ChapterDelta>>)
    modifies guids
    ensures r == ToChapterDeltas(children, old(guids.next))
  {
    var chapterDeltas: seq<ChapterDelta> := [];
    var chapterDelta := new Delta();
    var nextIds: map<string, nat> := map[];
    var state := new ParseState();
    var bookIsValid := true;
    var i := 0;
    while i < |children|
      invariant 0 <= i <= |children|
      invariant fresh(chapterDelta) && fresh(state)
      invariant WalkBook(children[i..], BookOf(chapterDelta, state, guids, nextIds, bookIsValid, chapterDeltas))
             == WalkBook(children, Start(old(guids.next)))
    {
      assert children[i..][0] == children[i] && children[i..][1..] == children[i + 1..];
      var ok;
      ok, chapterDelta, nextIds, bookIsValid, chapterDeltas :=
        ProcessChild(children[i], chapterDelta, state, guids, nextIds, bookIsValid, chapterDeltas);
      if !ok {
        CrashedForGood(children[i + 1..]);
        return None;
      }
      i := i + 1;
    }
    if state.curChapter.None? {
      state.curChapter := Some("1");
    }
    chapterDeltas := EndChapter(chapterDeltas, chapterDelta, state);
    return Some(chapterDeltas);
  }
}
