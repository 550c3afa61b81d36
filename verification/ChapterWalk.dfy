/**
 * What walking a USX book inserts into its chapter deltas, as functions of the walk's state.
 * ChapterDeltas.dfy holds the walk itself.
 */
module ChapterWalk {
  import opened Wrappers
  import opened Decimal
  import opened UsxNodes
  import opened RichText

  /** Everything the walk updates while it is inside one top-level node. */
  datatype Walk = Walk(
    ops: seq<Op>,
    curRef: Option<string>,
    curChapter: Option<string>,
    chapterIsValid: bool,
    tableIndex: nat,
    implied: bool,
    nextGuid: nat,
    lastVerse: int)

  datatype ChapterDelta = ChapterDelta(number: int, lastVerse: int, isValid: bool, ops: seq<Op>)

  const PARAGRAPH_POETRY_LIST_STYLES: set<string> := {
    "p", "nb", "m", "po", "pr", "cls", "pmo", "pm", "pmc", "pmr", "pi", "mi", "pc", "ph", "lit",
    "q", "qr", "qc", "qa", "qm", "qd",
    "lh", "li", "lf", "lim",
    "b", "id"
  }

  /** An absent or empty style marks a malformed paragraph, which could contain verse text. */
  predicate CanParaContainVerseText(style: Option<string>) {
    style.None? || style.value == ""
    || (var s := style.value;
        (if s[|s| - 1] in DIGITS then s[..|s| - 1] else s) in PARAGRAPH_POETRY_LIST_STYLES)
  }

  /** The n-th identifier the guid service hands out. */
  function Guid(n: nat): string {
    Render(n)
  }

  function Show(s: Option<string>): string {
    if s.None? then "" else s.value
  }

  function InlineInvalid(fmt: Fmt, invalid: bool): Fmt {
    fmt.(invalidInline := fmt.invalidInline || invalid)
  }

  /** Whether a segment that has received nothing yet would be invisible after this op. */
  predicate EndsSegment(op: Op) {
    (op.insert.Embed? && (op.insert.name == "verse" || op.insert.name == "chapter"))
    || op.fmt.block.Some? || op.fmt.table.Some?
    || (op.insert.Str? && op.insert.text != "" && op.insert.text[|op.insert.text| - 1] == '\n')
  }

  function SegmentEnded(ops: seq<Op>, segRef: Option<string>): seq<Op> {
    if segRef.Some? && (ops == [] || EndsSegment(Last(ops))) then
      Appended(ops, Op(Blank, PLAIN.(segment := segRef)))
    else ops
  }

  // ----- nodes inside a paragraph, cell or embed

  function WalkNodes(ns: seq<Node>, w: Walk, fmt: Fmt): Walk
    decreases ns
  {
    if ns == [] then w else WalkNodes(ns[1..], WalkNode(ns[0], w, fmt), fmt)
  }

  function WalkNode(n: Node, w: Walk, fmt: Fmt): Walk
    decreases n, 1
  {
    match n
    case Text(v) => w.(ops := Appended(w.ops, Op(Str(v), WithSegment(fmt, w.curRef))))
    case Elem(name, attrs, kids, invalid) =>
      if name == "para" then WalkNestedPara(n, w)
      else if name == "verse" then VerseInserted(attrs, invalid, w)
      else if name == "ref" then
        var f := InlineInvalid(fmt.(ref := Some(attrs)), invalid);
        w.(ops := Appended(w.ops, Op(Str(TextOf(kids)), WithSegment(f, w.curRef))))
      else if name == "char" then WalkChar(n, w, fmt)
      else if name == "table" then WalkTable(n, w)
      else if name == "cell" then WalkNodes(kids, w, PLAIN)
      else WalkEmbed(n, w, fmt)
  }

  function WalkNestedPara(n: Node, w: Walk): Walk
    requires n.Elem?
    decreases n, 0
  {
    var inner := WalkNodes(n.kids, FreshState(w.ops, w.nextGuid), PLAIN);
    ParaInserted(n, w.(ops := inner.ops, nextGuid := inner.nextGuid))
  }

  function WalkChar(n: Node, w: Walk, fmt: Fmt): Walk
    requires n.Elem?
    decreases n, 0
  {
    var f := CharFmt(n.attrs, n.invalid, w.nextGuid, fmt);
    var w0 := if "cid" in n.attrs then w else w.(nextGuid := w.nextGuid + 1);
    if n.kids == [] then w0.(ops := Appended(w0.ops, Op(Empty, f.(segment := w0.curRef))))
    else WalkNodes(n.kids, w0, f)
  }

  function WalkTable(n: Node, w: Walk): Walk
    requires n.Elem?
    decreases n, 0
  {
    var t := w.tableIndex + 1;
    WalkRows(n.kids, w.(tableIndex := t), n.attrs["id" := TableId(t)], 1, n.invalid).(curRef := None)
  }

  /** A note, figure, milestone or any other element; its children become a delta of their own. */
  function WalkEmbed(n: Node, w: Walk, fmt: Fmt): Walk
    requires n.Elem?
    decreases n, 0
  {
    var inner := WalkNodes(n.kids, FreshState([], w.nextGuid), PLAIN);
    var f := WithSegment(InlineInvalid(fmt, n.invalid), w.curRef);
    w.(ops := Appended(w.ops, Op(Embed(n.name, n.attrs, inner.ops), f)), nextGuid := inner.nextGuid)
  }

  function FreshState(ops: seq<Op>, nextGuid: nat): Walk {
    Walk(ops, None, None, true, 0, false, nextGuid, 0)
  }

  /** The attribute object of one `char` element: its own attributes and an identity. */
  function CharObject(attrs: Attrs, guid: nat): Attrs {
    if "cid" in attrs then attrs else attrs["cid" := Guid(guid)]
  }

  function CharFmt(attrs: Attrs, invalid: bool, guid: nat, fmt: Fmt): Fmt {
    InlineInvalid(fmt.(chars := fmt.chars + [CharObject(attrs, guid)]), invalid)
  }

  predicate IsWordChar(c: char) {
    c in DIGITS || 'a' <= c <= 'z' || 'A' <= c <= 'Z' || c == '_'
  }

  function TrailingDigits(s: string): string {
    if s == [] || s[|s| - 1] !in DIGITS then [] else TrailingDigits(s[..|s| - 1]) + [s[|s| - 1]]
  }

  /** What `(\d+)\w?$` captures: the digits at the end, or before one more letter; nothing if there are none. */
  function VerseDigits(s: string): string {
    var line := if s != [] && s[|s| - 1] == '\n' then s[..|s| - 1] else s;
    if line == [] || line[|line| - 1] in DIGITS || !IsWordChar(line[|line| - 1]) then TrailingDigits(line)
    else TrailingDigits(line[..|line| - 1])
  }

  /** The last verse after a verse element; a number that cannot be read leaves it as it is. */
  function VerseSeen(number: Option<string>, lastVerse: int): int {
    if number.None? then lastVerse
    else
      var digits := VerseDigits(number.value);
      var read := ParseInt(if digits == [] then number.value else digits);
      if read.Some? then read.value else lastVerse
  }

  function VerseInserted(attrs: Attrs, invalid: bool, w: Walk): Walk {
    var verseRef := "verse_" + Show(w.curChapter) + "_" + Show(Lookup(attrs, "number"));
    w.(ops := Appended(SegmentEnded(w.ops, w.curRef), Op(Embed("verse", attrs, []), InlineInvalid(PLAIN, invalid))),
       curRef := Some(verseRef), lastVerse := VerseSeen(Lookup(attrs, "number"), w.lastVerse))
  }

  /** The line break that ends a `para` or `book`, which carries the element's attributes. */
  function ParaInserted(n: Node, w: Walk): Walk
    requires n.Elem?
  {
    w.(ops := Appended(w.ops, Op(Str("\n"), ParaFmt(n))), chapterIsValid := w.chapterIsValid && !HasMisplacedVerse(n))
  }

  predicate HasMisplacedVerse(n: Node)
    requires n.Elem?
  {
    !CanParaContainVerseText(Attr(n, "style")) && HasDescendant(n.kids, "verse")
  }

  function ParaFmt(n: Node): Fmt
    requires n.Elem?
  {
    PLAIN.(block := Some(Block(n.name, n.attrs)), invalidBlock := n.invalid || HasMisplacedVerse(n))
  }

  function TableId(t: nat): string {
    "table_" + Render(t)
  }

  function RowId(t: nat, r: nat): string {
    "row_" + Render(t) + "_" + Render(r)
  }

  function CellRef(t: nat, r: nat, c: nat): string {
    "cell_" + Render(t) + "_" + Render(r) + "_" + Render(c)
  }

  /** Only elements named `row` are visited. */
  function WalkRows(rows: seq<Node>, w: Walk, table: Attrs, r: nat, invalid: bool): Walk
    decreases rows
  {
    if rows == [] then w
    else if IsElement(rows[0], "row") then
      var inner := WalkCells(rows[0].kids, w, w.tableIndex, table, r, 1, invalid || rows[0].invalid);
      WalkRows(rows[1..], inner, table, r + 1, invalid)
    else WalkRows(rows[1..], w, table, r, invalid)
  }

  /** The rest of row `r`, which started when `t` was the table's number. */
  function WalkCells(cells: seq<Node>, w: Walk, t: nat, table: Attrs, r: nat, c: nat, invalid: bool): Walk
    decreases cells
  {
    if cells == [] then w
    else if cells[0].Text? then WalkCells(cells[1..], w, t, table, r, c, invalid)
    else WalkCells(cells[1..], WalkCell(cells[0], w, t, table, r, c, invalid), t, table, r, c + 1, invalid)
  }

  function WalkCell(cell: Node, w: Walk, t: nat, table: Attrs, r: nat, c: nat, invalid: bool): Walk
    requires cell.Elem?
    decreases cell, 2
  {
    var inner := WalkNode(cell, w.(curRef := Some(CellRef(w.tableIndex, r, c))), PLAIN);
    CellInserted(cell, inner, t, table, r, invalid)
  }

  /** The line break that ends a cell, which carries the table, the row and (for a `cell`) the cell's attributes. */
  function CellInserted(cell: Node, w: Walk, t: nat, table: Attrs, r: nat, invalid: bool): Walk
    requires cell.Elem?
  {
    w.(ops := Appended(SegmentEnded(w.ops, w.curRef), Op(Str("\n"), CellFmt(cell, t, table, r, invalid))))
  }

  function CellFmt(cell: Node, t: nat, table: Attrs, r: nat, invalid: bool): Fmt
    requires cell.Elem?
  {
    PLAIN.(table := Some(table), row := Some(map["id" := RowId(t, r)]),
           cell := if cell.name == "cell" then Some(cell.attrs) else None,
           invalidBlock := invalid || cell.invalid)
  }

  // ----- top-level nodes

  /** A child of the `usx` element, with the verdict of schema validation on its whole subtree. */
  datatype Child = Child(node: Node, isValid: bool)

  /** The walk between two top-level nodes. It crashes on a paragraph that has no key to number it by. */
  datatype BookWalk =
    | Crashed
    | BookWalk(walk: Walk, nextIds: map<string, nat>, bookIsValid: bool, chapters: seq<ChapterDelta>)

  function Start(nextGuid: nat): BookWalk {
    BookWalk(FreshState([], nextGuid), map[], true, [])
  }

  /** A line break without attributes, for text or notes that had no paragraph. */
  function ImpliedEnded(w: Walk): Walk {
    if w.implied then
      w.(ops := Appended(SegmentEnded(w.ops, w.curRef), Op(Str("\n"), PLAIN)), implied := false)
    else w
  }

  function NextId(nextIds: map<string, nat>, key: string): nat {
    if key in nextIds then nextIds[key] else 1
  }

  /** The key that numbers a new paragraph and the prefix of its reference. */
  function ParaKey(style: Option<string>, curRef: Option<string>): Option<(string, string)> {
    if CanParaContainVerseText(style) && curRef.Some? then
      var base := CutAt(curRef.value, '/');
      Some((base, base + "/" + Show(style)))
    else if style.Some? then Some((style.value, style.value))
    else None
  }

  function ParaRef(prefix: string, id: nat): string {
    prefix + "_" + Render(id)
  }

  function WalkPara(n: Node, s: BookWalk): BookWalk
    requires s.BookWalk? && n.Elem?
  {
    var w := ImpliedEnded(s.walk);
    var key := ParaKey(Attr(n, "style"), w.curRef);
    if key.None? then Crashed
    else
      var id := NextId(s.nextIds, key.value.0);
      s.(walk := WalkParaBody(n, w.(curRef := Some(ParaRef(key.value.1, id)))),
         nextIds := s.nextIds[key.value.0 := id + 1])
  }

  function WalkParaBody(n: Node, w: Walk): Walk
    requires n.Elem?
  {
    var w1 := WalkNodes(n.kids, w, PLAIN);
    ParaInserted(n, w1.(ops := SegmentEnded(w1.ops, w1.curRef),
                        curRef := if CanParaContainVerseText(Attr(n, "style")) then w1.curRef else None))
  }

  /** A chapter whose number is not an integer yields no delta. */
  function ChapterEnded(w: Walk, chapters: seq<ChapterDelta>): seq<ChapterDelta> {
    var number := ParseInt(Show(w.curChapter));
    if number.None? then chapters
    else chapters + [ChapterDelta(number.value, w.lastVerse, w.chapterIsValid, ImpliedEnded(w).ops)]
  }

  function WalkChapter(n: Node, s: BookWalk): BookWalk
    requires s.BookWalk? && n.Elem?
  {
    var s1 := if s.walk.curChapter.None? then s
              else s.(chapters := ChapterEnded(s.walk, s.chapters), nextIds := map[],
                      walk := s.walk.(ops := [], implied := false, chapterIsValid := s.bookIsValid));
    var f := PLAIN.(invalidBlock := n.invalid);
    s1.(walk := s1.walk.(ops := Appended(s1.walk.ops, Op(Embed("chapter", n.attrs, []), f)),
                         curRef := None, curChapter := Attr(n, "number"), lastVerse := 0))
  }

  function WalkElement(n: Node, isValid: bool, s: BookWalk): BookWalk
    requires s.BookWalk? && n.Elem?
  {
    if n.name == "book" then WalkPara(n, s.(bookIsValid := isValid))
    else if n.name == "para" then WalkPara(n, s)
    else if n.name == "chapter" then WalkChapter(n, s)
    else
      var w := WalkNode(n, s.walk, PLAIN);
      s.(walk := w.(implied := w.implied || n.name == "verse" || n.name == "note"))
  }

  function WalkChild(child: Child, s: BookWalk): BookWalk {
    if s.Crashed? then Crashed
    else if child.node.Text? then s.(walk := WalkNode(child.node, s.walk, PLAIN).(implied := true))
    else
      var s1 := WalkElement(child.node, child.isValid, s);
      if s1.BookWalk? && !child.isValid then s1.(walk := s1.walk.(chapterIsValid := false)) else s1
  }

  function WalkBook(children: seq<Child>, s: BookWalk): BookWalk {
    if children == [] then s else WalkBook(children[1..], WalkChild(children[0], s))
  }

  /** A book without chapters still has one chapter. */
  function BookEnded(s: BookWalk): Option<seq<ChapterDelta>> {
    if s.Crashed? then None
    else
      var w := if s.walk.curChapter.None? then s.walk.(curChapter := Some("1")) else s.walk;
      Some(ChapterEnded(w, s.chapters))
  }

  function ToChapterDeltas(children: seq<Child>, nextGuid: nat): Option<seq<ChapterDelta>> {
    BookEnded(WalkBook(children, Start(nextGuid)))
  }
}
