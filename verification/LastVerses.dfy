/** The last verse number that each chapter delta carries. */
module LastVerses {
  import opened Wrappers
  import opened Decimal
  import opened UsxNodes
  import opened RichText
  import opened ChapterWalk
  import opened Grammar
  import opened OrderedMerge
  import opened BookRoundTrip
  import Splicing

  // ----- reading a verse number

  predicate AllDigits(s: string) {
    forall i :: 0 <= i < |s| ==> '0' <= s[i] <= '9'
  }

  predicate DigitLast(s: string) {
    s != "" && '0' <= s[|s| - 1] <= '9'
  }

  predicate IsLetter(c: char) {
    'a' <= c <= 'z' || 'A' <= c <= 'Z' || c == '_'
  }

  /** The last run of digits, with no more after it than a letter and a line break. */
  predicate EndsIn(s: string, front: string, digits: string, letter: string, end: string) {
    && s == front + digits + letter + end
    && digits != "" && AllDigits(digits) && !DigitLast(front)
    && (letter == "" || (|letter| == 1 && IsLetter(letter[0])))
    && (end == "" || end == "\n")
  }

  ghost predicate Captured(s: string, digits: string) {
    exists front, letter, end :: EndsIn(s, front, digits, letter, end)
  }

  lemma DigitChar(c: char)
    ensures c in DIGITS <==> '0' <= c <= '9'
    ensures c !in DIGITS && IsWordChar(c) <==> IsLetter(c)
  {
    if '0' <= c <= '9' {
      assert DIGITS[c as int - '0' as int] == c;
    }
  }

  lemma {:induction false} DigitsAtEnd(front: string, digits: string)
    requires !DigitLast(front) && AllDigits(digits)
    ensures TrailingDigits(front + digits) == digits
  {
    if digits == [] {
      if front != [] { DigitChar(front[|front| - 1]); }
      assert front + digits == front;
    } else {
      var all, rest := front + digits, digits[..|digits| - 1];
      DigitChar(digits[|digits| - 1]);
      assert all[|all| - 1] == digits[|digits| - 1] && all[..|all| - 1] == front + rest;
      DigitsAtEnd(front, rest);
    }
  }

  lemma {:induction false} TrailingSplit(s: string) returns (front: string)
    ensures s == front + TrailingDigits(s)
    ensures !DigitLast(front) && AllDigits(TrailingDigits(s))
  {
    front := s;
    if s != [] {
      DigitChar(s[|s| - 1]);
      if s[|s| - 1] in DIGITS {
        front := TrailingSplit(s[..|s| - 1]);
        assert s == s[..|s| - 1] + [s[|s| - 1]];
      }
    }
  }

  lemma LastAdded(s: string, c: char)
    ensures (s + [c])[|s + [c]| - 1] == c && (s + [c])[..|s + [c]| - 1] == s
  {
  }

  /** What is captured is the last run of digits. */
  lemma EndCaptured(s: string, front: string, digits: string, letter: string, end: string)
    requires EndsIn(s, front, digits, letter, end)
    ensures VerseDigits(s) == digits
  {
    hide TrailingDigits;
    var plain, line := front + digits, front + digits + letter;
    DigitsAtEnd(front, digits);
    assert plain[|plain| - 1] == digits[|digits| - 1];
    DigitChar(plain[|plain| - 1]);
    if letter == "" {
      assert line == plain;
    } else {
      assert line == plain + [letter[0]];
      LastAdded(plain, letter[0]);
      DigitChar(letter[0]);
    }
    if end == "" {
      assert s == line;
    } else {
      assert s == line + ['\n'];
      LastAdded(line, '\n');
    }
  }

  lemma CapturedEnd(s: string) returns (front: string, letter: string, end: string)
    requires VerseDigits(s) != ""
    ensures EndsIn(s, front, VerseDigits(s), letter, end)
  {
    hide TrailingDigits, AllDigits, DigitLast, IsLetter, IsWordChar;
    end := if s != [] && s[|s| - 1] == '\n' then "\n" else "";
    var line := if end == "" then s else s[..|s| - 1];
    assert s == line + end;
    var plain;
    plain, letter := LetterCut(line);
    assert VerseDigits(s) == TrailingDigits(plain);
    front := TrailingSplit(plain);
    assert line == front + TrailingDigits(plain) + letter;
  }

  /** The line without the letter at its end, if there is one. */
  lemma LetterCut(line: string) returns (plain: string, letter: string)
    ensures line == plain + letter && (letter == "" || (|letter| == 1 && IsLetter(letter[0])))
    ensures TrailingDigits(plain)
      == if line == [] || line[|line| - 1] in DIGITS || !IsWordChar(line[|line| - 1]) then TrailingDigits(line)
         else TrailingDigits(line[..|line| - 1])
  {
    hide TrailingDigits;
    plain, letter := line, "";
    if line != [] {
      var last := line[|line| - 1];
      DigitChar(last);
      if IsLetter(last) {
        plain, letter := line[..|line| - 1], [last];
      }
    }
  }

  /** What is captured of a verse number: of a bridge the last number, without the letter after it. */
  lemma {:induction false} VerseNumberRead(s: string, digits: string)
    requires digits != ""
    ensures VerseDigits(s) == digits <==> Captured(s, digits)
  {
    hide EndsIn;
    if VerseDigits(s) == digits {
      var front, letter, end := CapturedEnd(s);
    }
    forall front, letter, end | EndsIn(s, front, digits, letter, end)
      ensures VerseDigits(s) == digits
    {
      EndCaptured(s, front, digits, letter, end);
    }
  }

  function Read(s: string, before: int): int {
    if ParseInt(s).Some? then ParseInt(s).value else before
  }

  /** The last verse after a verse element: the number captured, or else the whole as a number, or else that before. */
  ghost function LastVerseAfter(number: Option<string>, before: int): int {
    if number.None? then before
    else if exists digits :: Captured(number.value, digits) then
      var digits :| Captured(number.value, digits);
      Read(digits, before)
    else Read(number.value, before)
  }

  lemma {:induction false} VerseSeenExactly(number: Option<string>, before: int)
    ensures VerseSeen(number, before) == LastVerseAfter(number, before)
  {
    hide EndsIn, Captured, VerseDigits, ParseInt;
    if number.Some? {
      forall digits | Captured(number.value, digits)
        ensures VerseDigits(number.value) == digits != ""
      {
        CapturedFull(number.value, digits);
        VerseNumberRead(number.value, digits);
      }
      if VerseDigits(number.value) != "" {
        VerseNumberRead(number.value, VerseDigits(number.value));
      }
    }
  }

  lemma CapturedFull(s: string, digits: string)
    requires Captured(s, digits)
    ensures digits != ""
  {
  }

  // ----- reading it off the nodes

  /** Verses count where they stand in the text, not inside notes or other embedded elements. */
  ghost function InlineVerse(n: Node, v: int): int {
    if IsElement(n, "verse") then LastVerseAfter(Attr(n, "number"), v)
    else if IsElement(n, "char") then InlineVerses(n.kids, v)
    else v
  }

  ghost function InlineVerses(ns: seq<Node>, v: int): int {
    if ns == [] then v else InlineVerses(ns[1..], InlineVerse(ns[0], v))
  }

  ghost function CellVerse(cell: Node, v: int): int {
    if IsElement(cell, "cell") then InlineVerses(cell.kids, v) else InlineVerse(cell, v)
  }

  ghost function CellsVerse(cells: seq<Node>, v: int): int {
    if cells == [] then v else CellsVerse(cells[1..], CellVerse(cells[0], v))
  }

  ghost function RowsVerse(rows: seq<Node>, v: int): int {
    if rows == [] || rows[0].Text? then v else RowsVerse(rows[1..], CellsVerse(rows[0].kids, v))
  }

  ghost function TopVerse(n: Node, v: int): int {
    if !IsBlock(n) then InlineVerse(n, v)
    else if n.name == "chapter" then 0
    else if n.name == "table" then RowsVerse(n.kids, v)
    else InlineVerses(n.kids, v)
  }

  /** The last verse of a section whose nodes these are, after `v`. */
  ghost function SectionVerse(ns: seq<Node>, v: int): int {
    if ns == [] then v else SectionVerse(ns[1..], TopVerse(ns[0], v))
  }

  lemma {:induction false} SectionVerseSnoc(ns: seq<Node>, n: Node, v: int)
    ensures SectionVerse(ns + [n], v) == TopVerse(n, SectionVerse(ns, v))
  {
    var all := ns + [n];
    if ns == [] {
      assert all == [n] && all[1..] == [];
    } else {
      assert all[0] == ns[0] && all[1..] == ns[1..] + [n];
      SectionVerseSnoc(ns[1..], n, TopVerse(ns[0], v));
    }
  }

  // ----- what the walk keeps

  lemma {:induction false} InlineVerseWalked(n: Node, w: Walk, f: Fmt)
    requires Inline(n, f.chars != [])
    ensures WalkNode(n, w, f).lastVerse == InlineVerse(n, w.lastVerse)
    decreases n, 1
  {
    hide LastVerseAfter, VerseSeen;
    if IsElement(n, "verse") {
      VerseSeenExactly(Attr(n, "number"), w.lastVerse);
    } else if IsElement(n, "char") {
      InlineVersesWalked(n.kids, w.(nextGuid := w.nextGuid + 1), CharFmt(n.attrs, n.invalid, w.nextGuid, f));
    }
  }

  lemma {:induction false} InlineVersesWalked(ns: seq<Node>, w: Walk, f: Fmt)
    requires Inlines(ns, f.chars != [])
    ensures WalkNodes(ns, w, f).lastVerse == InlineVerses(ns, w.lastVerse)
    decreases ns, 0
  {
    if ns != [] {
      InlineVerseWalked(ns[0], w, f);
      InlineVersesWalked(ns[1..], WalkNode(ns[0], w, f), f);
    }
  }

  lemma CellVerseWalked(cell: Node, w: Walk, t: nat, table: Attrs, r: nat, c: nat, invalid: bool)
    requires Cell(cell)
    ensures var w1 := WalkCell(cell, w, t, table, r, c, invalid);
      w1.lastVerse == CellVerse(cell, w.lastVerse)
  {
    var w0 := w.(curRef := Some(CellRef(w.tableIndex, r, c)));
    if cell.name == "cell" {
      InlineVersesWalked(cell.kids, w0, PLAIN);
    } else {
      InlineVerseWalked(cell, w0, PLAIN);
    }
  }

  lemma {:induction false} CellsVerseWalked(cells: seq<Node>, w: Walk, t: nat, table: Attrs, r: nat, c: nat,
                                            invalid: bool)
    requires Cells(cells)
    ensures var w1 := WalkCells(cells, w, t, table, r, c, invalid);
      w1.lastVerse == CellsVerse(cells, w.lastVerse)
    decreases cells
  {
    hide WalkCell, CellVerse, Inline, Inlines;
    if cells != [] {
      CellVerseWalked(cells[0], w, t, table, r, c, invalid);
      CellsVerseWalked(cells[1..], WalkCell(cells[0], w, t, table, r, c, invalid), t, table, r, c + 1, invalid);
    }
  }

  lemma {:induction false} RowsVerseWalked(rows: seq<Node>, w: Walk, table: Attrs, r: nat, invalid: bool)
    requires Rows(rows)
    ensures var w1 := WalkRows(rows, w, table, r, invalid);
      w1.lastVerse == RowsVerse(rows, w.lastVerse)
    decreases rows
  {
    hide WalkCells, CellsVerse, Cells;
    if rows != [] {
      var inv := invalid || rows[0].invalid;
      CellsVerseWalked(rows[0].kids, w, w.tableIndex, table, r, 1, inv);
      RowsVerseWalked(rows[1..], WalkCells(rows[0].kids, w, w.tableIndex, table, r, 1, inv), table, r + 1, invalid);
    }
  }

  /** One top-level node, other than a chapter that ends a section. */
  lemma TopVerseWalked(child: Child, s: BookWalk)
    requires s.BookWalk? && if IsBlock(child.node) then TopLevel(child.node) else Loose(child.node)
    requires IsElement(child.node, "chapter") ==> s.walk.curChapter.None?
    ensures WalkChild(child, s).BookWalk?
    ensures WalkChild(child, s).walk.lastVerse == TopVerse(child.node, s.walk.lastVerse)
  {
    hide InlineVerse, InlineVerses, RowsVerse, WalkNodes, WalkRows, SegmentEnded, Appended;
    var n := child.node;
    if !IsBlock(n) {
      InlineVerseWalked(n, s.walk, PLAIN);
    } else if n.name == "table" {
      TableVerseWalked(n, s.walk);
    } else if n.name != "chapter" {
      ParaVerseWalked(n, s);
    }
  }

  lemma TableVerseWalked(n: Node, w: Walk)
    requires TopLevel(n) && n.name == "table"
    ensures var w1 := WalkNode(n, w, PLAIN); w1.lastVerse == RowsVerse(n.kids, w.lastVerse)
  {
    hide RowsVerse, WalkRows;
    var t := w.tableIndex + 1;
    RowsVerseWalked(n.kids, w.(tableIndex := t), n.attrs["id" := TableId(t)], 1, n.invalid);
    assert WalkNode(n, w, PLAIN) == WalkTable(n, w);
  }

  lemma ParaVerseWalked(n: Node, s: BookWalk)
    requires s.BookWalk? && TopLevel(n) && n.name in {"para", "book"}
    ensures var s1 := WalkPara(n, s);
      && s1.BookWalk?
      && s1.walk.lastVerse == InlineVerses(n.kids, s.walk.lastVerse)
  {
    hide InlineVerses, WalkNodes, SegmentEnded, Appended;
    var w := ImpliedEnded(s.walk);
    var key := ParaKey(Attr(n, "style"), w.curRef).value;
    var w0 := w.(curRef := Some(ParaRef(key.1, NextId(s.nextIds, key.0))));
    InlineVersesWalked(n.kids, w0, PLAIN);
  }

  // ----- the whole book

  /** Each numbered section's delta has the last verse of the section, or 0 if no verse has a number. */
  ghost predicate LastVersesRight(ss: seq<Section>, ds: seq<ChapterDelta>) {
    if ss == [] then ds == []
    else if ss[0].number.None? then LastVersesRight(ss[1..], ds)
    else ds != [] && ds[0].lastVerse == SectionVerse(ss[0].nodes, 0) && LastVersesRight(ss[1..], ds[1..])
  }

  lemma {:induction false} WalkVerses(children: seq<Child>, s: BookWalk, held: seq<Node>, number: Option<int>,
                                      found: bool, last: Option<Node>)
      returns (ds: seq<ChapterDelta>)
    requires s.BookWalk? && Composed(Nodes(children), last) && s.walk.lastVerse == SectionVerse(held, 0)
    requires found == s.walk.curChapter.Some?
    requires number == (if found then ParseInt(s.walk.curChapter.value) else Some(1))
    ensures BookEnded(WalkBook(children, s)) == Some(s.chapters + ds)
    ensures LastVersesRight(SectionsFrom(held, number, found, Nodes(children)), ds)
    decreases children
  {
    hide Loose, TopVerse, WalkChild, Inlines, Rows, Apart;
    if children == [] {
      ds := SectionVerseEnded(s, held, number, [], []);
      BookEndedWith(s, number, found);
      assert SectionsFrom(held, number, found, []) == [Section(number, held)] + [];
      assert Ended(s, number) + [] == Ended(s, number);
    } else {
      var child := children[0];
      var n := child.node;
      assert Nodes(children)[0] == n && Nodes(children)[1..] == Nodes(children[1..]);
      if !IsElement(n, "chapter") || !found {
        TopVerseWalked(child, s);
        ChildKeeps(child, s);
        SectionVerseSnoc(held, n, 0);
        ds := WalkVerses(children[1..], WalkChild(child, s), held + [n],
                         if IsElement(n, "chapter") then Splicing.ChapterNumber(n) else number,
                         found || IsElement(n, "chapter"),
                         if IsBlock(n) then None else Some(n));
      } else {
        ChapterVerses(child, s, number);
        var later := WalkVerses(children[1..], WalkChild(child, s), [n], Splicing.ChapterNumber(n), true, None);
        ds := SectionVerseEnded(s, held, number,
            SectionsFrom([n], Splicing.ChapterNumber(n), true, Nodes(children[1..])), later);
      }
    }
  }

  /** A later chapter starts without a verse. */
  lemma ChapterVerses(child: Child, s: BookWalk, number: Option<int>)
    requires s.BookWalk? && TopLevel(child.node) && IsElement(child.node, "chapter") && s.walk.curChapter.Some?
    requires number == ParseInt(s.walk.curChapter.value)
    ensures var s1 := WalkChild(child, s);
      && s1.BookWalk?
      && s1.walk.lastVerse == SectionVerse([child.node], 0)
      && s1.walk.curChapter == Attr(child.node, "number")
      && s1.chapters == Ended(s, number)
  {
    assert SectionVerse([child.node], 0) == SectionVerse([], 0);
  }

  lemma SectionVerseEnded(s: BookWalk, held: seq<Node>, number: Option<int>, ss: seq<Section>, later: seq<ChapterDelta>)
      returns (ds: seq<ChapterDelta>)
    requires s.BookWalk? && s.walk.lastVerse == SectionVerse(held, 0) && LastVersesRight(ss, later)
    ensures LastVersesRight([Section(number, held)] + ss, ds)
    ensures s.chapters + ds == Ended(s, number) + later
  {
    hide SectionVerse;
    ds := Ended(s.(chapters := []), number) + later;
    assert ([Section(number, held)] + ss)[1..] == ss;
    if number.Some? {
      assert ds[1..] == later;
    } else {
      assert ds == later;
    }
  }

  /** Every delta carries the last verse of its section, whether the section comes back or not. */
  lemma {:induction false} DeltasKnowLastVerse(children: seq<Child>, g: nat)
    requires Composed(Nodes(children), None)
    ensures ToChapterDeltas(children, g).Some?
    ensures LastVersesRight(Sections(Nodes(children)), ToChapterDeltas(children, g).value)
  {
    var ds := WalkVerses(children, Start(g), [], Some(1), false, None);
    assert [] + ds == ds;
  }
}
