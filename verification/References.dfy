/** How segment references are spelled, and where their numbers start. */
module References {
  import opened Wrappers
  import opened Decimal
  import opened DecimalForm
  import opened UsxNodes
  import opened ChapterWalk
  import opened VersePlaces
  import opened Grammar
  import opened SegmentRuns
  import opened SegmentNames

  // ----- the parts of a reference

  /** A string taken apart at a separator. */
  function Parts(s: string, sep: char): (parts: seq<string>)
    ensures parts != []
  {
    if s == [] then [""]
    else
      var later := Parts(s[1..], sep);
      if s[0] == sep then [""] + later else [[s[0]] + later[0]] + later[1..]
  }

  lemma {:induction false} OnePart(s: string, sep: char)
    requires sep !in s
    ensures Parts(s, sep) == [s]
  {
    if s != [] {
      OnePart(s[1..], sep);
      assert s == [s[0]] + s[1..];
    }
  }

  lemma {:induction false} FirstPart(a: string, b: string, sep: char)
    requires sep !in a
    ensures Parts(a + [sep] + b, sep) == [a] + Parts(b, sep)
  {
    var s := a + [sep] + b;
    if a == [] {
      assert s[0] == sep && s[1..] == b;
    } else {
      assert s[0] == a[0] && s[1..] == a[1..] + [sep] + b;
      FirstPart(a[1..], b, sep);
      assert a == [a[0]] + a[1..];
    }
  }

  /** What is before the first separator, or everything. */
  lemma {:induction false} CutIsFirst(s: string, sep: char)
    ensures CutAt(s, sep) == Parts(s, sep)[0]
  {
    if s != [] && s[0] != sep {
      CutIsFirst(s[1..], sep);
    }
  }

  lemma NumberPart(n: nat)
    ensures ParseDigits(Render(n)) == Some(n) && '_' !in Render(n) && '/' !in Render(n)
  {
    NoDigits();
    hide Render, ParseDigits;
    RenderedParsed("", n);
    assert "" + Render(n) == Render(n);
  }

  lemma NoDigits()
    ensures '_' !in DIGITS && '/' !in DIGITS
  {
  }

  /** The parts are these words and then these numbers. */
  predicate Spells(parts: seq<string>, words: seq<string>, numbers: seq<nat>) {
    |parts| == |words| + |numbers|
    && (forall i :: 0 <= i < |words| ==> parts[i] == words[i])
    && forall i :: 0 <= i < |numbers| ==> ParseDigits(parts[|words| + i]) == Some(numbers[i])
  }

  lemma TwoParts(a: string, b: string, sep: char)
    requires sep !in a && sep !in b
    ensures Parts(a + [sep] + b, sep) == [a, b]
  {
    FirstPart(a, b, sep);
    OnePart(b, sep);
  }

  lemma ThreeParts(a: string, b: string, c: string, sep: char)
    requires sep !in a && sep !in b && sep !in c
    ensures Parts(a + [sep] + (b + [sep] + c), sep) == [a, b, c]
  {
    FirstPart(a, b + [sep] + c, sep);
    TwoParts(b, c, sep);
  }

  /** Table, row and cell, in this order. */
  lemma {:induction false} CellSpelled(t: nat, r: nat, c: nat)
    ensures Spells(Parts(CellRef(t, r, c), '_'), ["cell"], [t, r, c])
    ensures Spells(Parts(RowId(t, r), '_'), ["row"], [t, r])
    ensures Spells(Parts(TableId(t), '_'), ["table"], [t])
  {
    hide Parts, Render, ParseDigits;
    NumberPart(t);
    NumberPart(r);
    NumberPart(c);
    var tail := Render(t) + ['_'] + (Render(r) + ['_'] + Render(c));
    assert CellRef(t, r, c) == "cell" + ['_'] + tail;
    FirstPart("cell", tail, '_');
    ThreeParts(Render(t), Render(r), Render(c), '_');
    assert RowId(t, r) == "row" + ['_'] + (Render(t) + ['_'] + Render(r));
    ThreeParts("row", Render(t), Render(r), '_');
    assert TableId(t) == "table" + ['_'] + Render(t);
    TwoParts("table", Render(t), '_');
  }

  /** The chapter and the verse number; where there is none, nothing. */
  lemma {:induction false} VerseSpelled(attrs: Attrs, invalid: bool, w: Walk, chapter: string, number: string)
    requires chapter == if w.curChapter.None? then "" else w.curChapter.value
    requires number == if "number" in attrs then attrs["number"] else ""
    requires '_' !in chapter && '_' !in number
    ensures var ref := VerseInserted(attrs, invalid, w).curRef;
      ref == Some(TagRef(VerseTag(chapter, number))) && Parts(ref.value, '_') == ["verse", chapter, number]
  {
    hide Parts, ParseDigits, VerseSeen;
    assert TagRef(VerseTag(chapter, number)) == "verse" + ['_'] + (chapter + ['_'] + number);
    ThreeParts("verse", chapter, number, '_');
  }

  /** The style and the number; behind a slash if the paragraph continues what `base` refers to. */
  lemma {:induction false} ParaSpelled(base: Option<string>, style: string, id: nat)
    requires '_' !in style && '/' !in style && (base.Some? ==> '/' !in base.value)
    ensures var outer := Parts(TagRef(ParaTag(base, style, id)), '/');
      && |outer| == (if base.Some? then 2 else 1)
      && (base.Some? ==> outer[0] == base.value)
      && Spells(Parts(outer[|outer| - 1], '_'), [style], [id])
  {
    hide Parts, Render, ParseDigits;
    NumberPart(id);
    var own := style + ['_'] + Render(id);
    TwoParts(style, Render(id), '_');
    if base.Some? {
      assert TagRef(ParaTag(base, style, id)) == base.value + ['/'] + own;
      TwoParts(base.value, own, '/');
    } else {
      assert TagRef(ParaTag(base, style, id)) == own;
      OnePart(own, '/');
    }
  }

  // ----- numbers start at one

  /** How many of these are paragraphs with that key. */
  function KeyCount(tags: seq<Tag>, key: string): nat {
    if tags == [] then 0
    else
      var last := tags[|tags| - 1];
      KeyCount(tags[..|tags| - 1], key) + if last.ParaTag? && TagKey(last) == key then 1 else 0
  }

  lemma {:induction false} KeyCountAppend(a: seq<Tag>, b: seq<Tag>, key: string)
    ensures KeyCount(a + b, key) == KeyCount(a, key) + KeyCount(b, key)
  {
    if b == [] {
      assert a + b == a;
    } else {
      assert (a + b)[..|a + b| - 1] == a + b[..|b| - 1];
      KeyCountAppend(a, b[..|b| - 1], key);
    }
  }

  lemma {:induction false} NoKeyCount(tags: seq<Tag>, key: string)
    requires forall i :: 0 <= i < |tags| ==> !tags[i].ParaTag?
    ensures KeyCount(tags, key) == 0
  {
    if tags != [] { NoKeyCount(tags[..|tags| - 1], key); }
  }

  lemma TopNumbers(n: Node, s: Numbering, key: string)
    ensures NextId(Renumbered(n, s).nextIds, key) == NextId(s.nextIds, key) + KeyCount(TopTags(n, s), key)
    ensures forall i :: 0 <= i < |TopTags(n, s)| && TopTags(n, s)[i].ParaTag? ==>
      i == 0 && TopTags(n, s)[i].id == NextId(s.nextIds, TagKey(TopTags(n, s)[i]))
  {
    hide VerseTags, TableTags, HoldsVerses, CutAt, TagRef;
    var tags := TopTags(n, s);
    if !IsBlock(n) {
      VerseTagsAreVerses([n], s.chapter);
      NoKeyCount(tags, key);
    } else if n.name == "table" {
      TableApart(n.kids, s.tables + 1, 1, s.chapter);
      NoKeyCount(tags, key);
    } else if n.name != "chapter" {
      var verses := VerseTags(n.kids, s.chapter);
      VerseTagsAreVerses(n.kids, s.chapter);
      NoKeyCount(verses, key);
      KeyCountAppend([ParaTagOf(n, s)], verses, key);
      assert [ParaTagOf(n, s)][..0] == [];
    }
  }

  lemma {:induction false} NumbersFrom(ns: seq<Node>, s: Numbering, i: nat)
    requires i < |SectionTags(ns, s)| && SectionTags(ns, s)[i].ParaTag?
    ensures var tags := SectionTags(ns, s);
      tags[i].id == NextId(s.nextIds, TagKey(tags[i])) + KeyCount(tags[..i], TagKey(tags[i]))
    decreases ns
  {
    hide TopTags, Renumbered, NextId, TagKey;
    var tags, first, s1 := SectionTags(ns, s), TopTags(ns[0], s), Renumbered(ns[0], s);
    var key := TagKey(tags[i]);
    TopNumbers(ns[0], s, key);
    if i < |first| {
      assert tags[..i] == [];
    } else {
      var rest := SectionTags(ns[1..], s1);
      NumbersFrom(ns[1..], s1, i - |first|);
      assert tags[..i] == first + rest[..i - |first|];
      KeyCountAppend(first, rest[..i - |first|], key);
    }
  }

  /** In a section the paragraphs of each key are numbered from one on. */
  lemma {:induction false} ParagraphsNumbered(ns: seq<Node>, tables: nat, i: nat)
    requires var tags := SectionTags(ns, Fresh(tables)); i < |tags| && tags[i].ParaTag?
    ensures var tags := SectionTags(ns, Fresh(tables));
      tags[i].id == 1 + KeyCount(tags[..i], TagKey(tags[i]))
  {
    NumbersFrom(ns, Fresh(tables), i);
  }

  /** The cells of a table that are elements, by row and by their place in it. */
  predicate HasCell(rows: seq<Node>, r: nat, c: nat) {
    1 <= r <= |rows| && rows[r - 1].Elem? && 1 <= c <= |rows[r - 1].kids|
  }

  lemma {:induction false} RowNumbered(cells: seq<Node>, t: nat, r: nat, c: nat, chapter: Option<string>, tag: Tag)
    requires Cells(cells) && tag.CellTag?
    ensures tag in RowTags(cells, t, r, c, chapter)
      <==> tag.table == t && tag.row == r && c <= tag.cell < c + |cells|
    decreases cells
  {
    if cells != [] {
      VerseTagsAreVerses(cells[0].kids, chapter);
      VerseTagsAreVerses([cells[0]], chapter);
      RowNumbered(cells[1..], t, r, c + 1, chapter, tag);
      assert tag in CellTags(cells[0], t, r, c, chapter) <==> tag == CellTag(t, r, c);
    }
  }

  lemma {:induction false} RowsNumbered(rows: seq<Node>, t: nat, r: nat, chapter: Option<string>, tag: Tag)
    requires Rows(rows) && tag.CellTag?
    ensures tag in TableTags(rows, t, r, chapter)
      <==> tag.table == t && r <= tag.row && HasCell(rows, tag.row + 1 - r, tag.cell)
    decreases rows
  {
    hide RowTags, Cells;
    if rows != [] {
      RowNumbered(rows[0].kids, t, r, 1, chapter, tag);
      RowsNumbered(rows[1..], t, r + 1, chapter, tag);
    }
  }

  /** A table's cells carry its number in the book, their row's in the table and their own in the row, all from one. */
  lemma {:induction false} CellsNumbered(n: Node, s: Numbering, tag: Tag)
    requires TopLevel(n) && n.name == "table" && tag.CellTag?
    ensures tag in TopTags(n, s) <==> tag.table == s.tables + 1 && HasCell(n.kids, tag.row, tag.cell)
  {
    hide TableTags, Rows;
    RowsNumbered(n.kids, s.tables + 1, 1, s.chapter, tag);
  }
}
