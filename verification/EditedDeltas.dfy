/** What the reader makes of ops that the mapper does not write itself but an editor can. */
module EditedDeltas {
  import opened Wrappers
  import opened UsxNodes
  import opened RichText
  import opened ChapterWalk
  import opened DeltaReading

  // ----- line breaks

  lemma {:induction false} CopiesRepeated(n: Node, times: nat)
    ensures |Repeated(n, times)| == times
    ensures forall i :: 0 <= i < times ==> Repeated(n, times)[i] == n
  {
    if times > 0 { CopiesRepeated(n, times - 1); }
  }

  /** A paragraph's op with several line breaks gives as many copies of the paragraph, each with all that was open. */
  lemma {:induction false} ParagraphsRead(m: Machine, block: Block, text: string)
    requires m.Machine? && m.stack != [] && m.chars == [] && m.table.None? && text != ""
    ensures var r := Step(m, Op(Str(text), PLAIN.(block := Some(block))));
      && r.Machine? && |r.content| == |m.content| + |text| && m.content <= r.content
      && (forall i :: |m.content| <= i < |r.content| ==>
            r.content[i] == Elem(block.name, Restored(block.attrs), m.stack[|m.stack| - 1], false))
      && r.stack == m.stack[|m.stack| - 1 := []] && r.chars == [] && r.table == None && r.row == m.row
  {
    CopiesRepeated(Container(block.name, block.attrs, Top(m)), |text|);
  }

  /** Only line breaks go, and the rest keeps its order. */
  lemma {:induction false} BreaksRemoved(a: string, b: string, c: char)
    ensures WithoutLineBreaks(a + b) == WithoutLineBreaks(a) + WithoutLineBreaks(b)
    ensures WithoutLineBreaks([c]) == if c == '\n' then "" else [c]
  {
    if a == [] {
      assert a + b == b;
    } else {
      assert (a + b)[0] == a[0] && (a + b)[1..] == a[1..] + b;
      BreaksRemoved(a[1..], b, c);
    }
    assert [c][1..] == [];
  }

  /** Plain text that ends in a line break is one text without any, and closes what waited as an implied paragraph. */
  lemma {:induction false} ImpliedParagraphRead(m: Machine, text: string)
    requires m.Machine? && m.stack != [] && m.chars == [] && m.table.None?
    requires text != "" && text[|text| - 1] == '\n'
    ensures var r := Step(m, Op(Str(text), PLAIN));
      r == m.(content := m.content + m.stack[|m.stack| - 1]
                         + (if text == "\n" then [] else [Text(WithoutLineBreaks(text))]),
              stack := m.stack[|m.stack| - 1 := []])
  {
    assert Aligned(m, []) == m;
    assert m.content + (Top(m) + [Text(WithoutLineBreaks(text))])
        == m.content + Top(m) + [Text(WithoutLineBreaks(text))];
    assert m.content + Top(m) + [] == m.content + Top(m);
  }

  // ----- cells without a row

  /** While a table is open, a cell that names no row cannot be read, nor any cell after one that named none. */
  lemma {:induction false} RowlessCellThrows(m: Machine, text: string, fmt: Fmt)
    requires m.Machine? && m.table.Some? && m.chars == [] && fmt.chars == [] && fmt.table.Some?
    requires m.row.None? || fmt.row.None?
    ensures Step(m, Op(Str(text), fmt)).Fault?
  {
    hide WithoutLineBreaks;
    assert Aligned(m, []) == m;
    assert TableTracked(m, text, fmt).Fault?;
  }

  // ----- what leaves no trace

  /** The identifiers that only a delta has, and the mark of validation, are no attributes of an element. */
  lemma AttributesRestored(attrs: Attrs, key: string)
    ensures Lookup(Restored(attrs), key) == if key == "id" || key == "invalid" then None else Lookup(attrs, key)
  {
  }

  /** An identity that a character style brings along is kept; else it gets a new one, which reading takes away. */
  lemma IdentityKept(attrs: Attrs, guid: nat, key: string)
    ensures Lookup(CharObject(attrs, guid), key)
      == if key == "cid" && "cid" !in attrs then Some(Guid(guid)) else Lookup(attrs, key)
  {
  }

  /** Blanks and empty characters add nothing, however they are spelled. */
  lemma BlanksSkipped(m: Machine, name: string, attrs: Attrs, contents: seq<Op>, fmt: Fmt)
    requires name == "blank" || name == "empty"
    ensures Step(m, Op(Embed(name, attrs, contents), fmt)) == Aligned(m, fmt.chars)
    ensures Step(m, Op(Blank, fmt)) == Step(m, Op(Empty, fmt)) == Aligned(m, fmt.chars)
  {
  }

  // ----- the text of an element

  /** All text below, whatever it is in. */
  lemma {:induction false} TextBelow(a: seq<Node>, b: seq<Node>, n: Node)
    ensures TextOf(a + b) == TextOf(a) + TextOf(b)
    ensures TextOf([n]) == match n case Text(v) => v case Elem(_, _, kids, _) => TextOf(kids)
  {
    if a == [] {
      assert a + b == b;
    } else {
      assert (a + b)[0] == a[0] && (a + b)[1..] == a[1..] + b;
      TextBelow(a[1..], b, n);
    }
    assert [n][1..] == [];
  }
}
