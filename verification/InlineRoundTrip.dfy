/** Reading back what the walk emits for text, notes and nested character formatting. */
module InlineRoundTrip {
  import opened Wrappers
  import opened Decimal
  import opened UsxNodes
  import opened RichText
  import opened ChapterWalk
  import opened DeltaReading
  import opened Grammar

  // ----- identities of character formatting

  ghost predicate IssuedBefore(c: Attrs, g: nat) {
    "cid" in c && exists j: nat :: j < g && c["cid"] == Guid(j)
  }

  ghost predicate AllIssued(cs: seq<Attrs>, g: nat) {
    forall c :: c in cs ==> IssuedBefore(c, g)
  }

  lemma FreshGuid(cs: seq<Attrs>, attrs: Attrs, g: nat)
    requires AllIssued(cs, g) && "cid" !in attrs
    ensures CharObject(attrs, g) !in cs
    ensures AllIssued(cs + [CharObject(attrs, g)], g + 1)
  {
    var c := CharObject(attrs, g);
    if c in cs {
      var j: nat :| j < g && c["cid"] == Guid(j);
      RenderInjective(j, g);
      assert false;
    }
    assert c["cid"] == Guid(g);
  }

  // ----- alignment of the open characters

  /** Every open character has its own list of nodes, on top of at least one other. */
  predicate Sound(m: Machine) {
    m.Machine? && |m.stack| > |m.chars|
  }

  lemma {:induction false} ClosedSound(m: Machine, t: seq<Attrs>)
    requires Sound(m)
    ensures Sound(CharsClosed(m, t))
    decreases |m.chars|
  {
    if !(m.chars <= t) {
      ClosedSound(CharEnded(m), t);
    }
  }

  lemma {:induction false} OpenedSound(m: Machine, t: seq<Attrs>)
    requires Sound(m) && m.chars <= t
    ensures Sound(Opened(m, t)) && Opened(m, t).chars == t
    ensures Opened(m, t).content == m.content && Opened(m, t).table == m.table && Opened(m, t).row == m.row
    decreases |t| - |m.chars|
  {
    if m.chars != t {
      OpenedSound(m.(stack := m.stack + [[]], chars := t[..|m.chars| + 1]), t);
    }
  }

  lemma AlignedSound(m: Machine, t: seq<Attrs>)
    requires Sound(m)
    ensures Sound(Aligned(m, t)) && Aligned(m, t).chars == t
  {
    ClosedSound(m, t);
    CharsClosedPrefix(m, t);
    OpenedSound(CharsClosed(m, t), t);
  }

  lemma AlignedSame(m: Machine)
    requires m.Machine?
    ensures Aligned(m, m.chars) == m
  {
  }

  /** A character that is not open yet is opened inside its surroundings. */
  lemma AlignedInto(m: Machine, t: seq<Attrs>, c: Attrs)
    requires Sound(m) && c !in m.chars
    ensures var a := Aligned(m, t);
            a.Machine? && Aligned(m, t + [c]) == a.(stack := a.stack + [[]], chars := t + [c])
  {
    ClosedInto(m, t, c);
    ClosedSound(m, t);
    CharsClosedPrefix(m, t);
    OpenedInto(CharsClosed(m, t), t, c);
    OpenedSound(CharsClosed(m, t), t);
  }

  lemma PrefixSplit<T>(p: seq<T>, t: seq<T>, c: T)
    requires p <= t + [c]
    ensures p <= t || c in p
  {
    if |p| > |t| {
      assert p[|t|] == c;
    }
  }

  lemma {:induction false} ClosedInto(m: Machine, t: seq<Attrs>, c: Attrs)
    requires Sound(m) && c !in m.chars
    ensures CharsClosed(m, t + [c]) == CharsClosed(m, t)
    decreases |m.chars|
  {
    if m.chars <= t + [c] {
      PrefixSplit(m.chars, t, c);
    } else {
      ClosedInto(CharEnded(m), t, c);
    }
  }

  lemma {:induction false} OpenedInto(m: Machine, t: seq<Attrs>, c: Attrs)
    requires m.Machine? && m.chars <= t
    ensures var a := Opened(m, t); a.Machine? && Opened(m, t + [c]) == a.(stack := a.stack + [[]], chars := t + [c])
    decreases |t| - |m.chars|
  {
    if m.chars == t {
      assert (t + [c])[..|t| + 1] == t + [c];
    } else {
      assert (t + [c])[..|m.chars| + 1] == t[..|m.chars| + 1];
      OpenedInto(m.(stack := m.stack + [[]], chars := t[..|m.chars| + 1]), t, c);
    }
  }

  /** Leaving a character closes it. */
  lemma {:induction false} AlignedOutOf(m: Machine, t: seq<Attrs>, c: Attrs)
    requires Sound(m) && t + [c] <= m.chars
    ensures Aligned(m, t) == CharEnded(Aligned(m, t + [c]))
    decreases |m.chars|
  {
    assert !(m.chars <= t);
    if |m.chars| == |t| + 1 {
      assert m.chars == t + [c];
      assert CharEnded(m).chars == t;
      assert CharsClosed(m, t) == CharsClosed(CharEnded(m), t) == CharEnded(m);
    } else {
      assert !(m.chars <= t + [c]);
      AlignedOutOf(CharEnded(m), t, c);
    }
  }

  // ----- one op at a time

  lemma Appending(ops: seq<Op>, op: Op)
    requires op.insert != Str("") && (op.insert.Str? ==> !Merges(ops, op.fmt))
    ensures Appended(ops, op) == ops + [op]
    ensures Run(ops + [op]) == Step(Run(ops), op)
  {
    assert (ops + [op])[..|ops|] == ops;
  }

  ghost predicate KeepsChars(m: Machine, m1: Machine) {
    m1.Machine? ==> m.Machine? && m1.chars == m.chars
  }

  lemma {:induction false} PaddedChars(m: Machine)
    ensures KeepsChars(m, PaddedTo2(m))
    decreases if m.Fault? then 0 else 2 - |m.stack|
  {
    if m.Machine? && |m.stack| < 2 {
      PaddedChars(Push(m));
    }
  }

  lemma TableLeftChars(m: Machine)
    ensures KeepsChars(m, TableLeft(m))
  {
  }

  lemma CellEndedChars(m: Machine, fmt: Fmt)
    requires fmt.table.Some?
    ensures KeepsChars(m, CellEnded(m, fmt.table.value, fmt.row, fmt.cell))
  {
    var m1 := RowsClosed(Pop(m), fmt.table.value, fmt.row);
    assert KeepsChars(Pop(m), m1);
    PaddedChars(m1);
  }

  lemma FormattedChars(m: Machine, text: string, fmt: Fmt)
    ensures KeepsChars(m, FormattedTextRead(m, text, fmt))
  {
    var m1 := if fmt.block.Some? then BlockRead(m, fmt.block.value, |text|) else m;
    assert KeepsChars(m, m1);
    var m2 := if fmt.ref.Some? then AddTop(m1, [Container("ref", fmt.ref.value, [Text(text)])]) else m1;
    assert KeepsChars(m1, m2);
  }

  lemma TableTrackedChars(m: Machine, text: string, fmt: Fmt)
    ensures KeepsChars(m, TableTracked(m, text, fmt))
  {
    TableLeftChars(m);
    if fmt.table.Some? {
      CellEndedChars(m, fmt);
    }
  }

  lemma TextReadChars(m: Machine, text: string, fmt: Fmt)
    ensures KeepsChars(m, TextRead(m, text, fmt))
  {
    TableTrackedChars(m, text, fmt);
    var m1 := TableTracked(m, text, fmt);
    FormattedChars(m1, text, fmt);
    assert KeepsChars(m1, PlainTextRead(m1, text));
  }

  /** The open characters are those of the last op. */
  lemma {:induction false} RunChars(ops: seq<Op>)
    requires ops != [] && Run(ops).Machine?
    ensures Run(ops).chars == Last(ops).fmt.chars
  {
    StepChars(Run(ops[..|ops| - 1]), Last(ops));
  }

  lemma StepChars(m: Machine, op: Op)
    ensures Step(m, op).Machine? ==> Step(m, op).chars == op.fmt.chars
  {
    var a := Aligned(m, op.fmt.chars);
    AlignedChars(m, op.fmt.chars);
    match op.insert
    case Str(text) => TextReadChars(a, text, op.fmt);
    case Blank => assert Step(m, op) == a;
    case Empty => assert Step(m, op) == a;
    case Embed(name, attrs, contents) =>
      if name == "chapter" {
        assert KeepsChars(a, ChapterRead(a, attrs));
      } else {
        var kids := ProcessDelta(contents);
        assert kids.Some? ==> KeepsChars(a, AddTop(a, [Container(name, attrs, kids.value)]));
      }
  }

  lemma AlignedChars(m: Machine, t: seq<Attrs>)
    ensures Aligned(m, t).Machine? ==> Aligned(m, t).chars == t
  {
    CharsClosedPrefix(m, t);
    if CharsClosed(m, t).Machine? {
      OpenedChars(CharsClosed(m, t), t);
    }
  }

  lemma {:induction false} OpenedChars(m: Machine, t: seq<Attrs>)
    requires m.Machine? && m.chars <= t
    ensures Opened(m, t).Machine? && Opened(m, t).chars == t
    decreases |t| - |m.chars|
  {
    if m.chars != t {
      OpenedChars(m.(stack := m.stack + [[]], chars := t[..|m.chars| + 1]), t);
    }
  }

  // ----- nodes

  /** The formatting that surrounds inline nodes: open characters, one of which may be marked invalid. */
  predicate Surrounding(f: Fmt) {
    f == PLAIN.(chars := f.chars, invalidInline := f.invalidInline) && (f.chars == [] ==> f == PLAIN)
  }

  ghost predicate Ready(w: Walk) {
    Sound(Run(w.ops)) && AllIssued(Run(w.ops).chars, w.nextGuid)
  }

  /** The op this node adds will not extend the last one. */
  predicate CanFollow(w: Walk, n: Node, f: Fmt) {
    (n.Text? ==> !Merges(w.ops, WithSegment(f, w.curRef)))
    && (IsElement(n, "ref") ==>
          !Merges(w.ops, WithSegment(InlineInvalid(f.(ref := Some(n.attrs)), n.invalid), w.curRef)))
  }

  /** Reading what was emitted between `w` and `w1` adds `nodes` within the surrounding formatting. */
  ghost predicate Adds(w: Walk, w1: Walk, f: Fmt, nodes: seq<Node>) {
    Ready(w1)
    && w.nextGuid <= w1.nextGuid
    && Aligned(Run(w1.ops), f.chars) == AddTop(Aligned(Run(w.ops), f.chars), nodes)
    && w1 == w.(ops := w1.ops, curRef := w1.curRef, nextGuid := w1.nextGuid, lastVerse := w1.lastVerse)
    && (w.curRef.Some? ==> w1.curRef.Some?)
  }

  /** The last op after an inline node. */
  ghost predicate EndsWith(w1: Walk, n: Node, f: Fmt) {
    w1.ops != [] && Run(w1.ops).Machine? && f.chars <= Run(w1.ops).chars
    && var l := Last(w1.ops);
       l.fmt.block.None? && l.fmt.table.None?
       && (l.insert.Str? ==>
             (n.Text? && l.fmt.chars == f.chars && l.fmt.ref.None?)
             || (IsElement(n, "ref") && l.fmt.chars == f.chars && l.fmt.ref == Some(n.attrs))
             || |l.fmt.chars| > |f.chars|)
  }

  lemma NextCanFollow(w1: Walk, n: Node, next: Node, f: Fmt)
    requires EndsWith(w1, n, f) && Apart(n, next) && Surrounding(f)
    ensures CanFollow(w1, next, f)
  {
  }

  /** An op within the surrounding formatting puts the reader right there. */
  lemma OpAdded(w: Walk, op: Op, f: Fmt, a: Machine)
    requires Ready(w) && AllIssued(f.chars, w.nextGuid)
    requires op.fmt.chars == f.chars && op.insert != Str("") && (op.insert.Str? ==> !Merges(w.ops, op.fmt))
    requires a == Aligned(Run(w.ops), f.chars)
    ensures Appended(w.ops, op) == w.ops + [op]
    ensures Sound(a) && a.chars == f.chars
    ensures match op.insert
            case Str(text) => Run(w.ops + [op]) == TextRead(a, text, op.fmt)
            case Embed(_, _, _) => Run(w.ops + [op]) == Step(Run(w.ops), op)
            case _ => Run(w.ops + [op]) == a
  {
    Appending(w.ops, op);
    AlignedSound(Run(w.ops), f.chars);
  }

  lemma ReadText(a: Machine, text: string, f: Fmt, segRef: Option<string>)
    requires a.Machine? && a.stack != [] && TextContent(text) && Surrounding(f)
    ensures TextRead(a, text, WithSegment(f, segRef)) == AddTop(a, [Text(text)])
  {
    assert text[|text| - 1] in text;
    assert TableTracked(a, text, WithSegment(f, segRef)) == a;
  }

  lemma ReadRef(a: Machine, text: string, f: Fmt, attrs: Attrs, invalid: bool, segRef: Option<string>)
    requires a.Machine? && a.stack != [] && TextContent(text) && Surrounding(f)
    ensures TextRead(a, text, WithSegment(InlineInvalid(f.(ref := Some(attrs)), invalid), segRef))
         == AddTop(a, [Container("ref", attrs, [Text(text)])])
  {
    assert text[|text| - 1] in text;
    var fmt := WithSegment(InlineInvalid(f.(ref := Some(attrs)), invalid), segRef);
    assert TableTracked(a, text, fmt) == a;
    assert fmt != PLAIN.(segment := fmt.segment);
  }

  lemma OneOp(w: Walk, w1: Walk, op: Op, f: Fmt, node: Node)
    requires Ready(w) && AllIssued(f.chars, w.nextGuid) && op.fmt.chars == f.chars
    requires w1 == w.(ops := w.ops + [op], curRef := w1.curRef, nextGuid := w1.nextGuid, lastVerse := w1.lastVerse)
      && w.nextGuid <= w1.nextGuid
    requires w.curRef.Some? ==> w1.curRef.Some?
    requires Run(w1.ops) == AddTop(Aligned(Run(w.ops), f.chars), [node])
    ensures Adds(w, w1, f, [node]) && Run(w1.ops).chars == f.chars
  {
    AlignedSound(Run(w.ops), f.chars);
    AlignedSame(Run(w1.ops));
  }

  lemma TextRoundTrip(n: Node, w: Walk, f: Fmt)
    requires n.Text? && TextContent(n.value)
    requires Ready(w) && Surrounding(f) && AllIssued(f.chars, w.nextGuid) && CanFollow(w, n, f)
    ensures Adds(w, WalkNode(n, w, f), f, [n]) && EndsWith(WalkNode(n, w, f), n, f)
  {
    var a := Aligned(Run(w.ops), f.chars);
    var op := Op(Str(n.value), WithSegment(f, w.curRef));
    OpAdded(w, op, f, a);
    ReadText(a, n.value, f, w.curRef);
    AlignedSame(AddTop(a, [n]));
  }

  lemma RefRoundTrip(n: Node, w: Walk, f: Fmt)
    requires IsElement(n, "ref") && Inline(n, f.chars != [])
    requires Ready(w) && Surrounding(f) && AllIssued(f.chars, w.nextGuid) && CanFollow(w, n, f)
    ensures Adds(w, WalkNode(n, w, f), f, [Unmark(n)]) && EndsWith(WalkNode(n, w, f), n, f)
  {
    hide Run, Aligned;
    var a := Aligned(Run(w.ops), f.chars);
    var text := n.kids[0].value;
    assert TextOf(n.kids) == text + TextOf(n.kids[1..]) == text;
    var op := Op(Str(text), WithSegment(InlineInvalid(f.(ref := Some(n.attrs)), n.invalid), w.curRef));
    OpAdded(w, op, f, a);
    assert UnmarkAll(n.kids) == [n.kids[0]];
    assert Restored(n.attrs) == n.attrs;
    ReadRef(a, text, f, n.attrs, n.invalid, w.curRef);
    AlignedSame(AddTop(a, [Unmark(n)]));
  }

  lemma VerseRoundTrip(n: Node, w: Walk, f: Fmt)
    requires IsElement(n, "verse") && Inline(n, false)
    requires Ready(w) && f == PLAIN
    ensures Adds(w, WalkNode(n, w, f), f, [Unmark(n)]) && EndsWith(WalkNode(n, w, f), n, f)
  {
    hide Run, Aligned, SegmentEnded, Step, AddTop;
    SegmentEndedReady(w);
    var w0 := w.(ops := SegmentEnded(w.ops, w.curRef));
    var op := Op(Embed("verse", n.attrs, []), InlineInvalid(PLAIN, n.invalid));
    assert Restored(n.attrs) == n.attrs;
    NothingRead();
    EmbedRead(Run(w0.ops), op, []);
    var w1 := WalkNode(n, w, f);
    Appending(w0.ops, op);
    OneOp(w0, w1, op, f, Unmark(n));
  }

  lemma NothingRead()
    ensures ProcessDelta([]) == Some([])
  {
    assert Run([]) == INITIAL && CharsClosed(INITIAL, []) == INITIAL;
    assert [] + Top(INITIAL) == [];
  }

  /** A blank is read as nothing. */
  lemma SegmentEndedReady(w: Walk)
    requires Ready(w)
    ensures var w1 := w.(ops := SegmentEnded(w.ops, w.curRef));
            Ready(w1) && Aligned(Run(w1.ops), []) == Aligned(Run(w.ops), [])
  {
    var a := Aligned(Run(w.ops), []);
    OpAdded(w, Op(Blank, PLAIN.(segment := w.curRef)), PLAIN, a);
    AlignedSame(a);
  }

  lemma EmbedRead(m: Machine, op: Op, kids: seq<Node>)
    requires op.insert.Embed? && op.insert.name !in {"chapter", "blank", "empty"}
    requires ProcessDelta(op.insert.contents) == Some(kids)
    ensures Step(m, op) == AddTop(Aligned(m, op.fmt.chars), [Container(op.insert.name, op.insert.attrs, kids)])
  {
  }

  lemma {:induction false} CharRoundTrip(n: Node, w: Walk, f: Fmt)
    requires IsElement(n, "char") && Inline(n, f.chars != [])
    requires Ready(w) && Surrounding(f) && AllIssued(f.chars, w.nextGuid)
    ensures Adds(w, WalkChar(n, w, f), f, [Unmark(n)]) && EndsWith(WalkChar(n, w, f), n, f)
    decreases n, 0
  {
    hide WalkNode, WalkNodes, Run, Aligned, UnmarkAll;
    var c := CharObject(n.attrs, w.nextGuid);
    var g := CharFmt(n.attrs, n.invalid, w.nextGuid, f);
    var w0 := w.(nextGuid := w.nextGuid + 1);
    FreshGuid(Run(w.ops).chars, n.attrs, w.nextGuid);
    FreshGuid(f.chars, n.attrs, w.nextGuid);
    var w1 := WalkChar(n, w, f);
    if n.kids == [] {
      EmptyCharRoundTrip(w0, w1, g);
    } else {
      FirstCanFollow(w0, n.kids[0], g, c);
      InlinesRoundTrip(n.kids, w0, g);
    }
    CharLeft(w, w1, n, f, c, g);
  }

  /** What was added inside a new character is, seen from its surroundings, one element. */
  lemma CharLeft(w: Walk, w1: Walk, n: Node, f: Fmt, c: Attrs, g: Fmt)
    requires Ready(w) && IsElement(n, "char") && PlainAttrs(n.attrs) && "cid" !in n.attrs && c - {"cid"} == n.attrs
    requires g.chars == f.chars + [c] && c !in Run(w.ops).chars
    requires Adds(w.(nextGuid := w.nextGuid + 1), w1, g, UnmarkAll(n.kids))
    requires w1.ops != [] && g.chars <= Run(w1.ops).chars
    requires Last(w1.ops).fmt.block.None? && Last(w1.ops).fmt.table.None?
    ensures Adds(w, w1, f, [Unmark(n)]) && EndsWith(w1, n, f)
  {
    AlignedSound(Run(w.ops), f.chars);
    AlignedInto(Run(w.ops), f.chars, c);
    AlignedOutOf(Run(w1.ops), f.chars, c);
    CharClosed(Aligned(Run(w.ops), f.chars), f.chars, n, c, UnmarkAll(n.kids));
    RunChars(w1.ops);
  }

  lemma EmptyCharRoundTrip(w: Walk, w1: Walk, g: Fmt)
    requires Ready(w) && AllIssued(g.chars, w.nextGuid)
    requires w1 == w.(ops := Appended(w.ops, Op(Empty, g.(segment := w.curRef))))
    ensures Adds(w, w1, g, []) && w1.ops != [] && Run(w1.ops).chars == g.chars
    ensures Last(w1.ops).fmt == g.(segment := w.curRef)
  {
    Appending(w.ops, Op(Empty, g.(segment := w.curRef)));
    var a := Aligned(Run(w.ops), g.chars);
    AlignedSound(Run(w.ops), g.chars);
    AlignedSame(a);
    AddedNothing(a);
  }

  /** Text in a new character never extends the last op. */
  lemma FirstCanFollow(w: Walk, n: Node, g: Fmt, c: Attrs)
    requires Ready(w) && c in g.chars && c !in Run(w.ops).chars
    ensures CanFollow(w, n, g)
  {
    if w.ops != [] {
      RunChars(w.ops);
    }
  }

  lemma CharClosed(a: Machine, t: seq<Attrs>, n: Node, c: Attrs, kids: seq<Node>)
    requires a.Machine? && a.stack != [] && a.chars == t
    requires IsElement(n, "char") && PlainAttrs(n.attrs) && "cid" !in n.attrs && c - {"cid"} == n.attrs
    ensures CharEnded(AddTop(a.(stack := a.stack + [[]], chars := t + [c]), kids))
         == AddTop(a, [Elem("char", n.attrs, kids, false)])
  {
    var b := AddTop(a.(stack := a.stack + [[]], chars := t + [c]), kids);
    assert [] + kids == kids;
    assert b.stack == a.stack + [kids];
    assert Restored(n.attrs) == n.attrs;
    assert Pop(b.(chars := t)).stack == a.stack;
  }

  lemma EmbedRoundTrip(n: Node, w: Walk, f: Fmt)
    requires n.Elem? && n.name !in STRUCTURAL + {"ref", "verse", "char"} && Inline(n, f.chars != [])
    requires Ready(w) && Surrounding(f) && AllIssued(f.chars, w.nextGuid)
    ensures Adds(w, WalkEmbed(n, w, f), f, [Unmark(n)]) && EndsWith(WalkEmbed(n, w, f), n, f)
    decreases n, 0
  {
    hide Run, Aligned, WalkNodes, WalkNode;
    var inner := WalkNodes(n.kids, FreshState([], w.nextGuid), PLAIN);
    ContentsRoundTrip(n.kids, w.nextGuid);
    var op := Op(Embed(n.name, n.attrs, inner.ops), WithSegment(InlineInvalid(f, n.invalid), w.curRef));
    EmbedRead(Run(w.ops), op, UnmarkAll(n.kids));
    assert Restored(n.attrs) == n.attrs;
    Appending(w.ops, op);
    OneOp(w, WalkEmbed(n, w, f), op, f, Unmark(n));
  }

  /** The delta inside an embed describes its children. */
  lemma {:induction false} ContentsRoundTrip(ns: seq<Node>, g: nat)
    requires Inlines(ns, false)
    ensures var w1 := WalkNodes(ns, FreshState([], g), PLAIN);
            ProcessDelta(w1.ops) == Some(UnmarkAll(ns)) && w1.nextGuid >= g
    decreases ns, 1
  {
    var w := FreshState([], g);
    InlinesRoundTrip(ns, w, PLAIN);
    var w1 := WalkNodes(ns, w, PLAIN);
    AlignedSame(INITIAL);
    InlineFinished(Run(w1.ops), UnmarkAll(ns));
  }

  lemma InlineFinished(m: Machine, kids: seq<Node>)
    requires Sound(m) && Aligned(m, []) == AddTop(INITIAL, kids)
    ensures Finished(m) == Some(kids)
  {
    AllClosed(m);
    assert [] + kids == kids;
    assert AddTop(INITIAL, kids).stack == [kids];
  }

  lemma AllClosed(m: Machine)
    requires Sound(m)
    ensures CharsClosed(m, []) == Aligned(m, [])
  {
    ClosedSound(m, []);
    CharsClosedPrefix(m, []);
  }

  lemma {:induction false} NodeRoundTrip(n: Node, w: Walk, f: Fmt)
    requires Inline(n, f.chars != [])
    requires Ready(w) && Surrounding(f) && AllIssued(f.chars, w.nextGuid) && CanFollow(w, n, f)
    ensures Adds(w, WalkNode(n, w, f), f, [Unmark(n)]) && EndsWith(WalkNode(n, w, f), n, f)
    decreases n, 1
  {
    if n.Text? {
      TextRoundTrip(n, w, f);
    } else if n.name == "ref" {
      RefRoundTrip(n, w, f);
    } else if n.name == "verse" {
      VerseRoundTrip(n, w, f);
    } else if n.name == "char" {
      CharRoundTrip(n, w, f);
    } else {
      EmbedRoundTrip(n, w, f);
    }
  }

  /** Inline nodes, flattened into ops and read back, are themselves. */
  lemma {:induction false} InlinesRoundTrip(ns: seq<Node>, w: Walk, f: Fmt)
    requires Inlines(ns, f.chars != [])
    requires Ready(w) && Surrounding(f) && AllIssued(f.chars, w.nextGuid) && (ns != [] ==> CanFollow(w, ns[0], f))
    ensures Adds(w, WalkNodes(ns, w, f), f, UnmarkAll(ns))
    ensures ns != [] ==> EndsWith(WalkNodes(ns, w, f), ns[|ns| - 1], f)
    decreases ns, 0
  {
    if ns == [] {
      AlignedSound(Run(w.ops), f.chars);
      AddedNothing(Aligned(Run(w.ops), f.chars));
    } else {
      NodeRoundTrip(ns[0], w, f);
      var w1 := WalkNode(ns[0], w, f);
      if |ns| > 1 {
        NextCanFollow(w1, ns[0], ns[1], f);
      }
      InlinesRoundTrip(ns[1..], w1, f);
      AddedTwice(Aligned(Run(w.ops), f.chars), [Unmark(ns[0])], UnmarkAll(ns[1..]));
    }
  }

  lemma AddedTwice(m: Machine, a: seq<Node>, b: seq<Node>)
    ensures AddTop(AddTop(m, a), b) == AddTop(m, a + b)
  {
    if m.Machine? && m.stack != [] {
      assert Top(AddTop(m, a)) == Top(m) + a;
      assert (Top(m) + a) + b == Top(m) + (a + b);
      assert AddTop(AddTop(m, a), b).stack == AddTop(m, a + b).stack;
    }
  }

  lemma AddedNothing(m: Machine)
    requires m.Machine? && m.stack != []
    ensures AddTop(m, []) == m
  {
    assert Top(m) + [] == Top(m);
    assert AddTop(m, []).stack == m.stack;
  }

  // ----- what inline nodes leave alone

  /** Inline nodes leave what belongs to the chapter alone. */
  lemma {:induction false} InlineKeeps(n: Node, w: Walk, f: Fmt)
    requires Inline(n, f.chars != [])
    ensures var w1 := WalkNode(n, w, f);
      w1 == w.(ops := w1.ops, curRef := w1.curRef, nextGuid := w1.nextGuid, lastVerse := w1.lastVerse)
    decreases n, 1
  {
    if IsElement(n, "char") {
      var f1 := CharFmt(n.attrs, n.invalid, w.nextGuid, f);
      InlinesKeep(n.kids, w.(nextGuid := w.nextGuid + 1), f1);
    }
  }

  lemma {:induction false} InlinesKeep(ns: seq<Node>, w: Walk, f: Fmt)
    requires Inlines(ns, f.chars != [])
    ensures var w1 := WalkNodes(ns, w, f);
      w1 == w.(ops := w1.ops, curRef := w1.curRef, nextGuid := w1.nextGuid, lastVerse := w1.lastVerse)
    decreases ns, 0
  {
    if ns != [] {
      InlineKeeps(ns[0], w, f);
      InlinesKeep(ns[1..], WalkNode(ns[0], w, f), f);
    }
  }
}
