/** Rich text: a document is a list of insertions, each with formatting attributes. */
module RichText {
  import opened Wrappers
  import opened UsxNodes

  datatype Insert =
    | Str(text: string)
    | Blank
    | Empty
    | Embed(name: string, attrs: Attrs, contents: seq<Op>)

  /** The `attributes` object of an op, one field for each property the mapper writes or reads. */
  datatype Fmt = Fmt(
    segment: Option<string>,
    chars: seq<Attrs>,
    ref: Option<Attrs>,
    block: Option<Block>,
    table: Option<Attrs>,
    row: Option<Attrs>,
    cell: Option<Attrs>,
    invalidInline: bool,
    invalidBlock: bool)

  /** A `para` or `book` property. */
  datatype Block = Block(name: string, attrs: Attrs)

  datatype Op = Op(insert: Insert, fmt: Fmt)

  /** No attributes at all: an empty attribute object is never stored. */
  const PLAIN := Fmt(None, [], None, None, None, None, None, false, false)

  function Last(ops: seq<Op>): Op
    requires ops != []
  {
    ops[|ops| - 1]
  }

  /** Whether inserting text with this formatting extends the last op instead of adding one. */
  predicate Merges(ops: seq<Op>, fmt: Fmt) {
    ops != [] && Last(ops).insert.Str? && Last(ops).fmt == fmt
  }

  /** What a delta becomes when an op is inserted at its end. */
  function Appended(ops: seq<Op>, op: Op): seq<Op> {
    if op.insert == Str("") then ops
    else if op.insert.Str? && Merges(ops, op.fmt) then
      ops[..|ops| - 1] + [Op(Str(Last(ops).insert.text + op.insert.text), op.fmt)]
    else ops + [op]
  }

  function WithSegment(fmt: Fmt, segRef: Option<string>): Fmt {
    if segRef.None? then fmt else fmt.(segment := segRef)
  }

  /** The builder the mapper inserts into, with the op builders it uses. */
  class Delta {
    var ops: seq<Op>

    constructor ()
      ensures ops == []
    {
      ops := [];
    }

    method Insert(insert: Insert, fmt: Fmt)
      modifies this
      ensures ops == Appended(old(ops), Op(insert, fmt))
    {
      if insert == Str("") {
        return;
      }
      if ops != [] {
        var lastOp := ops[|ops| - 1];
        if fmt == lastOp.fmt && insert.Str? && lastOp.insert.Str? {
          ops := ops[|ops| - 1 := Op(Str(lastOp.insert.text + insert.text), fmt)];
          return;
        }
      }
      ops := ops + [Op(insert, fmt)];
    }

    method InsertText(text: string, segRef: Option<string>, fmt: Fmt)
      modifies this
      ensures ops == Appended(old(ops), Op(Str(text), WithSegment(fmt, segRef)))
    {
      Insert(Str(text), WithSegment(fmt, segRef));
    }

    method InsertBlank(segRef: string)
      modifies this
      ensures ops == Appended(old(ops), Op(Blank, PLAIN.(segment := Some(segRef))))
    {
      Insert(Blank, PLAIN.(segment := Some(segRef)));
    }

    method InsertEmpty(segRef: Option<string>, fmt: Fmt)
      modifies this
      ensures ops == Appended(old(ops), Op(Empty, fmt.(segment := segRef)))
    {
      Insert(Empty, fmt.(segment := segRef));
    }

    method InsertEmbed(name: string, attrs: Attrs, contents: seq<Op>, segRef: Option<string>, fmt: Fmt)
      modifies this
      ensures ops == Appended(old(ops), Op(Embed(name, attrs, contents), WithSegment(fmt, segRef)))
    {
      Insert(Embed(name, attrs, contents), WithSegment(fmt, segRef));
    }
  }
}
