/**
 * What splicing chapter deltas into an existing book does, as a function on the nodes still to be visited.
 * UsxSplicer.dfy holds the loop that edits the document in place.
 */
module Splicing {
  import opened Wrappers
  import opened Decimal
  import opened UsxNodes
  import opened RichText
  import opened ChapterWalk
  import DeltaReading

  /** `Corrupt` stands for every exception that is reported as a problem with the deltas. */
  datatype UsxError = NoDeltas | InvalidFirstChapter | Corrupt

  type Spliced = Result<seq<Node>, UsxError>

  function Prepend(ns: seq<Node>, r: Spliced): Spliced {
    if r.Failure? then r else Success(ns + r.value)
  }

  /** The nodes a delta contributes; an invalid one contributes none. */
  function Contribution(d: ChapterDelta): Spliced {
    if !d.isValid then Success([])
    else
      var doc := DeltaReading.ProcessDelta(d.ops);
      if doc.None? then Failure(Corrupt) else Success(doc.value)
  }

  function Contributions(ds: seq<ChapterDelta>): Spliced {
    if ds == [] then Success([])
    else
      var c := Contribution(ds[0]);
      if c.Failure? then c else Prepend(c.value, Contributions(ds[1..]))
  }

  predicate HasBookOp(ops: seq<Op>) {
    exists i :: 0 <= i < |ops| && IsBookOp(ops[i])
  }

  predicate IsBookOp(op: Op) {
    op.fmt.block.Some? && op.fmt.block.value.name == "book"
  }

  /** A node goes when the current delta replaces its chapter; a `book` only if the delta brings another. */
  predicate Removed(n: Node, d: ChapterDelta, cur: int) {
    d.number == cur && d.isValid && (!IsElement(n, "book") || HasBookOp(d.ops))
  }

  function ChapterNumber(n: Node): Option<int>
    requires n.Elem?
  {
    var number := Attr(n, "number");
    if number.None? then None else ParseInt(number.value)
  }

  /** The chapter being left, whose delta is `ds[i]` if the numbers agree. */
  function Leaving(ds: seq<ChapterDelta>, i: nat, cur: int): Spliced
    requires i < |ds|
  {
    if ds[i].number == cur then Contribution(ds[i]) else Success([])
  }

  function Left(ds: seq<ChapterDelta>, i: nat, cur: int): nat
    requires i < |ds|
  {
    if ds[i].number == cur then i + 1 else i
  }

  /** The first delta that does not belong before chapter `cur`, counted past the end if there is none. */
  function Skipped(ds: seq<ChapterDelta>, i: nat, cur: int): (k: nat)
    requires i <= |ds|
    ensures i <= k <= |ds|
    decreases |ds| - i
  {
    if i < |ds| && ds[i].number < cur then Skipped(ds, i + 1, cur) else i
  }

  /** What meeting a later chapter does before the visit of its section. */
  datatype Met =
    | Failed
    | AllPlaced(added: seq<Node>)
    | GoOn(added: seq<Node>, i: nat, cur: int)

  function ChapterMet(n: Node, ds: seq<ChapterDelta>, i: nat, cur: int): (met: Met)
    requires i < |ds| && n.Elem?
    ensures met.GoOn? ==> met.i < |ds|
  {
    var before := Leaving(ds, i, cur);
    var i1 := Left(ds, i, cur);
    var cur1 := if ChapterNumber(n).None? then cur else ChapterNumber(n).value;
    if before.Failure? then Failed
    else if i1 >= |ds| then AllPlaced(before.value)
    else
      var k := Skipped(ds, i1, cur1);
      var added := Contributions(ds[i1..k]);
      if added.Failure? || k >= |ds| then Failed else GoOn(before.value + added.value, k, cur1)
  }

  /** The visit of the remaining nodes. `found` says that the first chapter has been seen. */
  function Splice(nodes: seq<Node>, ds: seq<ChapterDelta>, i: nat, cur: int, found: bool): Spliced
    requires i < |ds|
    decreases |nodes|
  {
    if nodes == [] then Contributions(ds[i..])
    else if !IsElement(nodes[0], "chapter") then SpliceNode(nodes, ds, i, cur, found)
    else if !found then
      if ChapterNumber(nodes[0]).None? then Failure(InvalidFirstChapter)
      else SpliceNode(nodes, ds, i, cur, true)
    else
      match ChapterMet(nodes[0], ds, i, cur)
      case Failed => Failure(Corrupt)
      case AllPlaced(added) => Success(added + nodes)
      case GoOn(added, k, cur1) => Prepend(added, SpliceNode(nodes, ds, k, cur1, true))
  }

  function SpliceNode(nodes: seq<Node>, ds: seq<ChapterDelta>, i: nat, cur: int, found: bool): Spliced
    requires i < |ds| && nodes != []
    decreases |nodes|, 0
  {
    var rest := Splice(nodes[1..], ds, i, cur, found);
    if Removed(nodes[0], ds[i], cur) then rest else Prepend([nodes[0]], rest)
  }

  /** A single empty delta leaves the book as it is. */
  function ToUsx(nodes: seq<Node>, ds: seq<ChapterDelta>): Spliced {
    if ds == [] then Failure(NoDeltas)
    else if |ds| == 1 && ds[0].ops == [] then Success(nodes)
    else Splice(nodes, ds, 0, ds[0].number, false)
  }

  lemma PrependTwice(a: seq<Node>, b: seq<Node>, r: Spliced)
    ensures Prepend(a, Prepend(b, r)) == Prepend(a + b, r)
  {
    if r.Success? {
      assert a + (b + r.value) == a + b + r.value;
    }
  }

  lemma PrependNothing(r: Spliced)
    ensures Prepend([], r) == r
  {
    if r.Success? {
      assert [] + r.value == r.value;
    }
  }
}
