/** Splicing chapter deltas into a copy of an existing book, node by node, while the copy is being edited. */
module UsxSplicer {
  import opened Wrappers
  import opened UsxNodes
  import opened ChapterWalk
  import opened Splicing
  import DeltaReader

  /** The children of the root element of a document under edit. */
  class UsxDocument {
    var nodes: seq<Node>

    constructor Copy(of: seq<Node>)
      ensures nodes == of
    {
      nodes := of;
    }

    method AddBefore(at: nat, added: seq<Node>)
      requires at <= |nodes|
      modifies this
      ensures nodes == old(nodes[..at]) + added + old(nodes[at..])
    {
      nodes := nodes[..at] + added + nodes[at..];
    }

    method Remove(at: nat)
      requires at < |nodes|
      modifies this
      ensures nodes == old(nodes[..at]) + old(nodes[at + 1..])
    {
      nodes := nodes[..at] + nodes[at + 1..];
    }
  }

  /** Reads a delta, if it is valid, and puts its nodes before the given position. */
  method Place(doc: UsxDocument, at: nat, d: ChapterDelta) returns (ok: bool, next: nat)
    requires at <= |doc.nodes|
    modifies doc
    ensures ok <==> Contribution(d).Success?
    ensures ok ==> doc.nodes == old(doc.nodes[..at]) + Contribution(d).value + old(doc.nodes[at..])
                   && next == at + |Contribution(d).value|
    ensures !ok ==> Contribution(d) == Failure(Corrupt)
  {
    ok, next := true, at;
    if d.isValid {
      var added := DeltaReader.ReadDelta(d.ops);
      if added.None? {
        return false, at;
      }
      doc.AddBefore(at, added.value);
      next := at + |added.value|;
    } else {
      assert old(doc.nodes[..at]) + [] + old(doc.nodes[at..]) == doc.nodes;
    }
  }

  /** Deltas for chapters before `cur` that the book does not have. */
  method PlaceEarlier(doc: UsxDocument, at: nat, ds: seq<ChapterDelta>, i: nat, cur: int)
      returns (ok: bool, next: nat, k: nat)
    requires at <= |doc.nodes| && i < |ds|
    modifies doc
    ensures ok ==> k == Skipped(ds, i, cur) < |ds|
                   && Contributions(ds[i..k]).Success?
                   && doc.nodes == old(doc.nodes[..at]) + Contributions(ds[i..k]).value + old(doc.nodes[at..])
                   && next == at + |Contributions(ds[i..k]).value|
    ensures !ok ==> var k := Skipped(ds, i, cur);
                    Contributions(ds[i..k]) == Failure(Corrupt) || (k >= |ds| && Contributions(ds[i..k]).Success?)
  {
    hide Contribution, Contributions;
    k, next := i, at;
    NoContributions();
    assert ds[i..k] == [];
    assert old(doc.nodes[..at]) + [] + old(doc.nodes[at..]) == doc.nodes;
    while ds[k].number < cur
      invariant i <= k < |ds| && Skipped(ds, k, cur) == Skipped(ds, i, cur)
      invariant Contributions(ds[i..k]).Success?
      invariant doc.nodes == old(doc.nodes[..at]) + Contributions(ds[i..k]).value + old(doc.nodes[at..])
      invariant next == at + |Contributions(ds[i..k]).value|
      decreases |ds| - k
    {
      ghost var placed := Contributions(ds[i..k]).value;
      ghost var front, back := old(doc.nodes[..at]), old(doc.nodes[at..]);
      ContributionsSnoc(ds, i, k);
      assert doc.nodes[..next] == front + placed && doc.nodes[next..] == back;
      ok, next := Place(doc, next, ds[k]);
      if ok {
        assert front + placed + Contribution(ds[k]).value + back == front + (placed + Contribution(ds[k]).value) + back;
      }
      if !ok {
        ContributionsFail(ds, i, k + 1, Skipped(ds, i, cur));
        return;
      }
      k := k + 1;
      if k >= |ds| {
        ok := false;
        return;
      }
    }
    ok := true;
  }

  lemma NoContributions()
    ensures Contributions([]) == Success([])
  {
  }

  lemma {:induction false} ContributionsSnoc(ds: seq<ChapterDelta>, i: nat, k: nat)
    requires i <= k < |ds|
    ensures Contributions(ds[i..k + 1])
         == if Contributions(ds[i..k]).Failure? then Contributions(ds[i..k])
            else Prepend(Contributions(ds[i..k]).value, Contribution(ds[k]))
    decreases k - i
  {
    assert ds[i..k + 1][0] == ds[i] && ds[i..k + 1][1..] == ds[i + 1..k + 1];
    if i < k {
      ContributionsSnoc(ds, i + 1, k);
      assert ds[i..k][0] == ds[i] && ds[i..k][1..] == ds[i + 1..k];
      if Contribution(ds[i]).Success? && Contributions(ds[i + 1..k]).Success? {
        PrependTwice(Contribution(ds[i]).value, Contributions(ds[i + 1..k]).value, Contribution(ds[k]));
      }
    } else {
      assert ds[i..k] == [] && ds[i + 1..k + 1] == [];
      PrependNothing(Contribution(ds[k]));
      assert Contribution(ds[k]).Success? ==> Contribution(ds[k]).value + [] == Contribution(ds[k]).value;
    }
  }

  lemma {:induction false} ContributionsFail(ds: seq<ChapterDelta>, i: nat, k: nat, n: nat)
    requires i <= k <= n <= |ds| && Contributions(ds[i..k]) == Failure(Corrupt)
    ensures Contributions(ds[i..n]) == Failure(Corrupt)
    decreases n - k
  {
    if k < n {
      ContributionsSnoc(ds, i, k);
      ContributionsFail(ds, i, k + 1, n);
    }
  }

  datatype Outcome = Stop | Done | Continue

  /** A chapter after the first: its predecessor is completed, and deltas between the two are placed. */
  method MeetChapter(doc: UsxDocument, at: nat, node: Node, ds: seq<ChapterDelta>, i: nat, cur: int)
      returns (outcome: Outcome, next: nat, k: nat, cur1: int)
    requires at <= |doc.nodes| && i < |ds| && node.Elem?
    modifies doc
    ensures match ChapterMet(node, ds, i, cur)
            case Failed => outcome == Stop
            case AllPlaced(added) =>
              outcome == Done && doc.nodes == old(doc.nodes[..at]) + added + old(doc.nodes[at..])
            case GoOn(added, i1, n) =>
              outcome == Continue && k == i1 && cur1 == n && next == at + |added|
              && doc.nodes == old(doc.nodes[..at]) + added + old(doc.nodes[at..])
  {
    k, cur1 := i, cur;
    ghost var before := Leaving(ds, i, cur);
    var ok;
    ok, next := LeaveChapter(doc, at, ds, i, cur);
    if !ok {
      return Stop, next, k, cur1;
    }
    if ds[i].number == cur {
      k := k + 1;
    }
    var number := ChapterNumber(node);
    if number.Some? {
      cur1 := number.value;
    }
    if k >= |ds| {
      return Done, next, k, cur1;
    }
    ghost var front, back := doc.nodes[..next], doc.nodes[next..];
    assert front == old(doc.nodes[..at]) + before.value && back == old(doc.nodes[at..]);
    ghost var i1 := k;
    ok, next, k := PlaceEarlier(doc, next, ds, k, cur1);
    if !ok {
      return Stop, next, k, cur1;
    }
    AppendFour(old(doc.nodes[..at]), before.value, Contributions(ds[i1..k]).value, back);
    outcome := Continue;
  }

  lemma AppendFour(a: seq<Node>, b: seq<Node>, c: seq<Node>, d: seq<Node>)
    ensures a + b + c + d == a + (b + c) + d
  {
  }

  method LeaveChapter(doc: UsxDocument, at: nat, ds: seq<ChapterDelta>, i: nat, cur: int) returns (ok: bool, next: nat)
    requires at <= |doc.nodes| && i < |ds|
    modifies doc
    ensures ok <==> Leaving(ds, i, cur).Success?
    ensures ok ==> doc.nodes == old(doc.nodes[..at]) + Leaving(ds, i, cur).value + old(doc.nodes[at..])
                   && next == at + |Leaving(ds, i, cur).value|
  {
    ok, next := true, at;
    if ds[i].number == cur {
      ok, next := Place(doc, next, ds[i]);
    } else {
      assert old(doc.nodes[..at]) + [] + old(doc.nodes[at..]) == doc.nodes;
    }
  }

  /** The book with its chapters replaced by the deltas, on a copy that is edited in place. */
  method ApplyDeltas(oldNodes: seq<Node>, ds: seq<ChapterDelta>) returns (r: Spliced)
    ensures r == ToUsx(oldNodes, ds)
    ensures ds == [] ==> r == Failure(NoDeltas)
    ensures |ds| == 1 && ds[0].ops == [] ==> r == Success(oldNodes)
  {
    hide Contribution, Contributions, Removed, ChapterMet;
    if ds == [] {
      return Failure(NoDeltas);
    }
    if |ds| == 1 && ds[0].ops == [] {
      return Success(oldNodes);
    }
    var doc := new UsxDocument.Copy(oldNodes);
    var isFirstChapterFound := false;
    var curIndex: nat, cur := 0, ds[0].number;
    var i: nat, at: nat := 0, 0;
    PrependNothing(ToUsx(oldNodes, ds));
    assert oldNodes[0..] == oldNodes && doc.nodes[..0] == [];
    while i < |oldNodes|
      invariant 0 <= i <= |oldNodes| && at <= |doc.nodes| && curIndex < |ds|
      invariant doc.nodes[at..] == oldNodes[i..]
      invariant Prepend(doc.nodes[..at], Splice(oldNodes[i..], ds, curIndex, cur, isFirstChapterFound))
        == ToUsx(oldNodes, ds)
    {
      var curNode := oldNodes[i];
      ghost var rest := oldNodes[i..];
      ghost var kept := doc.nodes[..at];
      assert rest[0] == curNode && rest[1..] == oldNodes[i + 1..];
      if IsElement(curNode, "chapter") {
        if isFirstChapterFound {
          var outcome;
          ghost var met := ChapterMet(curNode, ds, curIndex, cur);
          outcome, at, curIndex, cur := MeetChapter(doc, at, curNode, ds, curIndex, cur);
          if outcome == Stop {
            return Failure(Corrupt);
          }
          if outcome == Done {
            assert kept + met.added + rest == kept + (met.added + rest);
            return Success(doc.nodes);
          }
          PrependTwice(kept, met.added, SpliceNode(rest, ds, curIndex, cur, true));
          assert doc.nodes[..at] == kept + met.added && doc.nodes[at..] == rest;
        } else {
          isFirstChapterFound := true;
          if ChapterNumber(curNode).None? {
            return Failure(InvalidFirstChapter);
          }
        }
      }
      assert doc.nodes[at..] == rest;
      assert Prepend(doc.nodes[..at], SpliceNode(rest, ds, curIndex, cur, isFirstChapterFound)) == ToUsx(oldNodes, ds);
      at := VisitNode(doc, at, rest, ds, curIndex, cur, isFirstChapterFound);
      i := i + 1;
    }
    assert oldNodes[i..] == [] && doc.nodes[..at] == doc.nodes;
    r := AddRemaining(doc, at, ds, curIndex);
  }

  /** A node of the current section is removed or kept. */
  method VisitNode(doc: UsxDocument, at: nat, ghost rest: seq<Node>, ds: seq<ChapterDelta>, i: nat, cur: int,
                   ghost found: bool) returns (next: nat)
    requires at < |doc.nodes| && i < |ds| && doc.nodes[at..] == rest
    modifies doc
    ensures next <= |doc.nodes| && doc.nodes[next..] == rest[1..]
    ensures Prepend(doc.nodes[..next], Splice(rest[1..], ds, i, cur, found))
         == Prepend(old(doc.nodes[..at]), SpliceNode(rest, ds, i, cur, found))
  {
    ghost var kept := doc.nodes[..at];
    var curNode := doc.nodes[at];
    assert rest[0] == curNode;
    if Removed(curNode, ds[i], cur) {
      doc.Remove(at);
      next := at;
      assert doc.nodes[..next] == kept;
    } else {
      PrependTwice(kept, [curNode], Splice(rest[1..], ds, i, cur, found));
      next := at + 1;
      assert doc.nodes[..next] == kept + [curNode];
    }
  }

  /** The current delta and all later ones go to the end of the book. */
  method AddRemaining(doc: UsxDocument, at: nat, ds: seq<ChapterDelta>, i: nat) returns (r: Spliced)
    requires i < |ds| && at == |doc.nodes|
    modifies doc
    ensures r == Prepend(old(doc.nodes), Contributions(ds[i..]))
  {
    hide Contribution, Contributions;
    var k, next := i, at;
    NoContributions();
    assert ds[i..k] == [] && old(doc.nodes) + [] == doc.nodes;
    while k < |ds|
      invariant i <= k <= |ds|
      invariant Contributions(ds[i..k]).Success?
      invariant doc.nodes == old(doc.nodes) + Contributions(ds[i..k]).value && next == |doc.nodes|
    {
      ghost var placed := doc.nodes;
      ContributionsSnoc(ds, i, k);
      var ok;
      ok, next := Place(doc, next, ds[k]);
      k := k + 1;
      if ok { assert doc.nodes == placed + Contribution(ds[k - 1]).value; }
      if !ok {
        ContributionsFail(ds, i, k, |ds|);
        assert ds[i..|ds|] == ds[i..];
        return Failure(Corrupt);
      }
    }
    assert ds[i..k] == ds[i..];
    return Success(doc.nodes);
  }
}
