/** When the queue of the activity logger outgrows its limit, which bounds entries but not notices. */
module ActivityLimits {
  import opened ActivityLogging
  import opened ActivityRuns

  // ----- notices are not bounded

  /** Log calls while every append fails. */
  function FailingWrites(n: nat): seq<Event> {
    if n == 0 then [Log(true), Resolved(0), Rejected(0)] else FailingWrites(n - 1) + [Log(true), Rejected(0)]
  }

  /** Every failing attempt leaves one more line behind, an entry or a notice: the limit bounds entries only. */
  lemma {:induction false} QueueOutgrowsLimit(n: nat)
    ensures var s := After(FailingWrites(n)).state;
      |s.pending| == n + 1 && !s.isFlushing && s.flushes == [] && s.directoryEnsured && s.dropped == 0
  {
    hide After;
    if n == 0 {
      AfterNothing();
      AfterOne([], Log(true));
      AfterOne([Log(true)], Resolved(0));
      AfterOne([Log(true), Resolved(0)], Rejected(0));
      assert [Log(true)] + [Resolved(0)] == [Log(true), Resolved(0)] && [] + [Log(true)] == [Log(true)];
      assert [Log(true), Resolved(0)] + [Rejected(0)] == FailingWrites(0);
    } else {
      QueueOutgrowsLimit(n - 1);
      var before := FailingWrites(n - 1);
      AfterOne(before, Log(true));
      AfterOne(before + [Log(true)], Rejected(0));
      assert before + [Log(true)] + [Rejected(0)] == FailingWrites(n);
    }
  }

  // ----- when the queue outgrows its limit

  /** An append under way has something to write, and lines came after it only within the limit. */
  predicate BatchesReal(s: State) {
    |s.flushes| == 1 && s.flushes[0].Appending? ==>
      && s.flushes[0].lines != []
      && (|s.pending| > |s.flushes[0].lines| ==> |s.pending| <= MAX_QUEUED_ENTRIES)
  }

  lemma NextBatchReal(r: Run, e: Event)
    requires Inv(r) && BatchesReal(r.state)
    ensures BatchesReal(Next(r, e).state)
  {
    hide Entries, NoticeTotal, Lines, Conserved, Bounded, IdleIsDrained;
  }

  lemma {:induction false} EveryBatchReal(events: seq<Event>)
    ensures BatchesReal(After(events).state)
  {
    hide Inv, BatchesReal, Next;
    if events == [] {
      NoBatch();
    } else {
      var before := events[..|events| - 1];
      EveryRun(before);
      EveryBatchReal(before);
      NextBatchReal(After(before), events[|events| - 1]);
    }
  }

  lemma NoBatch()
    ensures BatchesReal(BEGINNING.state)
  {
  }

  /**
   * What puts one line too many into the queue: a notice that a log call's flush adds to a queue that is full, or would
   * be with the call's own entry, or a notice for a full queue once the directory has been made.
   */
  predicate Outgrows(s: State, e: Event) {
    match e
    case Log(ok) =>
      ok && !s.isFlushing && s.directoryEnsured
      && (|s.pending| == MAX_QUEUED_ENTRIES || (|s.pending| == MAX_QUEUED_ENTRIES - 1 && s.dropped > 0))
    case Resolved(i) =>
      i == 0 && s.flushes == [MakingDirectory] && |s.pending| == MAX_QUEUED_ENTRIES && s.dropped > 0
    case Rejected(_) => false
  }

  /** In every run, a queue within its limit stays within it at the next event unless the event is one of these. */
  lemma {:induction false} LimitExceededExactly(events: seq<Event>, e: Event)
    requires |After(events).state.pending| <= MAX_QUEUED_ENTRIES
    ensures |After(events + [e]).state.pending| > MAX_QUEUED_ENTRIES <==> Outgrows(After(events).state, e)
  {
    AfterOne(events, e);
    EveryRun(events);
    EveryBatchReal(events);
    hide After;
    OutgrowsExactly(After(events), e);
  }

  lemma OutgrowsExactly(r: Run, e: Event)
    requires Inv(r) && BatchesReal(r.state) && |r.state.pending| <= MAX_QUEUED_ENTRIES
    ensures |Next(r, e).state.pending| > MAX_QUEUED_ENTRIES <==> Outgrows(r.state, e)
  {
    hide Entries, NoticeTotal, Lines, Conserved, Bounded, IdleIsDrained;
  }

  /** The failed flushes since lines were last written, after one more event. */
  function FailuresNext(s: State, failures: nat, e: Event): nat {
    match e
    case Log(_) => failures
    case Resolved(i) => if i < |s.flushes| && s.flushes[i].Appending? then 0 else failures
    case Rejected(i) => if i < |s.flushes| then failures + 1 else failures
  }

  function Failures(events: seq<Event>): nat {
    if events == [] then 0
    else
      var before := events[..|events| - 1];
      FailuresNext(After(before).state, Failures(before), events[|events| - 1])
  }

  /** The bound that each step keeps: one line more while an append is under way. */
  predicate WithinFailures(s: State, failures: nat) {
    |s.pending| <= MAX_QUEUED_ENTRIES + failures + (if |s.flushes| == 1 && s.flushes[0].Appending? then 1 else 0)
  }

  lemma NextWithinFailures(r: Run, failures: nat, e: Event)
    requires Inv(r) && BatchesReal(r.state) && WithinFailures(r.state, failures)
    ensures WithinFailures(Next(r, e).state, FailuresNext(r.state, failures, e))
  {
    hide Entries, NoticeTotal, Lines, Conserved, Bounded, IdleIsDrained;
  }

  /** In every run the queue exceeds its limit by at most one line and one for each flush failed since a write. */
  lemma {:induction false} QueueBoundedByFailures(events: seq<Event>)
    ensures WithinFailures(After(events).state, Failures(events))
    ensures |After(events).state.pending| <= 10000 + Failures(events) + 1
  {
    hide Inv, BatchesReal, Next;
    if events != [] {
      var before := events[..|events| - 1];
      EveryRun(before);
      EveryBatchReal(before);
      QueueBoundedByFailures(before);
      NextWithinFailures(After(before), Failures(before), events[|events| - 1]);
    }
  }

  // ----- the bound is attained

  function Calls(n: nat): seq<Event> {
    if n == 0 then [] else Calls(n - 1) + [Log(true)]
  }

  /** While the directory is made the queue is filled and a call dropped; then `n` writes fail, each before a call. */
  function FilledThenFailing(n: nat): seq<Event> {
    if n == 0 then Calls(MAX_QUEUED_ENTRIES + 1) + [Resolved(0)]
    else FilledThenFailing(n - 1) + [Rejected(0), Log(true)]
  }

  lemma FailuresOne(events: seq<Event>, e: Event)
    ensures Failures(events + [e]) == FailuresNext(After(events).state, Failures(events), e)
  {
    assert (events + [e])[..|events|] == events;
  }

  lemma {:induction false} CallsQueued(n: nat)
    requires 0 < n <= MAX_QUEUED_ENTRIES
    ensures var s := After(Calls(n)).state;
      |s.pending| == n && s.isFlushing && s.flushes == [MakingDirectory] && s.dropped == 0 && !s.directoryEnsured
    ensures Failures(Calls(n)) == 0
  {
    hide After, Failures;
    AfterOne(Calls(n - 1), Log(true));
    FailuresOne(Calls(n - 1), Log(true));
    if n == 1 { BeforeCalls(); } else { CallsQueued(n - 1); }
  }

  lemma BeforeCalls()
    ensures After(Calls(0)) == BEGINNING && Failures(Calls(0)) == 0
  {
  }

  /** For any number of failures there is a run that exceeds the limit by as much as it can. */
  lemma {:induction false} LimitExceededByFailures(n: nat)
    ensures var s := After(FilledThenFailing(n)).state;
      |s.pending| == 10000 + n + 1 && s.isFlushing && s.flushes == [Appending(s.pending)]
      && s.dropped == 0 && s.directoryEnsured
    ensures Failures(FilledThenFailing(n)) == n
  {
    hide After, Failures;
    if n == 0 {
      CallsQueued(MAX_QUEUED_ENTRIES);
      var full, over := Calls(MAX_QUEUED_ENTRIES), Calls(MAX_QUEUED_ENTRIES + 1);
      AfterOne(full, Log(true));
      FailuresOne(full, Log(true));
      AfterOne(over, Resolved(0));
      FailuresOne(over, Resolved(0));
    } else {
      LimitExceededByFailures(n - 1);
      var before := FilledThenFailing(n - 1);
      AfterOne(before, Rejected(0));
      FailuresOne(before, Rejected(0));
      AfterOne(before + [Rejected(0)], Log(true));
      FailuresOne(before + [Rejected(0)], Log(true));
      assert before + [Rejected(0)] + [Log(true)] == FilledThenFailing(n);
    }
  }
}
