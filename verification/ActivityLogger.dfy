/** The logger class. Its methods are the steps of ActivityLogging. */
module ActivityLogger {
  import opened ActivityLogging
  import opened ActivityRuns

  /** `flushes` are the suspended calls of FlushQueue; `file` is what has been appended. */
  class Logger {
    const enabled: bool
    var pendingLines: seq<Line>
    var isFlushing: bool
    var droppedEntryCount: nat
    var directoryEnsured: bool
    var flushes: seq<Awaiting>
    var file: seq<Line>

    function Current(): State
      reads this
    {
      State(pendingLines, isFlushing, droppedEntryCount, directoryEnsured, flushes, file)
    }

    constructor (enabled: bool)
      ensures this.enabled == enabled && Current() == START
    {
      this.enabled := enabled;
      pendingLines, isFlushing, droppedEntryCount, directoryEnsured, flushes, file := [], false, 0, false, [], [];
    }

    method Log(call: nat, serialisable: bool)
      modifies this
      ensures Current() == if enabled then Enqueued(old(Current()), call, serialisable) else old(Current())
    {
      if !enabled { return; }
      Enqueue(call, serialisable);
    }

    method Enqueue(call: nat, serialisable: bool)
      modifies this
      ensures Current() == Enqueued(old(Current()), call, serialisable)
    {
      if !serialisable {
        droppedEntryCount := droppedEntryCount + 1;
        return;
      }
      if |pendingLines| >= MAX_QUEUED_ENTRIES {
        droppedEntryCount := droppedEntryCount + 1;
      } else {
        pendingLines := pendingLines + [Entry(call)];
      }
      if !isFlushing { FlushQueue(); }
    }

    /** Up to the first await. */
    method FlushQueue()
      modifies this
      ensures Current() == FlushStarted(old(Current()))
    {
      isFlushing := true;
      flushes := flushes + [MakingDirectory];
      if directoryEnsured { WriteNext(|flushes| - 1); }
    }

    /** The loop head: the next append is awaited, or the flush is over. */
    method WriteNext(i: nat)
      requires i < |flushes|
      modifies this
      ensures Current() == LoopHead(old(Current()), i)
    {
      if |pendingLines| > 0 || droppedEntryCount > 0 {
        QueueDroppedEntriesNotice();
        flushes := flushes[i := Appending(pendingLines)];
      } else {
        EndFlush(i);
      }
    }

    method QueueDroppedEntriesNotice()
      modifies this`pendingLines, this`droppedEntryCount
      ensures Current() == WithNotice(old(Current()))
    {
      if droppedEntryCount == 0 { return; }
      pendingLines := pendingLines + [Notice(droppedEntryCount)];
      droppedEntryCount := 0;
    }

    method EndFlush(i: nat)
      requires i < |flushes|
      modifies this`isFlushing, this`flushes
      ensures Current() == FlushEnded(old(Current()), i)
    {
      isFlushing := false;
      flushes := flushes[..i] + flushes[i + 1..];
    }

    /** What flush `i` waits for has been done. */
    method Resolve(i: nat)
      requires i < |flushes|
      modifies this
      ensures Current() == FlushResolved(old(Current()), i)
    {
      match flushes[i] {
        case MakingDirectory =>
          directoryEnsured := true;
        case Appending(lines) =>
          file := file + lines;
          pendingLines := Spliced(pendingLines, |lines|);
      }
      WriteNext(i);
    }

    /** What flush `i` waits for has failed. The queue is kept for a later flush. */
    method Reject(i: nat)
      requires i < |flushes|
      modifies this`isFlushing, this`flushes
      ensures Current() == FlushEnded(old(Current()), i)
    {
      EndFlush(i);
    }
  }

  /** The class keeps to the runs of the state machine, whatever happens next. */
  method Perform(logger: Logger, ghost events: seq<Event>, ghost run: Run, e: Event, call: nat)
    requires logger.enabled && run == After(events) && logger.Current() == run.state && call == run.calls
    modifies logger
    ensures logger.Current() == After(events + [e]).state
    ensures Inv(After(events + [e]))
  {
    hide Inv, Enqueued, FlushResolved, FlushEnded, After;
    AfterOne(events, e);
    EveryRun(events + [e]);
    match e
    case Log(ok) => logger.Log(call, ok);
    case Resolved(i) => if i < |logger.flushes| { logger.Resolve(i); }
    case Rejected(i) => if i < |logger.flushes| { logger.Reject(i); }
  }
}
