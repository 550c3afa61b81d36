/** What holds in every run of the activity logger: safety in any interleaving, and progress when nothing fails. */
module ActivityRuns {
  import opened ActivityLogging

  /**
   * In every interleaving of log calls and completions: one flush at most; the file followed by the
   * queue holds each accepted entry once and in order; accepted entries, noticed drops and unnoticed
   * drops add up to the calls; the queue holds a bounded number of entries; and an idle logger whose
   * last flush succeeded has nothing to write but what no flush was started for.
   */
  lemma {:induction false} EveryRun(events: seq<Event>)
    ensures Inv(After(events))
  {
    if events != [] {
      var before := events[..|events| - 1];
      EveryRun(before);
      NextKeeps(After(before), events[|events| - 1]);
    }
  }

  /** Lines are only ever appended, to the file and to the file followed by the queue. */
  lemma {:induction false} LinesOnlyGrow(events: seq<Event>, later: seq<Event>)
    ensures After(events).state.file <= After(events + later).state.file
    ensures Lines(After(events).state) <= Lines(After(events + later).state)
    decreases |later|
  {
    hide Inv, Next, Lines;
    if later == [] {
      assert events + later == events;
    } else {
      var all := events + later;
      var before := later[..|later| - 1];
      assert all[..|all| - 1] == events + before;
      LinesOnlyGrow(events, before);
      EveryRun(events + before);
      NextKeeps(After(events + before), later[|later| - 1]);
    }
  }

  predicate OnceAtMost(lines: seq<Line>, line: Line) {
    forall i, j :: 0 <= i < j < |lines| ==> lines[i] != line || lines[j] != line
  }

  /** A call is accepted or dropped for good when it is made: each accepted call is in the lines exactly once. */
  lemma {:induction false} AcceptedOnce(events: seq<Event>, call: nat)
    ensures call in After(events).accepted <==> Entry(call) in Lines(After(events).state)
    ensures OnceAtMost(Lines(After(events).state), Entry(call))
  {
    EveryRun(events);
    EntriesHold(Lines(After(events).state), call);
  }

  lemma {:induction false} EntriesHold(lines: seq<Line>, call: nat)
    requires Increasing(Entries(lines))
    ensures call in Entries(lines) <==> Entry(call) in lines
    ensures OnceAtMost(lines, Entry(call))
  {
    if lines != [] {
      var rest := lines[1..];
      RestIncreasing(lines);
      hide Increasing;
      EntriesHold(rest, call);
      assert lines == [lines[0]] + rest;
      assert forall i :: 1 <= i < |lines| ==> lines[i] == rest[i - 1];
      if lines[0] == Entry(call) { assert Entry(call) !in rest; }
    }
  }

  /** The calls after the first line increase, and a call on that line does not come again. */
  lemma RestIncreasing(lines: seq<Line>)
    requires lines != [] && Increasing(Entries(lines))
    ensures Increasing(Entries(lines[1..]))
    ensures lines[0].Entry? ==> lines[0].call !in Entries(lines[1..])
  {
    hide Increasing;
    if lines[0].Entry? {
      assert Entries(lines) == [lines[0].call] + Entries(lines[1..]);
      TailIncreasing(lines[0].call, Entries(lines[1..]));
    } else {
      assert Entries(lines) == Entries(lines[1..]);
    }
  }

  lemma TailIncreasing(x: nat, xs: seq<nat>)
    requires Increasing([x] + xs)
    ensures Increasing(xs) && x !in xs
  {
    var all := [x] + xs;
    forall i | 0 <= i < |xs|
      ensures x < xs[i]
    {
      assert all[0] < all[i + 1];
    }
    forall i, j | 0 <= i < j < |xs|
      ensures xs[i] < xs[j]
    {
      assert all[i + 1] < all[j + 1];
    }
  }

  /** After one completion either nothing is left, or one write of everything queued. */
  lemma ResolvedOnce(s: State)
    requires OneFlush(s) && s.isFlushing
    ensures var t := FlushResolved(s, 0);
      if t.isFlushing then t.flushes == [Appending(t.pending)] && t.dropped == 0
      else t.flushes == [] && t.pending == [] && t.dropped == 0
    ensures s.flushes == [Appending(s.pending)] && s.dropped == 0 ==> !FlushResolved(s, 0).isFlushing
  {
  }

  /**
   * With no more log calls and no failures, what is under way soon ends with everything in the file:
   * when the directory has been made, the writes in flight and of what is queued meanwhile have been made.
   */
  lemma {:induction false} FlushDrains(events: seq<Event>)
    requires After(events).state.isFlushing
    ensures var end := Next(Next(After(events), Resolved(0)), Resolved(0)).state;
      !end.isFlushing && end.pending == [] && end.dropped == 0 && Lines(After(events).state) <= end.file
  {
    hide Lines, FlushResolved, Conserved, Bounded, IdleIsDrained, After;
    var r := After(events);
    EveryRun(events);
    var r1 := Next(r, Resolved(0));
    NextKeeps(r, Resolved(0));
    NextKeeps(r1, Resolved(0));
    ResolvedOnce(r.state);
    if r1.state.isFlushing { ResolvedOnce(r1.state); }
    AllWritten(Next(r1, Resolved(0)).state);
  }

  lemma AllWritten(s: State)
    ensures s.pending == [] ==> Lines(s) == s.file
  {
  }

  lemma AfterOne(events: seq<Event>, e: Event)
    ensures After(events + [e]) == Next(After(events), e)
  {
    assert (events + [e])[..|events|] == events;
  }

  lemma AfterNothing()
    ensures After([]) == BEGINNING
  {
  }
}
