/**
 * The activity log's queue as atomic steps: what runs between two awaits is one step, and
 * the operating system completes an awaited call at any later time. ActivityLogger.dfy is the class.
 */
module ActivityLogging {
  /** One line of the log: an entry, known by the number of its log call, or a count of dropped ones. */
  datatype Line = Entry(call: nat) | Notice(count: nat)

  /** What a suspended flush waits for. An append has taken its lines from the queue's front. */
  datatype Awaiting = MakingDirectory | Appending(lines: seq<Line>)

  datatype State = State(
    pending: seq<Line>,
    isFlushing: bool,
    dropped: nat,
    directoryEnsured: bool,
    flushes: seq<Awaiting>,
    file: seq<Line>)

  /** A log call, or the completion of what flush number `flush` waits for. */
  datatype Event =
    | Log(serialisable: bool)
    | Resolved(flush: nat)
    | Rejected(flush: nat)

  const MAX_QUEUED_ENTRIES := 10000

  const START := State([], false, 0, false, [], [])

  function WithNotice(s: State): State {
    if s.dropped == 0 then s else s.(pending := s.pending + [Notice(s.dropped)], dropped := 0)
  }

  /** The flush leaves, and says so. */
  function FlushEnded(s: State, i: nat): State
    requires i < |s.flushes|
  {
    s.(isFlushing := false, flushes := s.flushes[..i] + s.flushes[i + 1..])
  }

  /** The head of the write loop. */
  function LoopHead(s: State, i: nat): State
    requires i < |s.flushes|
  {
    if s.pending == [] && s.dropped == 0 then FlushEnded(s, i)
    else
      var t := WithNotice(s);
      t.(flushes := t.flushes[i := Appending(t.pending)])
  }

  function FlushStarted(s: State): State {
    var t := s.(isFlushing := true, flushes := s.flushes + [MakingDirectory]);
    if s.directoryEnsured then LoopHead(t, |s.flushes|) else t
  }

  predicate Accepts(s: State, serialisable: bool) {
    serialisable && |s.pending| < MAX_QUEUED_ENTRIES
  }

  function Enqueued(s: State, call: nat, serialisable: bool): State {
    if !serialisable then s.(dropped := s.dropped + 1)
    else
      var t := if |s.pending| < MAX_QUEUED_ENTRIES then s.(pending := s.pending + [Entry(call)])
               else s.(dropped := s.dropped + 1);
      if t.isFlushing then t else FlushStarted(t)
  }

  /** The first `n` lines go; there may be fewer. */
  function Spliced(lines: seq<Line>, n: nat): seq<Line> {
    if n <= |lines| then lines[n..] else []
  }

  /** A successful append is atomic. */
  function FlushResolved(s: State, i: nat): State
    requires i < |s.flushes|
  {
    match s.flushes[i]
    case MakingDirectory => LoopHead(s.(directoryEnsured := true), i)
    case Appending(lines) => LoopHead(s.(file := s.file + lines, pending := Spliced(s.pending, |lines|)), i)
  }

  /** A run with what an observer of the log calls notes down. */
  datatype Run = Run(
    state: State,
    calls: nat,
    accepted: seq<nat>,
    lastFlushFailed: bool,
    unserialisable: nat)  // since the last flush ended, or since the start

  /** Log calls count when logging is enabled. Nothing completes that nobody waits for. */
  function Next(r: Run, e: Event): Run {
    var s := r.state;
    match e
    case Log(ok) =>
      Run(Enqueued(s, r.calls, ok), r.calls + 1,
          if Accepts(s, ok) then r.accepted + [r.calls] else r.accepted,
          r.lastFlushFailed, if ok then r.unserialisable else r.unserialisable + 1)
    case Resolved(i) =>
      if i >= |s.flushes| then r
      else
        var t := FlushResolved(s, i);
        if |t.flushes| < |s.flushes| then r.(state := t, lastFlushFailed := false, unserialisable := 0)
        else r.(state := t)
    case Rejected(i) =>
      if i >= |s.flushes| then r
      else r.(state := FlushEnded(s, i), lastFlushFailed := true, unserialisable := 0)
  }

  const BEGINNING := Run(START, 0, [], false, 0)

  function After(events: seq<Event>): Run {
    if events == [] then BEGINNING else Next(After(events[..|events| - 1]), events[|events| - 1])
  }

  // ----- what the lines say

  function Entries(lines: seq<Line>): seq<nat> {
    if lines == [] then []
    else (if lines[0].Entry? then [lines[0].call] else []) + Entries(lines[1..])
  }

  function NoticeTotal(lines: seq<Line>): nat {
    if lines == [] then 0
    else (if lines[0].Notice? then lines[0].count else 0) + NoticeTotal(lines[1..])
  }

  lemma {:induction false} EntriesAppend(a: seq<Line>, b: seq<Line>)
    ensures Entries(a + b) == Entries(a) + Entries(b)
    ensures NoticeTotal(a + b) == NoticeTotal(a) + NoticeTotal(b)
  {
    if a == [] {
      assert a + b == b;
    } else {
      assert (a + b)[1..] == a[1..] + b;
      EntriesAppend(a[1..], b);
    }
  }

  predicate Increasing(xs: seq<nat>) {
    forall i, j :: 0 <= i < j < |xs| ==> xs[i] < xs[j]
  }

  /** The file, then the queue. */
  function Lines(s: State): seq<Line> {
    s.file + s.pending
  }

  // ----- the invariant

  /** One flush at most, flagged as such; what it is appending is still the front of the queue. */
  predicate OneFlush(s: State) {
    && |s.flushes| <= 1
    && (s.isFlushing <==> |s.flushes| == 1)
    && (|s.flushes| == 1 && s.flushes[0].Appending? ==> s.flushes[0].lines <= s.pending)
  }

  predicate Conserved(r: Run) {
    && Entries(Lines(r.state)) == r.accepted
    && |r.accepted| + NoticeTotal(Lines(r.state)) + r.state.dropped == r.calls
    && Increasing(r.accepted)
    && (forall i :: 0 <= i < |r.accepted| ==> r.accepted[i] < r.calls)
  }

  predicate Bounded(s: State) {
    |Entries(s.pending)| <= MAX_QUEUED_ENTRIES
  }

  /** When no flush is active and the last one succeeded, only unserialisable entries await a notice. */
  predicate IdleIsDrained(r: Run) {
    !r.state.isFlushing && !r.lastFlushFailed ==> r.state.pending == [] && r.state.dropped == r.unserialisable
  }

  predicate Inv(r: Run) {
    OneFlush(r.state) && Conserved(r) && Bounded(r.state) && IdleIsDrained(r)
  }

  // ----- every step keeps it

  /** Nothing is lost, repeated or reordered; only the count of dropped entries may have become a notice. */
  predicate Carries(s: State, t: State) {
    && s.file <= t.file
    && Lines(s) <= Lines(t)
    && Entries(Lines(t)) == Entries(Lines(s))
    && NoticeTotal(Lines(t)) + t.dropped == NoticeTotal(Lines(s)) + s.dropped
    && |Entries(t.pending)| <= |Entries(s.pending)|
  }

  lemma CarriesOn(s: State, t: State, u: State)
    requires Carries(s, t) && Carries(t, u)
    ensures Carries(s, u)
  {
    hide Lines, Entries, NoticeTotal;
  }

  lemma NoticeCarries(s: State)
    ensures Carries(s, WithNotice(s))
  {
    var notice := Notice(s.dropped);
    EntriesAppend(s.pending, [notice]);
    EntriesAppend(Lines(s), [notice]);
    assert [notice][1..] == [];
    assert NoticeTotal([notice]) == s.dropped && Entries([notice]) == [];
    assert s.file + (s.pending + [notice]) == Lines(s) + [notice];
  }

  /** The head of the loop, with one flush active. */
  lemma LoopHeadKeeps(s: State)
    requires |s.flushes| == 1 && s.isFlushing
    ensures var t := LoopHead(s, 0);
      Carries(s, t) && OneFlush(t) && (!t.isFlushing ==> t.pending == [] && t.dropped == 0)
  {
    hide Entries, NoticeTotal;
    NoticeCarries(s);
  }

  lemma StartKeeps(s: State)
    requires OneFlush(s) && !s.isFlushing
    ensures var t := FlushStarted(s);
      Carries(s, t) && OneFlush(t) && (s.pending != [] || s.dropped > 0 ==> t.isFlushing)
  {
    hide Entries, NoticeTotal, LoopHead;
    var t := s.(isFlushing := true, flushes := s.flushes + [MakingDirectory]);
    if s.directoryEnsured {
      LoopHeadKeeps(t);
      StartedLoop(t);
    }
  }

  lemma StartedLoop(s: State)
    requires |s.flushes| == 1
    ensures s.pending != [] || s.dropped > 0 ==> LoopHead(s, 0).isFlushing == s.isFlushing
  {
  }

  /** What a serialisable entry adds before any flush starts. */
  lemma QueuedCount(s: State, call: nat)
    ensures var t := s.(pending := s.pending + [Entry(call)]);
      && Lines(t) == Lines(s) + [Entry(call)]
      && Entries(Lines(t)) == Entries(Lines(s)) + [call]
      && NoticeTotal(Lines(t)) == NoticeTotal(Lines(s))
      && |Entries(t.pending)| == |Entries(s.pending)| + 1
  {
    var line := Entry(call);
    EntriesAppend(s.pending, [line]);
    EntriesAppend(Lines(s), [line]);
    assert [line][1..] == [];
    assert NoticeTotal([line]) == 0 && Entries([line]) == [call];
    assert s.file + (s.pending + [line]) == Lines(s) + [line];
  }

  lemma {:induction false} EntriesFewer(lines: seq<Line>)
    ensures |Entries(lines)| <= |lines|
  {
    if lines != [] { EntriesFewer(lines[1..]); }
  }

  lemma IncreasingMore(xs: seq<nat>, x: nat)
    requires Increasing(xs) && forall i :: 0 <= i < |xs| ==> xs[i] < x
    ensures Increasing(xs + [x])
  {
  }

  lemma LogKeeps(r: Run, ok: bool)
    requires Inv(r)
    ensures Inv(Next(r, Log(ok)))
    ensures Lines(r.state) <= Lines(Next(r, Log(ok)).state) && r.state.file <= Next(r, Log(ok)).state.file
  {
    hide Entries, NoticeTotal, FlushStarted, Increasing;
    var s := r.state;
    if ok {
      var queued := if |s.pending| < MAX_QUEUED_ENTRIES then s.(pending := s.pending + [Entry(r.calls)])
                    else s.(dropped := s.dropped + 1);
      QueuedCount(s, r.calls);
      EntriesFewer(s.pending);
      IncreasingMore(r.accepted, r.calls);
      assert s.isFlushing ==> OneFlush(queued);
      if !queued.isFlushing { StartKeeps(queued); }
    }
  }

  /** Appended lines move from the front of the queue to the file. */
  lemma WrittenCarries(s: State, n: nat)
    requires n <= |s.pending|
    ensures Carries(s, s.(file := s.file + s.pending[..n], pending := s.pending[n..]))
  {
    assert s.pending == s.pending[..n] + s.pending[n..];
    EntriesAppend(s.pending[..n], s.pending[n..]);
    assert s.file + s.pending[..n] + s.pending[n..] == Lines(s);
  }

  lemma ResolvedKeeps(r: Run, i: nat)
    requires Inv(r)
    ensures Inv(Next(r, Resolved(i)))
    ensures Lines(r.state) <= Lines(Next(r, Resolved(i)).state) && r.state.file <= Next(r, Resolved(i)).state.file
  {
    hide Entries, NoticeTotal, LoopHead, Increasing, Lines;
    var s := r.state;
    if i < |s.flushes| {
      match s.flushes[0] {
        case MakingDirectory =>
          var t := s.(directoryEnsured := true);
          SameLines(s, t);
          LoopHeadKeeps(t);
          CarriesOn(s, t, LoopHead(t, 0));
        case Appending(lines) =>
          WrittenCarries(s, |lines|);
          assert s.pending[..|lines|] == lines;
          var t := s.(file := s.file + lines, pending := s.pending[|lines|..]);
          LoopHeadKeeps(t);
          CarriesOn(s, t, LoopHead(t, 0));
      }
    }
  }

  lemma SameLines(s: State, t: State)
    requires s.file == t.file && s.pending == t.pending && s.dropped == t.dropped
    ensures Carries(s, t)
  {
  }

  lemma RejectedKeeps(r: Run, i: nat)
    requires Inv(r)
    ensures Inv(Next(r, Rejected(i)))
    ensures Lines(r.state) == Lines(Next(r, Rejected(i)).state) && r.state.file == Next(r, Rejected(i)).state.file
  {
  }

  lemma NextKeeps(r: Run, e: Event)
    requires Inv(r)
    ensures Inv(Next(r, e))
    ensures Lines(r.state) <= Lines(Next(r, e).state) && r.state.file <= Next(r, e).state.file
  {
    match e
    case Log(ok) => LogKeeps(r, ok);
    case Resolved(i) => ResolvedKeeps(r, i);
    case Rejected(i) => RejectedKeeps(r, i);
  }
}
