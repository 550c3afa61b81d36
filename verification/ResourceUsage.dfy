/** Usage totals that each report takes away, and the count of fetches in flight. */
module ResourceUsage {
  import opened Wrappers
  import Decimal

  /** One recorded event. `detail` is the snapshot type, document or poll type; runs of queries have none. */
  datatype Usage = Usage(clientId: string, collection: string, detail: Option<string>, measures: Measures)

  /** What an event measures; a kind of event that does not measure something has a zero there. */
  datatype Measures = Measures(docs: nat, bytes: nat, largest: nat, ms: real)

  /** What events add up to. */
  datatype Amounts = Amounts(count: nat, docs: nat, bytes: nat, largest: nat, ms: real)

  const NOTHING := Amounts(0, 0, 0, 0, 0.0)

  function Max(a: nat, b: nat): nat {
    if a < b then b else a
  }

  /** One event more. */
  function Added(held: Amounts, m: Measures): Amounts {
    Amounts(held.count + 1, held.docs + m.docs, held.bytes + m.bytes, Max(held.largest, m.largest), held.ms + m.ms)
  }

  function Key(u: Usage): string {
    u.clientId + ['|'] + if u.detail.None? then u.collection else u.collection + ['|'] + u.detail.value
  }

  // ----- adding up

  function SumOf(xs: seq<nat>): nat {
    if xs == [] then 0 else SumOf(xs[..|xs| - 1]) + xs[|xs| - 1]
  }

  function RealSum(xs: seq<real>): real {
    if xs == [] then 0.0 else RealSum(xs[..|xs| - 1]) + xs[|xs| - 1]
  }

  /** These laws leave only one function for each of the two. */
  lemma {:induction false} SumLaws(a: seq<nat>, b: seq<nat>, x: nat)
    ensures SumOf(a + b) == SumOf(a) + SumOf(b) && SumOf([x]) == x
  {
    if b == [] {
      assert a + b == a;
    } else {
      assert (a + b)[..|a + b| - 1] == a + b[..|b| - 1];
      SumLaws(a, b[..|b| - 1], x);
    }
  }

  lemma {:induction false} RealSumLaws(a: seq<real>, b: seq<real>, x: real)
    ensures RealSum(a + b) == RealSum(a) + RealSum(b) && RealSum([x]) == x
  {
    if b == [] {
      assert a + b == a;
    } else {
      assert (a + b)[..|a + b| - 1] == a + b[..|b| - 1];
      RealSumLaws(a, b[..|b| - 1], x);
    }
  }

  /** An upper bound that is among the sizes, or zero. */
  predicate IsLargest(x: nat, sizes: seq<nat>) {
    (forall i :: 0 <= i < |sizes| ==> sizes[i] <= x) && (x in sizes || x == 0)
  }

  function Each<T>(parts: seq<Amounts>, figure: Amounts -> T): (r: seq<T>)
    ensures |r| == |parts| && forall i :: 0 <= i < |parts| ==> r[i] == figure(parts[i])
  {
    seq(|parts|, i requires 0 <= i < |parts| => figure(parts[i]))
  }

  function CountOf(a: Amounts): nat { a.count }
  function DocsOf(a: Amounts): nat { a.docs }
  function BytesOf(a: Amounts): nat { a.bytes }
  function LargestOf(a: Amounts): nat { a.largest }
  function MsOf(a: Amounts): real { a.ms }

  /** Four plain sums and the largest size. */
  predicate AddsUp(total: Amounts, parts: seq<Amounts>) {
    && total.count == SumOf(Each(parts, CountOf))
    && total.docs == SumOf(Each(parts, DocsOf))
    && total.bytes == SumOf(Each(parts, BytesOf))
    && IsLargest(total.largest, Each(parts, LargestOf))
    && total.ms == RealSum(Each(parts, MsOf))
  }

  /** What one event alone amounts to. */
  function Single(u: Usage): Amounts {
    Amounts(1, u.measures.docs, u.measures.bytes, u.measures.largest, u.measures.ms)
  }

  function Singles(us: seq<Usage>): (r: seq<Amounts>)
    ensures |r| == |us| && forall i :: 0 <= i < |us| ==> r[i] == Single(us[i])
  {
    seq(|us|, i requires 0 <= i < |us| => Single(us[i]))
  }

  lemma EachMore<T>(parts: seq<Amounts>, more: seq<Amounts>, figure: Amounts -> T)
    ensures Each(parts + more, figure) == Each(parts, figure) + Each(more, figure)
  {
  }

  function Joined(a: Amounts, b: Amounts): Amounts {
    Amounts(a.count + b.count, a.docs + b.docs, a.bytes + b.bytes, Max(a.largest, b.largest), a.ms + b.ms)
  }

  /** The totals of two lists add up to that of both. */
  lemma AddsUpJoined(a: Amounts, parts: seq<Amounts>, b: Amounts, more: seq<Amounts>)
    requires AddsUp(a, parts) && AddsUp(b, more)
    ensures AddsUp(Joined(a, b), parts + more)
  {
    hide SumOf, RealSum, Each;
    EachMore(parts, more, CountOf);
    EachMore(parts, more, DocsOf);
    EachMore(parts, more, BytesOf);
    EachMore(parts, more, LargestOf);
    EachMore(parts, more, MsOf);
    SumLaws(Each(parts, CountOf), Each(more, CountOf), 0);
    SumLaws(Each(parts, DocsOf), Each(more, DocsOf), 0);
    SumLaws(Each(parts, BytesOf), Each(more, BytesOf), 0);
    RealSumLaws(Each(parts, MsOf), Each(more, MsOf), 0.0);
  }

  lemma OneAddsUp(a: Amounts)
    ensures AddsUp(a, [a]) && AddsUp(NOTHING, [])
  {
  }

  // ----- what was recorded, key by key

  function WithKey(us: seq<Usage>, k: string): seq<Usage> {
    if us == [] then []
    else
      var before := WithKey(us[..|us| - 1], k);
      if Key(us[|us| - 1]) == k then before + [us[|us| - 1]] else before
  }

  function Keys(us: seq<Usage>): set<string> {
    set i | 0 <= i < |us| :: Key(us[i])
  }

  /** How many events there are, and their sums and largest size. */
  predicate Tallies(a: Amounts, us: seq<Usage>) {
    a.count == |us| && AddsUp(a, Singles(us))
  }

  /** For every key that occurs, its events' tally. */
  predicate IsTable(table: map<string, Amounts>, us: seq<Usage>) {
    table.Keys == Keys(us) && forall k :: k in table ==> Tallies(table[k], WithKey(us, k))
  }

  function AmountsAt(table: map<string, Amounts>, k: string): Amounts {
    if k in table then table[k] else NOTHING
  }

  function Recorded(table: map<string, Amounts>, u: Usage): map<string, Amounts> {
    table[Key(u) := Added(AmountsAt(table, Key(u)), u.measures)]
  }

  lemma {:induction false} WithNoKey(us: seq<Usage>, k: string)
    requires k !in Keys(us)
    ensures WithKey(us, k) == []
  {
    if us != [] {
      var before := us[..|us| - 1];
      assert Key(us[|us| - 1]) in Keys(us);
      assert forall i :: 0 <= i < |before| ==> before[i] == us[i];
      WithNoKey(before, k);
    }
  }

  lemma KeysMore(us: seq<Usage>, u: Usage)
    ensures Keys(us + [u]) == Keys(us) + {Key(u)}
  {
    hide Key;
    var all := us + [u];
    assert forall i :: 0 <= i < |us| ==> all[i] == us[i];
    assert all[|us|] == u;
  }

  lemma WithKeyMore(us: seq<Usage>, u: Usage, k: string)
    ensures WithKey(us + [u], k) == if Key(u) == k then WithKey(us, k) + [u] else WithKey(us, k)
  {
    assert (us + [u])[..|us|] == us;
  }

  lemma TalliesJoined(a: Amounts, us: seq<Usage>, b: Amounts, vs: seq<Usage>)
    requires Tallies(a, us) && Tallies(b, vs)
    ensures Tallies(Joined(a, b), us + vs)
  {
    hide AddsUp;
    AddsUpJoined(a, Singles(us), b, Singles(vs));
    assert Singles(us + vs) == Singles(us) + Singles(vs);
  }

  lemma FewTally(u: Usage)
    ensures Tallies(NOTHING, []) && Tallies(Single(u), [u])
  {
    hide AddsUp;
    OneAddsUp(Single(u));
    assert Singles([u]) == [Single(u)] && Singles([]) == [];
  }

  lemma AddedIsJoined(a: Amounts, u: Usage)
    ensures Added(a, u.measures) == Joined(a, Single(u))
  {
  }

  /** What a key holds is the tally of its events; a key that is not held has none. */
  lemma TableAt(table: map<string, Amounts>, us: seq<Usage>, k: string)
    requires IsTable(table, us)
    ensures Tallies(AmountsAt(table, k), WithKey(us, k))
  {
    hide Tallies, Keys;
    if k !in table {
      WithNoKey(us, k);
      FewTally(Usage("", "", None, Measures(0, 0, 0, 0.0)));
    }
  }

  /** Recording an event makes the table that of one event more. */
  lemma RecordedIsTable(table: map<string, Amounts>, us: seq<Usage>, u: Usage)
    requires IsTable(table, us)
    ensures IsTable(Recorded(table, u), us + [u])
  {
    hide Key, Tallies, WithKey, Keys, Added, Joined, Single;
    KeysMore(us, u);
    TableAt(table, us, Key(u));
    FewTally(u);
    AddedIsJoined(AmountsAt(table, Key(u)), u);
    TalliesJoined(AmountsAt(table, Key(u)), WithKey(us, Key(u)), Single(u), [u]);
    forall k | k in Keys(us + [u])
      ensures Tallies(Recorded(table, u)[k], WithKey(us + [u], k))
    {
      WithKeyMore(us, u, k);
    }
  }

  // ----- reports

  datatype Event = Record(usage: Usage) | Report

  /** One table of totals, with the reports made of it so far. */
  datatype Totals = Totals(held: map<string, Amounts>, reports: seq<map<string, Amounts>>)

  function Next(t: Totals, e: Event): Totals {
    match e
    case Record(u) => t.(held := Recorded(t.held, u))
    case Report => Totals(map[], t.reports + [t.held])
  }

  function After(events: seq<Event>): Totals {
    if events == [] then Totals(map[], []) else Next(After(events[..|events| - 1]), events[|events| - 1])
  }

  /** The events recorded in each window between reports; the last window is still open. */
  function Windows(events: seq<Event>): (r: seq<seq<Usage>>)
    ensures r != []
  {
    if events == [] then [[]]
    else
      var before := Windows(events[..|events| - 1]);
      match events[|events| - 1]
      case Record(u) => before[|before| - 1 := before[|before| - 1] + [u]]
      case Report => before + [[]]
  }

  function AllOf(events: seq<Event>): seq<Usage> {
    if events == [] then []
    else
      var before := AllOf(events[..|events| - 1]);
      if events[|events| - 1].Record? then before + [events[|events| - 1].usage] else before
  }

  /** What is held after a run is the table of the open window, and the reports are those of the closed ones. */
  lemma {:induction false} ReportsAreWindows(events: seq<Event>)
    ensures var windows := Windows(events);
      && IsTable(After(events).held, windows[|windows| - 1])
      && |After(events).reports| == |windows| - 1
      && forall i :: 0 <= i < |windows| - 1 ==> IsTable(After(events).reports[i], windows[i])
  {
    hide IsTable, Recorded;
    if events == [] {
      TableOfNothing();
    } else {
      var before := events[..|events| - 1];
      ReportsAreWindows(before);
      var windows := Windows(before);
      match events[|events| - 1] {
        case Record(u) =>
          RecordedIsTable(After(before).held, windows[|windows| - 1], u);
        case Report =>
          TableOfNothing();
      }
    }
  }

  lemma TableOfNothing()
    ensures IsTable(map[], [])
  {
  }

  function Concat(windows: seq<seq<Usage>>): seq<Usage> {
    if windows == [] then [] else Concat(windows[..|windows| - 1]) + windows[|windows| - 1]
  }

  /** The windows hold every recorded event, each in one of them and in order. */
  lemma {:induction false} WindowsHoldAll(events: seq<Event>)
    ensures Concat(Windows(events)) == AllOf(events)
  {
    if events == [] {
      assert Concat([[]]) == [];
    } else {
      var before := events[..|events| - 1];
      WindowsHoldAll(before);
      var windows := Windows(before);
      var n := |windows| - 1;
      match events[|events| - 1] {
        case Record(u) =>
          var next := windows[n := windows[n] + [u]];
          assert next[..n] == windows[..n];
          assert Concat(next) == Concat(windows[..n]) + (windows[n] + [u]);
        case Report =>
          assert (windows + [[]])[..n + 1] == windows;
      }
    }
  }

  /** What each of these tables says of a key. */
  function RowsAt(tables: seq<map<string, Amounts>>, k: string): (rows: seq<Amounts>)
    ensures |rows| == |tables| && forall i :: 0 <= i < |tables| ==> rows[i] == AmountsAt(tables[i], k)
  {
    seq(|tables|, i requires 0 <= i < |tables| => AmountsAt(tables[i], k))
  }

  lemma {:induction false} WithKeyAppend(a: seq<Usage>, b: seq<Usage>, k: string)
    ensures WithKey(a + b, k) == WithKey(a, k) + WithKey(b, k)
  {
    if b == [] {
      assert a + b == a;
    } else {
      var front := b[..|b| - 1];
      assert (a + b)[..|a + b| - 1] == a + front;
      WithKeyAppend(a, front, k);
    }
  }

  lemma {:induction false} WindowsAddUp(windows: seq<seq<Usage>>, tables: seq<map<string, Amounts>>, k: string)
      returns (total: Amounts)
    requires |tables| == |windows| && forall i :: 0 <= i < |windows| ==> IsTable(tables[i], windows[i])
    ensures AddsUp(total, RowsAt(tables, k)) && Tallies(total, WithKey(Concat(windows), k))
    decreases |windows|
  {
    hide IsTable, Tallies, AddsUp, WithKey, Joined, AmountsAt;
    if windows == [] {
      total := NOTHING;
      WithNoKey([], k);
      OneAddsUp(NOTHING);
      FewTally(Usage("", "", None, Measures(0, 0, 0, 0.0)));
    } else {
      var n := |windows| - 1;
      var front := WindowsAddUp(windows[..n], tables[..n], k);
      var last := AmountsAt(tables[n], k);
      total := Joined(front, last);
      TableAt(tables[n], windows[n], k);
      OneAddsUp(last);
      AddsUpJoined(front, RowsAt(tables[..n], k), last, [last]);
      assert RowsAt(tables, k) == RowsAt(tables[..n], k) + [last];
      WithKeyAppend(Concat(windows[..n]), windows[n], k);
      TalliesJoined(front, WithKey(Concat(windows[..n]), k), last, WithKey(windows[n], k));
    }
  }

  /**
   * For every key, the rows reported so far and the one still held add up to all that was recorded: the number of the
   * key's events and the plain sums of what they measured, and the largest size over the rows is that over the events.
   */
  lemma {:induction false} UsageConserved(events: seq<Event>, k: string)
    ensures var rows := RowsAt(After(events).reports + [After(events).held], k);
      exists total :: AddsUp(total, rows) && Tallies(total, WithKey(AllOf(events), k))
  {
    hide IsTable, Tallies, AddsUp, WithKey;
    ReportsAreWindows(events);
    WindowsHoldAll(events);
    var total := WindowsAddUp(Windows(events), After(events).reports + [After(events).held], k);
  }

  /** The events with a key are those of the list, as often as they occur there. */
  lemma {:induction false} WithKeyExactly(us: seq<Usage>, k: string, u: Usage)
    ensures multiset(WithKey(us, k))[u] == if Key(u) == k then multiset(us)[u] else 0
  {
    hide Key;
    if us != [] {
      var before := us[..|us| - 1];
      WithKeyExactly(before, k, u);
      assert us == before + [us[|us| - 1]];
    }
  }

  // ----- keys, of clients whose identifiers hold no separator

  predicate SameSubject(u: Usage, v: Usage) {
    u.clientId == v.clientId && u.collection == v.collection && u.detail == v.detail
  }

  /** What follows the client in a key. */
  function Subject(u: Usage): string {
    if u.detail.None? then u.collection else u.collection + ['|'] + u.detail.value
  }

  lemma {:induction false} KeyParts(u: Usage, v: Usage)
    requires '|' !in u.clientId && '|' !in v.clientId
    ensures Key(u) == Key(v) <==> u.clientId == v.clientId && Subject(u) == Subject(v)
  {
    if Key(u) == Key(v) { Decimal.SplitUnique(u.clientId, Subject(u), v.clientId, Subject(v), '|'); }
  }

  /** The runs of queries, which have no third part, are told apart whatever the collections are called. */
  lemma {:induction false} TwoPartKeysDiffer(u: Usage, v: Usage)
    requires '|' !in u.clientId && '|' !in v.clientId && u.detail.None? && v.detail.None?
    ensures Key(u) == Key(v) <==> SameSubject(u, v)
  {
    KeyParts(u, v);
  }

  /** So is everything recorded about collections whose names hold no separator. */
  lemma {:induction false} PlainKeysDiffer(u: Usage, v: Usage)
    requires '|' !in u.clientId && '|' !in v.clientId && u.detail.Some? && v.detail.Some?
    requires '|' !in u.collection && '|' !in v.collection
    ensures Key(u) == Key(v) <==> SameSubject(u, v)
  {
    KeyParts(u, v);
    if Subject(u) == Subject(v) {
      Decimal.SplitUnique(u.collection, u.detail.value, v.collection, v.detail.value, '|');
    }
  }

  /** Another event of the same table, from a client with a plain identifier, would be counted in the same row. */
  ghost predicate Shared(u: Usage) {
    exists v: Usage :: v.detail.Some? && '|' !in v.clientId && Key(v) == Key(u) && !SameSubject(u, v)
  }

  /** A row with a third part is shared exactly if the name of the collection or the third part holds a separator. */
  lemma {:induction false} SharedExactly(u: Usage)
    requires '|' !in u.clientId && u.detail.Some?
    ensures Shared(u) <==> '|' in u.collection || '|' in u.detail.value
  {
    if '|' in u.collection {
      var a, b := SplitAt(u.collection);
      var v := Usage(u.clientId, a, Some(b + ['|'] + u.detail.value), u.measures);
      assert Subject(v) == a + ['|'] + (b + ['|'] + u.detail.value) == a + ['|'] + b + ['|'] + u.detail.value
          == Subject(u);
      KeyParts(u, v);
      assert a != u.collection;
    } else if '|' in u.detail.value {
      var a, b := SplitAt(u.detail.value);
      var v := Usage(u.clientId, u.collection + ['|'] + a, Some(b), u.measures);
      assert Subject(v) == u.collection + ['|'] + a + ['|'] + b == u.collection + ['|'] + (a + ['|'] + b) == Subject(u);
      KeyParts(u, v);
      assert b != u.detail.value;
    } else if Shared(u) {
      var v: Usage :| v.detail.Some? && '|' !in v.clientId && Key(v) == Key(u) && !SameSubject(u, v);
      KeyParts(u, v);
      OneSeparator(u.collection, u.detail.value, v.collection, v.detail.value);
      assert false;
    }
  }

  lemma SplitAt(s: string) returns (a: string, b: string)
    requires '|' in s
    ensures s == a + ['|'] + b
  {
    var i :| 0 <= i < |s| && s[i] == '|';
    a, b := s[..i], s[i + 1..];
  }

  /** A string with one separator splits in one way. */
  lemma OneSeparator(a: string, b: string, c: string, d: string)
    requires '|' !in a && '|' !in b && a + ['|'] + b == c + ['|'] + d
    ensures a == c && b == d
  {
    var s := a + ['|'] + b;
    assert forall i :: 0 <= i < |s| && s[i] == '|' ==> i == |a|;
    assert (c + ['|'] + d)[|c|] == '|';
    assert c == s[..|c|] && d == s[|c| + 1..];
  }
}
