/** The monitor's maps and counter, changed in place. ResourceUsage says what a table holds. */
module ResourceMonitor {
  import opened Wrappers
  import opened ResourceUsage

  /** One of the monitor's maps of totals, with the rows written out so far, by report. */
  class UsageTable {
    var totals: map<string, Amounts>
    var reports: seq<map<string, Amounts>>

    function Current(): Totals
      reads this
    {
      Totals(totals, reports)
    }

    constructor ()
      ensures Current() == After([])
    {
      totals, reports := map[], [];
    }

    method Add(u: Usage)
      modifies this`totals
      ensures Current() == Next(old(Current()), Record(u))
    {
      var key := Key(u);
      var held := if key in totals then totals[key] else NOTHING;
      totals := totals[key := Amounts(held.count + 1, held.docs + u.measures.docs, held.bytes + u.measures.bytes,
                                      Max(held.largest, u.measures.largest), held.ms + u.measures.ms)];
    }

    method TakeReport()
      modifies this
      ensures Current() == Next(old(Current()), Report)
    {
      reports := reports + [totals];
      totals := map[];
    }
  }

  class Monitor {
    const enabled: bool
    const snapshotReads: UsageTable
    const opsLoaded: UsageTable
    const queriesRun: UsageTable
    const queriesPolled: UsageTable
    /** What each fetch in flight saw as the number of fetches in flight. */
    var activeFetches: map<nat, nat>
    var inFlightFetchCount: int

    ghost predicate Valid()
      reads this, snapshotReads, opsLoaded, queriesRun, queriesPolled
    {
      && snapshotReads != opsLoaded && snapshotReads != queriesRun && snapshotReads != queriesPolled
      && opsLoaded != queriesRun && opsLoaded != queriesPolled && queriesRun != queriesPolled
      && inFlightFetchCount == |activeFetches|
    }

    constructor (enabled: bool)
      ensures Valid() && this.enabled == enabled && activeFetches == map[]
      ensures fresh({snapshotReads, opsLoaded, queriesRun, queriesPolled})
      ensures snapshotReads.Current() == opsLoaded.Current() == queriesRun.Current() == queriesPolled.Current()
        == After([])
    {
      this.enabled := enabled;
      snapshotReads := new UsageTable();
      opsLoaded := new UsageTable();
      queriesRun := new UsageTable();
      queriesPolled := new UsageTable();
      activeFetches, inFlightFetchCount := map[], 0;
    }

    method RecordSnapshotRead(clientId: string, collection: string, snapshotType: string, sizes: seq<nat>)
      requires Valid()
      modifies snapshotReads`totals
      ensures Valid()
      ensures snapshotReads.Current() ==
        if enabled
        then Next(old(snapshotReads.Current()),
                  Record(Usage(clientId, collection, Some(snapshotType), Measures(|sizes|, SumOf(sizes), 0, 0.0))))
        else old(snapshotReads.Current())
    {
      if !enabled { return; }
      var bytes := 0;
      assert sizes[..0] == [];
      for i := 0 to |sizes|
        invariant bytes == SumOf(sizes[..i])
      {
        assert sizes[..i + 1][..i] == sizes[..i];
        bytes := bytes + sizes[i];
      }
      assert sizes[..|sizes|] == sizes;
      snapshotReads.Add(Usage(clientId, collection, Some(snapshotType), Measures(|sizes|, bytes, 0, 0.0)));
    }

    method RecordOpLoaded(clientId: string, collection: string, docId: string, size: nat)
      requires Valid()
      modifies opsLoaded`totals
      ensures Valid()
      ensures opsLoaded.Current() ==
        if enabled
        then Next(old(opsLoaded.Current()),
                  Record(Usage(clientId, collection, Some(docId), Measures(0, size, size, 0.0))))
        else old(opsLoaded.Current())
    {
      if !enabled { return; }
      opsLoaded.Add(Usage(clientId, collection, Some(docId), Measures(0, size, size, 0.0)));
    }

    method RecordQueryRun(clientId: string, collection: string)
      requires Valid()
      modifies queriesRun`totals
      ensures Valid()
      ensures queriesRun.Current() ==
        if enabled
        then Next(old(queriesRun.Current()), Record(Usage(clientId, collection, None, Measures(0, 0, 0, 0.0))))
        else old(queriesRun.Current())
    {
      if !enabled { return; }
      queriesRun.Add(Usage(clientId, collection, None, Measures(0, 0, 0, 0.0)));
    }

    method RecordQueryPolled(clientId: string, collection: string, pollType: string, durationMs: real)
      requires Valid()
      modifies queriesPolled`totals
      ensures Valid()
      ensures queriesPolled.Current() ==
        if enabled
        then Next(old(queriesPolled.Current()),
                  Record(Usage(clientId, collection, Some(pollType), Measures(0, 0, 0, durationMs))))
        else old(queriesPolled.Current())
    {
      if !enabled { return; }
      queriesPolled.Add(Usage(clientId, collection, Some(pollType), Measures(0, 0, 0, durationMs)));
    }

    /** Each table is reported and starts again. */
    method RecordUsageDiagnostics()
      requires Valid()
      modifies snapshotReads, opsLoaded, queriesRun, queriesPolled
      ensures Valid()
      ensures snapshotReads.Current() == Next(old(snapshotReads.Current()), Report)
      ensures opsLoaded.Current() == Next(old(opsLoaded.Current()), Report)
      ensures queriesRun.Current() == Next(old(queriesRun.Current()), Report)
      ensures queriesPolled.Current() == Next(old(queriesPolled.Current()), Report)
    {
      snapshotReads.TakeReport();
      opsLoaded.TakeReport();
      queriesRun.TakeReport();
      queriesPolled.TakeReport();
    }

    /** The operation's identifier is a new one. */
    method BeginFetchOperation(operationId: nat)
      requires Valid() && operationId !in activeFetches
      modifies this`activeFetches, this`inFlightFetchCount
      ensures Valid()
      ensures activeFetches == old(activeFetches)[operationId := inFlightFetchCount]
      ensures inFlightFetchCount == old(inFlightFetchCount) + 1
    {
      inFlightFetchCount := inFlightFetchCount + 1;
      activeFetches := activeFetches[operationId := inFlightFetchCount];
    }

    /** The count never needs the clamp at zero; an unknown operation changes nothing. */
    method EndFetchOperation(operationId: nat)
      requires Valid()
      modifies this`activeFetches, this`inFlightFetchCount
      ensures Valid()
      ensures activeFetches == old(activeFetches) - {operationId}
      ensures inFlightFetchCount == old(inFlightFetchCount) - if operationId in old(activeFetches) then 1 else 0
    {
      if operationId !in activeFetches {
        assert activeFetches == activeFetches - {operationId};
        return;
      }
      assert |activeFetches - {operationId}| == |activeFetches| - 1 by { OneFewer(activeFetches, operationId); }
      activeFetches := activeFetches - {operationId};
      inFlightFetchCount := if inFlightFetchCount - 1 > 0 then inFlightFetchCount - 1 else 0;
    }
  }

  lemma OneFewer(m: map<nat, nat>, k: nat)
    requires k in m
    ensures |m - {k}| == |m| - 1
  {
    var less := m - {k};
    assert less.Keys == m.Keys - {k};
    assert |less.Keys| == |less| && |m.Keys| == |m|;
  }
}
