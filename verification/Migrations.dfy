/** Numbered migrations and the runner that brings every collection up to date. */
module Migrations {
  import opened Wrappers
  import opened Decimal

  datatype Migration = Migration(version: nat, name: string)

  // ----- the list of migrations

  predicate Contains(text: string, part: string) {
    part <= text || (text != [] && Contains(text[1..], part))
  }

  /** Every migration is numbered by its place in the list, and its name has the number in it somewhere. */
  predicate WellNumbered(migrations: seq<Migration>) {
    forall i :: 0 <= i < |migrations| ==>
      migrations[i].version == i + 1 && HasPart(migrations[i].name, Render(i + 1))
  }

  predicate HasPart(text: string, part: string) {
    exists k :: 0 <= k && k + |part| <= |text| && PartAt(text, part, k)
  }

  predicate PartAt(text: string, part: string, k: nat)
    requires k + |part| <= |text|
  {
    text[k..k + |part|] == part
  }

  lemma PartLater(text: string, part: string, k: nat)
    requires k + |part| < |text|
    ensures PartAt(text[1..], part, k) <==> PartAt(text, part, k + 1)
  {
    assert text[1..][k..k + |part|] == text[k + 1..k + 1 + |part|];
  }

  lemma PartAtStart(text: string, part: string)
    requires |part| <= |text|
    ensures PartAt(text, part, 0) <==> part <= text
  {
    assert text[0..|part|] == text[..|part|];
  }

  lemma {:induction false} ContainsExactly(text: string, part: string)
    ensures Contains(text, part) <==> HasPart(text, part)
  {
    hide PartAt;
    if |part| <= |text| {
      PartAtStart(text, part);
    }
    if text != [] {
      ContainsExactly(text[1..], part);
      if HasPart(text[1..], part) {
        var k :| 0 <= k && k + |part| <= |text[1..]| && PartAt(text[1..], part, k);
        PartLater(text, part, k);
      }
      if k :| 0 < k && k + |part| <= |text| && PartAt(text, part, k) {
        PartLater(text, part, k - 1);
      }
    }
  }

  /** Refuses a list whose versions do not count up from one, or whose names do not say their version. */
  method CheckedList(migrations: seq<Migration>) returns (r: Result<seq<Migration>, nat>)
    ensures r == Success(migrations) <==> WellNumbered(migrations)
    ensures r.Failure? ==> r.error < |migrations|
    ensures r.Failure? ==> WellNumbered(migrations[..r.error]) && !WellNumbered(migrations[..r.error + 1])
  {
    for i := 0 to |migrations|
      invariant WellNumbered(migrations[..i])
    {
      ContainsExactly(migrations[i].name, Render(migrations[i].version));
      if migrations[i].version != i + 1 || !Contains(migrations[i].name, Render(migrations[i].version)) {
        assert migrations[..i + 1][i] == migrations[i];
        return Failure(i);
      }
      OneMoreNumbered(migrations, i);
    }
    assert migrations[..|migrations|] == migrations;
    r := Success(migrations);
  }

  lemma OneMoreNumbered(migrations: seq<Migration>, i: nat)
    requires i < |migrations| && WellNumbered(migrations[..i])
    requires migrations[i].version == i + 1 && HasPart(migrations[i].name, Render(i + 1))
    ensures WellNumbered(migrations[..i + 1])
  {
    hide HasPart, Render;
    assert forall j :: 0 <= j < i ==> migrations[..i + 1][j] == migrations[..i][j];
  }

  /** The list's migrations are registered under their versions, from 1 to the last, and nothing else is. */
  ghost predicate Registered(service: DocService, list: seq<Migration>)
    reads service
  {
    && WellNumbered(list)
    && service.schemaVersion == |list|
    && (forall v :: v in service.migrations <==> 0 < v <= |list|)
    && forall v :: v in service.migrations ==> service.migrations[v] == list[v - 1]
  }

  /** What a collection's service registers: its migrations by version, and the highest version. */
  class DocService {
    const collection: string
    var migrations: map<nat, Migration>
    var schemaVersion: nat

    constructor (collection: string, list: seq<Migration>)
      ensures this.collection == collection
      ensures WellNumbered(list) ==> Registered(this, list)
    {
      this.collection := collection;
      migrations, schemaVersion := map[], 0;
      new;
      for i := 0 to |list|
        invariant WellNumbered(list) ==> schemaVersion == i
        invariant WellNumbered(list) ==> forall v :: v in migrations <==> 0 < v <= i
        invariant WellNumbered(list) ==> forall v :: v in migrations ==> migrations[v] == list[v - 1]
      {
        schemaVersion := if list[i].version > schemaVersion then list[i].version else schemaVersion;
        migrations := migrations[list[i].version := list[i]];
      }
    }

    /** Where a well-numbered list is registered, the migration that brings documents to this version. */
    method GetMigration(version: nat) returns (r: Option<Migration>)
      ensures r.None? <==> version !in migrations
      ensures forall list :: Registered(this, list) ==>
        r == if 0 < version <= |list| then Some(list[version - 1]) else None
      ensures forall list :: Registered(this, list) && r.Some? ==> r.value.version == version
    {
      r := if version in migrations then Some(migrations[version]) else None;
    }
  }

  // ----- the runner

  const LIMIT := 10000

  /** The versions from `cur + 1` to `target`, in order. */
  function Due(cur: nat, target: nat): seq<nat> {
    if target <= cur then [] else Due(cur, target - 1) + [target]
  }

  /** The migrations each of a collection's documents has received, in `_id` order. */
  type Documents = seq<seq<nat>>

  /** Every document has received everything due, each once and in order. */
  predicate Done(before: Documents, after: Documents, cur: nat, target: nat) {
    |after| == |before| && forall d :: 0 <= d < |before| ==> after[d] == before[d] + Due(cur, target)
  }

  /** What is due are the versions one above `cur` and so on up to the target. */
  lemma {:induction false} DueExactly(cur: nat, target: nat)
    ensures |Due(cur, target)| == if cur < target then target - cur else 0
    ensures forall i :: 0 <= i < |Due(cur, target)| ==> Due(cur, target)[i] == cur + 1 + i
  {
    if cur < target { DueExactly(cur, target - 1); }
  }

  /** A collection for which no version is stored receives all migrations, from the first one on. */
  lemma {:induction false} NewCollection(versions: map<string, nat>, collection: string, before: Documents,
                                         after: Documents, target: nat, d: nat)
    requires collection !in versions && d < |before|
    requires Done(before, after, VersionIn(versions, collection), target)
    ensures |after| == |before| && before[d] <= after[d] && |after[d]| == |before[d]| + target
    ensures forall i :: |before[d]| <= i < |after[d]| ==> after[d][i] == i - |before[d]| + 1
  {
    DueExactly(0, target);
  }

  /** A collection that is done with a target below its stored version has been left as it was. */
  lemma {:induction false} VersionSetBack(before: Documents, after: Documents, cur: nat, target: nat)
    requires target <= cur && Done(before, after, cur, target)
    ensures after == before
  {
    assert forall d :: 0 <= d < |before| ==> before[d] + [] == before[d];
  }

  /** Every document has received the first so many of what is due. */
  predicate Underway(before: Documents, after: Documents, cur: nat, target: nat) {
    |after| == |before| && forall d :: 0 <= d < |before| ==>
      before[d] <= after[d] && after[d] <= before[d] + Due(cur, target)
  }

  lemma {:induction false} DueGrows(cur: nat, middle: nat, target: nat)
    requires cur <= middle <= target
    ensures Due(cur, middle) <= Due(cur, target)
  {
    if middle < target { DueGrows(cur, middle, target - 1); }
  }

  /** Documents `lo` to `hi - 1` have what is due up to `version`; those before have everything, those after nothing. */
  predicate AtPage(before: Documents, now: Documents, cur: nat, target: nat, lo: nat, hi: nat, version: nat)
  {
    && |now| == |before|
    && lo <= hi <= |now|
    && (forall d :: 0 <= d < lo ==> now[d] == before[d] + Due(cur, target))
    && (forall d :: lo <= d < hi ==> now[d] == before[d] + Due(cur, version))
    && (forall d :: hi <= d < |now| ==> now[d] == before[d])
  }

  lemma PageIsUnderway(before: Documents, now: Documents, cur: nat, target: nat, lo: nat, hi: nat, version: nat)
    requires AtPage(before, now, cur, target, lo, hi, version) && cur <= version <= target
    ensures Underway(before, now, cur, target)
  {
    DueGrows(cur, version, target);
    forall d | 0 <= d < |before|
      ensures before[d] <= now[d] && now[d] <= before[d] + Due(cur, target)
    {
      if lo <= d < hi { PrefixAppend(before[d], Due(cur, version), Due(cur, target)); }
    }
  }

  lemma PrefixAppend<T>(a: seq<T>, b: seq<T>, c: seq<T>)
    requires b <= c
    ensures a + b <= a + c
  {
  }

  function Between(lo: nat, hi: nat): (r: set<nat>)
    ensures forall d :: d in r <==> lo <= d < hi
  {
    if hi <= lo then {} else Between(lo, hi - 1) + {hi - 1}
  }

  /** Documents `lo` to `hi - 1` accept each migration from `cur + 1` to `version`, all of them registered. */
  ghost predicate AllAccept(service: DocService, lo: nat, hi: nat, cur: nat, version: nat,
                            fails: (string, nat, nat) -> bool)
    reads service
  {
    forall v: nat :: cur < v <= version ==> PageAccepts(service, lo, hi, v, fails)
  }

  ghost predicate PageAccepts(service: DocService, lo: nat, hi: nat, version: nat, fails: (string, nat, nat) -> bool)
    reads service
  {
    version in service.migrations && forall d :: lo <= d < hi ==> !fails(service.collection, d, version)
  }

  /** Whether a collection's documents, if any, accept everything due. */
  ghost predicate Succeeds(service: DocService, documents: nat, cur: nat, fails: (string, nat, nat) -> bool)
    reads service
  {
    documents == 0 || AllAccept(service, 0, documents, cur, service.schemaVersion, fails)
  }

  /** With a well-numbered list nothing is missing, so that only a document's own refusal stops a migration. */
  lemma {:induction false} NothingMissing(service: DocService, list: seq<Migration>, documents: nat, cur: nat,
                                          fails: (string, nat, nat) -> bool)
    requires Registered(service, list)
    ensures Succeeds(service, documents, cur, fails)
      <==> forall v, d :: cur < v <= |list| && 0 <= d < documents ==> !fails(service.collection, d, v)
  {
    if documents > 0 && AllAccept(service, 0, documents, cur, service.schemaVersion, fails) {
      forall v, d | cur < v <= |list| && 0 <= d < documents
        ensures !fails(service.collection, d, v)
      {
        assert PageAccepts(service, 0, documents, v, fails);
      }
    }
  }

  /** The database as the runner sees it. `fails` says which document refuses which migration. */
  class Database {
    var documents: map<string, Documents>
    var versions: map<string, nat>

    function Of(collection: string): Documents
      reads this
    {
      DocumentsIn(documents, collection)
    }

    /** Starts one migration of a page of documents. They finish in any order, also after one has failed. */
    method MigratePage(collection: string, lo: nat, hi: nat, version: nat, fails: (string, nat, nat) -> bool)
      returns (ok: bool)
      requires lo <= hi <= |Of(collection)|
      modifies this`documents
      ensures SameBut(collection, old(documents), documents)
      ensures |Of(collection)| == |old(Of(collection))|
      ensures forall d :: 0 <= d < |Of(collection)| ==>
        Of(collection)[d] == old(Of(collection))[d]
          + if lo <= d < hi && !fails(collection, d, version) then [version] else []
      ensures ok <==> forall d :: lo <= d < hi ==> !fails(collection, d, version)
    {
      var waiting := Between(lo, hi);
      ok := true;
      while waiting != {}
        invariant SameBut(collection, old(documents), documents)
        invariant |Of(collection)| == |old(Of(collection))|
        invariant forall d :: d in waiting ==> lo <= d < hi
        invariant forall d :: 0 <= d < |Of(collection)| ==>
          Of(collection)[d] == old(Of(collection))[d]
            + if lo <= d < hi && d !in waiting && !fails(collection, d, version) then [version] else []
        invariant ok <==> forall d :: lo <= d < hi && d !in waiting ==> !fails(collection, d, version)
        decreases waiting
      {
        var d :| d in waiting;
        waiting := waiting - {d};
        if fails(collection, d, version) {
          ok := false;
        } else {
          var docs := Of(collection);
          documents := documents[collection := docs[d := docs[d] + [version]]];
        }
      }
    }

    /** Gives the documents of one page everything due, one migration after the other. */
    method UpdatePage(service: DocService, lo: nat, hi: nat, cur: nat, fails: (string, nat, nat) -> bool,
                      ghost before: Documents)
      returns (ok: bool)
      requires AtPage(before, Of(service.collection), cur, service.schemaVersion, lo, lo, cur)
      requires lo < hi <= |before|
      modifies this`documents
      ensures SameBut(service.collection, old(documents), documents)
      ensures ok ==> AtPage(before, Of(service.collection), cur, service.schemaVersion, hi, hi, cur)
                     && AllAccept(service, lo, hi, cur, service.schemaVersion, fails)
      ensures !ok ==> Underway(before, Of(service.collection), cur, service.schemaVersion)
                      && !Succeeds(service, |before|, cur, fails)
    {
      hide Due, AtPage, Underway, Succeeds, Registered;
      var c, target := service.collection, service.schemaVersion;
      var docVersion := cur;
      PageFetched(before, Of(c), cur, target, lo, hi);
      while docVersion < target
        invariant cur <= docVersion && (docVersion == cur || docVersion <= target)
        invariant SameBut(c, old(documents), documents)
        invariant AtPage(before, Of(c), cur, target, lo, hi, docVersion)
        invariant AllAccept(service, lo, hi, cur, docVersion, fails)
      {
        PageIsUnderway(before, Of(c), cur, target, lo, hi, docVersion);
        ghost var reached := Of(c);
        docVersion := docVersion + 1;
        var migration := service.GetMigration(docVersion);
        if migration.None? {
          NotRegistered(service, |before|, cur, docVersion, fails);
          return false;
        }
        AtPageLength(before, reached, cur, target, lo, hi, docVersion - 1);
        var accepted := MigratePage(c, lo, hi, docVersion, fails);
        StepIsUnderway(before, reached, Of(c), service, cur, lo, hi, docVersion, fails);
        if !accepted {
          NotAccepted(service, |before|, lo, hi, cur, docVersion, fails);
          return false;
        }
        StepDone(before, reached, Of(c), service, cur, lo, hi, docVersion, fails);
      }
      PageDone(before, Of(c), cur, target, lo, hi, docVersion);
      ok := true;
    }

    /** Pages through the collection; the documents of a page receive everything due before the next page is read. */
    method MigrateCollection(service: DocService, cur: nat, fails: (string, nat, nat) -> bool) returns (ok: bool)
      modifies this`documents
      ensures SameBut(service.collection, old(documents), documents)
      ensures Underway(old(Of(service.collection)), Of(service.collection), cur, service.schemaVersion)
      ensures ok ==> Done(old(Of(service.collection)), Of(service.collection), cur, service.schemaVersion)
      ensures ok <==> Succeeds(service, |old(Of(service.collection))|, cur, fails)
    {
      hide Due, AtPage, Underway, Done, Succeeds, AllAccept;
      var c, target := service.collection, service.schemaVersion;
      ghost var before := Of(c);
      var skip: nat := 0;
      var lo, hi := FetchPage(c, skip, LIMIT);
      NoPageYet(before, cur, target);
      while lo < hi
        invariant lo == Min(skip, |before|) && hi == Min(skip + LIMIT, |before|)
        invariant SameBut(c, old(documents), documents)
        invariant AtPage(before, Of(c), cur, target, lo, lo, cur)
        invariant lo > 0 ==> AllAccept(service, 0, lo, cur, target, fails)
        decreases |before| - lo
      {
        ok := UpdatePage(service, lo, hi, cur, fails, before);
        if !ok { return false; }
        AtPageLength(before, Of(c), cur, target, hi, hi, cur);
        PagesAccept(service, lo, hi, cur, target, fails);
        skip := skip + LIMIT;
        lo, hi := FetchPage(c, skip, LIMIT);
      }
      AllPagesDone(before, Of(c), service, cur, fails);
      ok := true;
    }

    /** The documents from `skip` on, `limit` at most, as positions in `_id` order. */
    method FetchPage(collection: string, skip: nat, limit: nat) returns (lo: nat, hi: nat)
      ensures lo == Min(skip, |Of(collection)|) && hi == Min(skip + limit, |Of(collection)|)
    {
      lo, hi := Min(skip, |Of(collection)|), Min(skip + limit, |Of(collection)|);
    }

    /**
     * Brings the collections up to date one by one and stops at the first failure, in service `stopped`.
     * A stored version changes only when all of the collection's documents have received everything due.
     */
    method MigrateIfNecessary(services: seq<DocService>, disabled: bool, fails: (string, nat, nat) -> bool)
      returns (ok: bool, stopped: nat)
      requires DistinctCollections(services)
      modifies this
      ensures disabled ==> ok && stopped == 0
      ensures !disabled ==> if ok then stopped == |services| else stopped < |services|
      ensures UpToDate(services, stopped, old(documents), documents, old(versions), versions)
      ensures !ok ==>
        var s := services[stopped];
        var before, cur := old(Of(s.collection)), VersionIn(old(versions), s.collection);
        && Underway(before, Of(s.collection), cur, s.schemaVersion)
        && VersionIn(versions, s.collection) == cur
        && !Succeeds(s, |before|, cur, fails)
      ensures UntouchedFrom(services, if ok then stopped else stopped + 1, old(documents), documents, old(versions),
        versions)
    {
      hide Done, Underway, Succeeds, Due, UpToDate, UntouchedFrom;
      stopped := 0;
      NoneYet(services, documents, versions);
      if disabled { return true, 0; }
      var versionMap := versions;
      while stopped < |services|
        invariant stopped <= |services|
        invariant UpToDate(services, stopped, old(documents), documents, old(versions), versions)
        invariant UntouchedFrom(services, stopped, old(documents), documents, old(versions), versions)
      {
        var service := services[stopped];
        var curVersion := VersionIn(versionMap, service.collection);
        ghost var docs, vers := documents, versions;
        Untouched(services, stopped, old(documents), docs, old(versions), vers);
        if curVersion == service.schemaVersion {
          NothingDue(Of(service.collection), curVersion);
          NextService(services, stopped, old(documents), docs, documents, old(versions), vers, versions);
          stopped := stopped + 1;
          continue;
        }
        var migrated := MigrateCollection(service, curVersion, fails);
        if !migrated {
          SomeFailed(services, stopped, old(documents), docs, documents, old(versions), vers);
          return false, stopped;
        }
        versions := versions[service.collection := service.schemaVersion];
        NextService(services, stopped, old(documents), docs, documents, old(versions), vers, versions);
        stopped := stopped + 1;
      }
      ok := true;
    }
  }

  function VersionIn(versions: map<string, nat>, collection: string): nat {
    if collection in versions then versions[collection] else 0
  }

  function DocumentsIn(documents: map<string, Documents>, collection: string): Documents {
    if collection in documents then documents[collection] else []
  }

  ghost predicate SameBut(collection: string, docs: map<string, Documents>, docs': map<string, Documents>) {
    forall c :: c != collection ==> DocumentsIn(docs', c) == DocumentsIn(docs, c)
  }

  /** The collections of the first `n` services have been brought up to date. */
  ghost predicate UpToDate(services: seq<DocService>, n: nat, docs0: map<string, Documents>,
                           docs: map<string, Documents>,
                           vers0: map<string, nat>, vers: map<string, nat>)
    reads services
  {
    n <= |services| && forall k :: 0 <= k < n ==>
      var s := services[k];
      && Done(DocumentsIn(docs0, s.collection), DocumentsIn(docs, s.collection), VersionIn(vers0, s.collection),
            s.schemaVersion)
      && VersionIn(vers, s.collection) == s.schemaVersion
  }

  /** Nothing but the collections of the first `n` services has been changed. */
  ghost predicate UntouchedFrom(services: seq<DocService>, n: nat, docs0: map<string, Documents>,
                                docs: map<string, Documents>,
                                vers0: map<string, nat>, vers: map<string, nat>)
  {
    forall c :: (forall k :: 0 <= k < n && k < |services| ==> services[k].collection != c) ==>
      DocumentsIn(docs, c) == DocumentsIn(docs0, c) && VersionIn(vers, c) == VersionIn(vers0, c)
  }

  lemma NoneYet(services: seq<DocService>, docs: map<string, Documents>, vers: map<string, nat>)
    ensures UpToDate(services, 0, docs, docs, vers, vers) && UntouchedFrom(services, 0, docs, docs, vers, vers)
  {
  }

  lemma Untouched(services: seq<DocService>, n: nat, docs0: map<string, Documents>, docs: map<string, Documents>,
                  vers0: map<string, nat>, vers: map<string, nat>)
    requires DistinctCollections(services) && n < |services|
    requires UntouchedFrom(services, n, docs0, docs, vers0, vers)
    ensures DocumentsIn(docs, services[n].collection) == DocumentsIn(docs0, services[n].collection)
    ensures VersionIn(vers, services[n].collection) == VersionIn(vers0, services[n].collection)
  {
  }

  lemma NextService(services: seq<DocService>, n: nat, docs0: map<string, Documents>, docs: map<string, Documents>,
                    docs': map<string, Documents>, vers0: map<string, nat>, vers: map<string, nat>,
                    vers': map<string, nat>)
    requires DistinctCollections(services) && n < |services|
    requires UpToDate(services, n, docs0, docs, vers0, vers) && UntouchedFrom(services, n, docs0, docs, vers0, vers)
    requires SameBut(services[n].collection, docs, docs')
    requires forall c :: c != services[n].collection ==> VersionIn(vers', c) == VersionIn(vers, c)
    requires var s := services[n];
      && Done(DocumentsIn(docs0, s.collection), DocumentsIn(docs', s.collection), VersionIn(vers0, s.collection),
            s.schemaVersion)
      && VersionIn(vers', s.collection) == s.schemaVersion
    ensures UpToDate(services, n + 1, docs0, docs', vers0, vers')
    ensures UntouchedFrom(services, n + 1, docs0, docs', vers0, vers')
  {
    hide Done, DocumentsIn, VersionIn, UntouchedFrom;
    SomeFailed(services, n, docs0, docs, docs', vers0, vers);
    assert UntouchedFrom(services, n + 1, docs0, docs', vers0, vers') by {
      OneChanged(services, n, docs0, docs', vers0, vers, vers');
    }
    forall k | 0 <= k < n
      ensures services[k].collection != services[n].collection
    {
    }
  }

  lemma OneChanged(services: seq<DocService>, n: nat, docs0: map<string, Documents>, docs: map<string, Documents>,
                   vers0: map<string, nat>, vers: map<string, nat>, vers': map<string, nat>)
    requires n < |services| && UntouchedFrom(services, n + 1, docs0, docs, vers0, vers)
    requires forall c :: c != services[n].collection ==> VersionIn(vers', c) == VersionIn(vers, c)
    ensures UntouchedFrom(services, n + 1, docs0, docs, vers0, vers')
  {
    hide DocumentsIn, VersionIn;
    forall c | forall k :: 0 <= k < n + 1 && k < |services| ==> services[k].collection != c
      ensures DocumentsIn(docs, c) == DocumentsIn(docs0, c) && VersionIn(vers', c) == VersionIn(vers0, c)
    {
      assert services[n].collection != c;
    }
  }

  lemma SomeFailed(services: seq<DocService>, n: nat, docs0: map<string, Documents>, docs: map<string, Documents>,
                   docs': map<string, Documents>, vers0: map<string, nat>, vers: map<string, nat>)
    requires DistinctCollections(services) && n < |services|
    requires UpToDate(services, n, docs0, docs, vers0, vers) && UntouchedFrom(services, n, docs0, docs, vers0, vers)
    requires SameBut(services[n].collection, docs, docs')
    ensures UpToDate(services, n, docs0, docs', vers0, vers)
    ensures UntouchedFrom(services, n + 1, docs0, docs', vers0, vers)
  {
    hide Done, DocumentsIn, VersionIn;
    forall c | forall k :: 0 <= k < n + 1 && k < |services| ==> services[k].collection != c
      ensures DocumentsIn(docs', c) == DocumentsIn(docs0, c) && VersionIn(vers, c) == VersionIn(vers0, c)
    {
      assert services[n].collection != c;
    }
  }

  predicate DistinctCollections(services: seq<DocService>) {
    forall i, j :: 0 <= i < j < |services| ==> services[i].collection != services[j].collection
  }

  lemma NothingDue(documents: Documents, version: nat)
    ensures Done(documents, documents, version, version)
  {
    assert forall d :: 0 <= d < |documents| ==> documents[d] == documents[d] + [];
  }

  function Min(a: nat, b: nat): nat {
    if a < b then a else b
  }

  // ----- one page after the other

  lemma DueStep(cur: nat, version: nat)
    ensures Due(cur, cur) == []
    ensures version > cur ==> Due(cur, version) == Due(cur, version - 1) + [version]
  {
  }

  lemma NoPageYet(before: Documents, cur: nat, target: nat)
    ensures AtPage(before, before, cur, target, 0, 0, cur)
  {
  }

  lemma PageFetched(before: Documents, now: Documents, cur: nat, target: nat, lo: nat, hi: nat)
    requires AtPage(before, now, cur, target, lo, lo, cur) && lo <= hi <= |before|
    ensures AtPage(before, now, cur, target, lo, hi, cur)
  {
    DueStep(cur, cur);
  }

  lemma AtPageLength(before: Documents, now: Documents, cur: nat, target: nat, lo: nat, hi: nat, version: nat)
    requires AtPage(before, now, cur, target, lo, hi, version)
    ensures lo <= hi <= |now| == |before|
  {
  }

  /** What one migration of a page does to the documents. */
  predicate Stepped(reached: Documents, now: Documents, collection: string, lo: nat, hi: nat, version: nat,
                    fails: (string, nat, nat) -> bool)
  {
    |now| == |reached| && forall d :: 0 <= d < |now| ==>
      now[d] == reached[d] + if lo <= d < hi && !fails(collection, d, version) then [version] else []
  }

  lemma StepIsUnderway(before: Documents, reached: Documents, now: Documents, service: DocService, cur: nat,
                       lo: nat, hi: nat, version: nat, fails: (string, nat, nat) -> bool)
    requires cur < version <= service.schemaVersion
    requires AtPage(before, reached, cur, service.schemaVersion, lo, hi, version - 1)
    requires Stepped(reached, now, service.collection, lo, hi, version, fails)
    ensures Underway(before, now, cur, service.schemaVersion)
  {
    var all := Due(cur, service.schemaVersion);
    DueStep(cur, version);
    DueGrows(cur, version - 1, service.schemaVersion);
    DueGrows(cur, version, service.schemaVersion);
    forall d | 0 <= d < |before|
      ensures before[d] <= now[d] && now[d] <= before[d] + all
    {
      if lo <= d < hi {
        var given := if fails(service.collection, d, version) then Due(cur, version - 1) else Due(cur, version);
        assert now[d] == before[d] + given;
        PrefixAppend(before[d], given, all);
      }
    }
  }

  lemma StepDone(before: Documents, reached: Documents, now: Documents, service: DocService, cur: nat,
                 lo: nat, hi: nat, version: nat, fails: (string, nat, nat) -> bool)
    requires cur < version && version in service.migrations
    requires AtPage(before, reached, cur, service.schemaVersion, lo, hi, version - 1)
    requires Stepped(reached, now, service.collection, lo, hi, version, fails)
    requires AllAccept(service, lo, hi, cur, version - 1, fails)
    requires forall d :: lo <= d < hi ==> !fails(service.collection, d, version)
    ensures AtPage(before, now, cur, service.schemaVersion, lo, hi, version)
    ensures AllAccept(service, lo, hi, cur, version, fails)
  {
    DueStep(cur, version);
    forall d | lo <= d < hi
      ensures now[d] == before[d] + Due(cur, version)
    {
      assert now[d] == before[d] + Due(cur, version - 1) + [version];
    }
  }

  lemma PageDone(before: Documents, now: Documents, cur: nat, target: nat, lo: nat, hi: nat, version: nat)
    requires AtPage(before, now, cur, target, lo, hi, version)
    requires version == target || (version == cur && target <= cur)
    ensures AtPage(before, now, cur, target, hi, hi, cur)
  {
    DueStep(cur, cur);
  }

  lemma PagesAccept(service: DocService, lo: nat, hi: nat, cur: nat, target: nat, fails: (string, nat, nat) -> bool)
    requires AllAccept(service, lo, hi, cur, target, fails)
    requires lo > 0 ==> AllAccept(service, 0, lo, cur, target, fails)
    ensures AllAccept(service, 0, hi, cur, target, fails)
  {
    forall v: nat | cur < v <= target
      ensures PageAccepts(service, 0, hi, v, fails)
    {
      assert PageAccepts(service, lo, hi, v, fails);
      assert lo > 0 ==> PageAccepts(service, 0, lo, v, fails);
    }
  }

  lemma NotRegistered(service: DocService, n: nat, cur: nat, version: nat, fails: (string, nat, nat) -> bool)
    requires n > 0 && cur < version <= service.schemaVersion && version !in service.migrations
    ensures !Succeeds(service, n, cur, fails)
  {
    if AllAccept(service, 0, n, cur, service.schemaVersion, fails) {
      VersionAccepted(service, n, cur, version, fails);
      assert false;
    }
  }

  lemma VersionAccepted(service: DocService, n: nat, cur: nat, version: nat, fails: (string, nat, nat) -> bool)
    requires AllAccept(service, 0, n, cur, service.schemaVersion, fails) && cur < version <= service.schemaVersion
    ensures PageAccepts(service, 0, n, version, fails)
  {
  }

  lemma AcceptedOne(service: DocService, n: nat, cur: nat, version: nat, d: nat, fails: (string, nat, nat) -> bool)
    requires AllAccept(service, 0, n, cur, service.schemaVersion, fails)
    requires cur < version <= service.schemaVersion && d < n
    ensures !fails(service.collection, d, version)
  {
    assert PageAccepts(service, 0, n, version, fails);
  }

  lemma NotAccepted(service: DocService, n: nat, lo: nat, hi: nat, cur: nat, version: nat,
                    fails: (string, nat, nat) -> bool)
    requires lo < hi <= n && cur < version <= service.schemaVersion
    requires exists d :: lo <= d < hi && fails(service.collection, d, version)
    ensures !Succeeds(service, n, cur, fails)
  {
    var d :| lo <= d < hi && fails(service.collection, d, version);
    if Succeeds(service, n, cur, fails) {
      AcceptedOne(service, n, cur, version, d, fails);
      assert false;
    }
  }

  lemma AllPagesDone(before: Documents, now: Documents, service: DocService, cur: nat,
                     fails: (string, nat, nat) -> bool)
    requires AtPage(before, now, cur, service.schemaVersion, |before|, |before|, cur)
    requires |before| > 0 ==> AllAccept(service, 0, |before|, cur, service.schemaVersion, fails)
    ensures Done(before, now, cur, service.schemaVersion)
    ensures Underway(before, now, cur, service.schemaVersion)
    ensures Succeeds(service, |before|, cur, fails)
  {
  }
}
