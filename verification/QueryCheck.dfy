/** Which operators a client's query may use. */
module QueryCheck {
  import opened Wrappers

  /** Members keep the order in which they are enumerated. */
  datatype Json =
    | Null
    | Bool(value: bool)
    | Number(number: real)
    | String(text: string)
    | Array(items: seq<Json>)
    | Object(members: seq<(string, Json)>)

  const CURSOR_QUERY_OPERATORS: set<string> := {"$sort", "$limit", "$skip", "$count"}
  const LOGICAL_QUERY_OPERATORS: set<string> := {"$or", "$and"}
  const FIELD_QUERY_OPERATORS: set<string> :=
    {"$ne", "$gt", "$gte", "$lt", "$in", "$regex", "$options", "$not", "$elemMatch"}

  predicate IsOperator(key: string) {
    key != [] && key[0] == '$'
  }

  function FindDisallowedQueryOperator(query: Json): Option<string>
    decreases query, 1
  {
    if query.Object? then FindInQuery(query.members) else None
  }

  function FindInQuery(members: seq<(string, Json)>): Option<string>
    decreases members, 0
  {
    if members == [] then None
    else
      assert members decreases to members[0];
      var (key, value) := members[0];
      var found :=
        if !IsOperator(key) then FindDisallowedFieldOperator(value)
        else if key in LOGICAL_QUERY_OPERATORS then
          if value.Array? then FindInQueries(value.items) else Some(key)
        else if key in CURSOR_QUERY_OPERATORS then None
        else Some(key);
      if found.Some? then found else FindInQuery(members[1..])
  }

  function FindInQueries(queries: seq<Json>): Option<string>
    decreases queries, 0
  {
    if queries == [] then None
    else
      var found := FindDisallowedQueryOperator(queries[0]);
      if found.Some? then found else FindInQueries(queries[1..])
  }

  function FindDisallowedFieldOperator(condition: Json): Option<string>
    decreases condition, 1
  {
    match condition
    case Array(items) => FindInConditions(items)
    case Object(members) => FindInCondition(members)
    case _ => None
  }

  function FindInConditions(conditions: seq<Json>): Option<string>
    decreases conditions, 0
  {
    if conditions == [] then None
    else
      var found := FindDisallowedFieldOperator(conditions[0]);
      if found.Some? then found else FindInConditions(conditions[1..])
  }

  function FindInCondition(members: seq<(string, Json)>): Option<string>
    decreases members, 0
  {
    if members == [] then None
    else
      assert members decreases to members[0];
      var (key, value) := members[0];
      if IsOperator(key) && key !in FIELD_QUERY_OPERATORS then Some(key)
      else
        var found := FindDisallowedFieldOperator(value);
        if found.Some? then found else FindInCondition(members[1..])
  }

  // ----- where operators stand

  /** What a value is to the database: a query, a list of queries, a condition on a field, or something else. */
  datatype Role = Query | Queries | Condition | Opaque

  /** What the value of a member is, from what the object is. */
  function MemberRole(role: Role, key: string, value: Json): Role {
    match role
    case Query =>
      if !("$" <= key) then Condition
      else if key in {"$or", "$and"} && value.Array? then Queries
      else Opaque
    case Condition => Condition
    case _ => Opaque
  }

  function ItemRole(role: Role): Role {
    match role
    case Queries => Query
    case Condition => Condition
    case _ => Opaque
  }

  /** The member at the end of a path of child numbers, with the role of the object it is in. */
  function Member(role: Role, v: Json, path: seq<nat>): Option<(Role, string, Json)>
    decreases path
  {
    if path == [] then None
    else
      match v
      case Object(members) =>
        if path[0] >= |members| then None
        else if |path| == 1 then Some((role, members[path[0]].0, members[path[0]].1))
        else Member(MemberRole(role, members[path[0]].0, members[path[0]].1), members[path[0]].1, path[1..])
      case Array(items) =>
        if path[0] >= |items| then None else Member(ItemRole(role), items[path[0]], path[1..])
      case _ => None
  }

  /** A name that begins with a dollar sign is an operator's. A logical operator is one only in front of a list. */
  predicate Allowed(role: Role, key: string, value: Json) {
    match role
    case Query =>
      !("$" <= key) || key in {"$sort", "$limit", "$skip", "$count"} || (key in {"$or", "$and"} && value.Array?)
    case Condition =>
      !("$" <= key) || key in {"$ne", "$gt", "$gte", "$lt", "$in", "$regex", "$options", "$not", "$elemMatch"}
    case _ => true
  }

  ghost predicate AllowedAt(role: Role, v: Json, path: seq<nat>) {
    var m := Member(role, v, path);
    m.Some? ==> Allowed(m.value.0, m.value.1, m.value.2)
  }

  /** Document order: an object's member comes before what is inside it. */
  predicate Precedes(p: seq<nat>, q: seq<nat>) {
    q != [] && (p == [] || p[0] < q[0] || (p[0] == q[0] && Precedes(p[1..], q[1..])))
  }

  /** The first disallowed operator in document order stands at `path`. */
  ghost predicate FirstAt(role: Role, v: Json, path: seq<nat>, op: string) {
    && Member(role, v, path).Some?
    && Member(role, v, path).value.1 == op
    && !AllowedAt(role, v, path)
    && forall p :: Precedes(p, path) ==> AllowedAt(role, v, p)
  }

  /** What a search in `v` is to find. */
  ghost predicate Finds(role: Role, v: Json, found: Option<string>) {
    match found
    case None => forall p :: AllowedAt(role, v, p)
    case Some(op) => exists path :: FirstAt(role, v, path, op)
  }

  // ----- the search finds it

  /** The search for each role; other values are not searched. */
  function FindAs(role: Role, v: Json): Option<string> {
    match role
    case Query => FindDisallowedQueryOperator(v)
    case Queries => if v.Array? then FindInQueries(v.items) else None
    case Condition => FindDisallowedFieldOperator(v)
    case Opaque => None
  }

  /** The search of the paths that begin with `lo` to `hi - 1`. */
  ghost predicate FindsIn(role: Role, v: Json, lo: nat, hi: nat, found: Option<string>) {
    match found
    case None => forall p :: p != [] && lo <= p[0] < hi ==> AllowedAt(role, v, p)
    case Some(op) => exists path :: FirstIn(role, v, lo, hi, path, op)
  }

  ghost predicate FirstIn(role: Role, v: Json, lo: nat, hi: nat, path: seq<nat>, op: string) {
    && path != [] && lo <= path[0] < hi
    && Member(role, v, path).Some?
    && Member(role, v, path).value.1 == op
    && !AllowedAt(role, v, path)
    && forall p :: p != [] && lo <= p[0] && Precedes(p, path) ==> AllowedAt(role, v, p)
  }

  lemma FindsBoth(role: Role, v: Json, lo: nat, mid: nat, hi: nat, a: Option<string>, b: Option<string>)
    requires lo <= mid <= hi
    requires FindsIn(role, v, lo, mid, a) && FindsIn(role, v, mid, hi, b)
    ensures FindsIn(role, v, lo, hi, if a.Some? then a else b)
  {
    hide AllowedAt, Member;
    if a.Some? {
      var path :| FirstIn(role, v, lo, mid, path, a.value);
      assert FirstIn(role, v, lo, hi, path, a.value);
    } else if b.Some? {
      var path :| FirstIn(role, v, mid, hi, path, b.value);
      assert FirstIn(role, v, lo, hi, path, b.value);
    }
  }

  /** All children searched is everything searched. */
  lemma FindsAll(role: Role, v: Json, found: Option<string>)
    requires FindsIn(role, v, 0, Children(v), found)
    ensures Finds(role, v, found)
  {
    assert forall p :: p == [] || p[0] >= Children(v) ==> AllowedAt(role, v, p);
    if found.Some? {
      var path :| FirstIn(role, v, 0, Children(v), path, found.value);
      assert FirstAt(role, v, path, found.value);
    }
  }

  function Children(v: Json): nat {
    match v
    case Array(items) => |items|
    case Object(members) => |members|
    case _ => 0
  }

  lemma {:induction false} OpaqueAllows(v: Json, path: seq<nat>)
    ensures AllowedAt(Opaque, v, path)
    decreases path
  {
    if path != [] {
      match v
      case Object(members) => if path[0] < |members| { OpaqueAllows(members[path[0]].1, path[1..]); }
      case Array(items) => if path[0] < |items| { OpaqueAllows(items[path[0]], path[1..]); }
      case _ =>
    }
  }

  /** Below child `i`, and at it, operators are allowed where they are in that child. */
  ghost predicate SameBelow(role: Role, v: Json, i: nat, below: Role, child: Json) {
    forall p :: p != [] && p[0] == i ==> (AllowedAt(role, v, p) <==> AllowedAt(below, child, p[1..]))
  }

  /** What lies below child `i` is searched as that child. */
  lemma ChildFinds(role: Role, v: Json, i: nat, below: Role, child: Json, found: Option<string>)
    requires Finds(below, child, found)
    requires SameBelow(role, v, i, below, child)
    requires forall p :: |p| > 1 && p[0] == i ==> Member(role, v, p) == Member(below, child, p[1..])
    ensures FindsIn(role, v, i, i + 1, found)
  {
    hide Member, AllowedAt;
    if found.Some? {
      var path :| FirstAt(below, child, path, found.value);
      ChildFirst(role, v, i, below, child, path, found.value);
    }
  }

  lemma ChildFirst(role: Role, v: Json, i: nat, below: Role, child: Json, path: seq<nat>, op: string)
    requires FirstAt(below, child, path, op)
    requires SameBelow(role, v, i, below, child)
    requires forall p :: |p| > 1 && p[0] == i ==> Member(role, v, p) == Member(below, child, p[1..])
    ensures FirstIn(role, v, i, i + 1, [i] + path, op)
  {
    NoMember(below, child);
    hide Member, AllowedAt;
    var full := [i] + path;
    assert full[1..] == path;
    forall p: seq<nat> | p != [] && i <= p[0] && Precedes(p, full)
      ensures AllowedAt(role, v, p)
    {
      assert Precedes(p[1..], path);
    }
  }

  lemma NoMember(role: Role, v: Json)
    ensures Member(role, v, []).None?
  {
  }

  lemma NothingPrecedesRoot(p: seq<nat>)
    ensures !Precedes(p, [])
  {
  }

  lemma MemberFinds(role: Role, v: Json, i: nat, found: Option<string>)
    requires v.Object? && i < |v.members|
    requires var (key, value) := v.members[i];
      if Allowed(role, key, value) then Finds(MemberRole(role, key, value), value, found) else found == Some(key)
    ensures FindsIn(role, v, i, i + 1, found)
  {
    hide Allowed, MemberRole, Finds;
    var (key, value) := v.members[i];
    assert [i][1..] == [];
    if Allowed(role, key, value) {
      NoMember(MemberRole(role, key, value), value);
      ChildFinds(role, v, i, MemberRole(role, key, value), value, found);
    } else {
      assert Member(role, v, [i]) == Some((role, key, value));
      forall p
        ensures Precedes(p, [i]) ==> p == [] || p[0] < i
      {
        if p != [] { NothingPrecedesRoot(p[1..]); }
      }
      assert FirstIn(role, v, i, i + 1, [i], key);
    }
  }

  lemma ItemFinds(role: Role, v: Json, i: nat, found: Option<string>)
    requires v.Array? && i < |v.items|
    requires Finds(ItemRole(role), v.items[i], found)
    ensures FindsIn(role, v, i, i + 1, found)
  {
    hide Finds;
    NoMember(ItemRole(role), v.items[i]);
    ChildFinds(role, v, i, ItemRole(role), v.items[i], found);
  }

  lemma NothingFound(role: Role, v: Json, k: nat)
    ensures FindsIn(role, v, k, k, None)
  {
  }

  lemma {:induction false} QueryMembersFind(v: Json, k: nat)
    requires v.Object? && k <= |v.members|
    ensures FindsIn(Query, v, k, |v.members|, FindInQuery(v.members[k..]))
    decreases v, 1, |v.members| - k
  {
    hide FindsIn, Finds, FindDisallowedQueryOperator, FindDisallowedFieldOperator;
    if k == |v.members| {
      NothingFound(Query, v, k);
    } else {
      var (key, value) := v.members[k];
      var below := MemberRole(Query, key, value);
      var own := if Allowed(Query, key, value) then FindAs(below, value) else Some(key);
      assert v decreases to v.members[k];
      ValueFinds(below, value);
      MemberFinds(Query, v, k, own);
      QueryMembersFind(v, k + 1);
      FindsBoth(Query, v, k, k + 1, |v.members|, own, FindInQuery(v.members[k + 1..]));
      assert v.members[k..][1..] == v.members[k + 1..];
    }
  }

  lemma {:induction false} ConditionMembersFind(v: Json, k: nat)
    requires v.Object? && k <= |v.members|
    ensures FindsIn(Condition, v, k, |v.members|, FindInCondition(v.members[k..]))
    decreases v, 1, |v.members| - k
  {
    hide FindsIn, Finds, FindDisallowedQueryOperator, FindDisallowedFieldOperator;
    if k == |v.members| {
      NothingFound(Condition, v, k);
    } else {
      var (key, value) := v.members[k];
      var own := if Allowed(Condition, key, value) then FindAs(Condition, value) else Some(key);
      assert v decreases to v.members[k];
      ValueFinds(Condition, value);
      MemberFinds(Condition, v, k, own);
      ConditionMembersFind(v, k + 1);
      FindsBoth(Condition, v, k, k + 1, |v.members|, own, FindInCondition(v.members[k + 1..]));
      assert v.members[k..][1..] == v.members[k + 1..];
    }
  }

  lemma {:induction false} QueriesFind(v: Json, k: nat)
    requires v.Array? && k <= |v.items|
    ensures FindsIn(Queries, v, k, |v.items|, FindInQueries(v.items[k..]))
    decreases v, 1, |v.items| - k
  {
    hide FindsIn, Finds, FindDisallowedQueryOperator, FindDisallowedFieldOperator;
    if k == |v.items| {
      NothingFound(Queries, v, k);
    } else {
      var own := FindDisallowedQueryOperator(v.items[k]);
      ValueFinds(Query, v.items[k]);
      ItemFinds(Queries, v, k, own);
      QueriesFind(v, k + 1);
      FindsBoth(Queries, v, k, k + 1, |v.items|, own, FindInQueries(v.items[k + 1..]));
      assert v.items[k..][1..] == v.items[k + 1..];
    }
  }

  lemma {:induction false} ConditionsFind(v: Json, k: nat)
    requires v.Array? && k <= |v.items|
    ensures FindsIn(Condition, v, k, |v.items|, FindInConditions(v.items[k..]))
    decreases v, 1, |v.items| - k
  {
    hide FindsIn, Finds, FindDisallowedQueryOperator, FindDisallowedFieldOperator;
    if k == |v.items| {
      NothingFound(Condition, v, k);
    } else {
      var own := FindDisallowedFieldOperator(v.items[k]);
      ValueFinds(Condition, v.items[k]);
      ItemFinds(Condition, v, k, own);
      ConditionsFind(v, k + 1);
      FindsBoth(Condition, v, k, k + 1, |v.items|, own, FindInConditions(v.items[k + 1..]));
      assert v.items[k..][1..] == v.items[k + 1..];
    }
  }

  lemma {:induction false} ValueFinds(role: Role, v: Json)
    ensures Finds(role, v, FindAs(role, v))
    decreases v, 2, 0
  {
    hide FindsIn, Finds;
    match role
    case Opaque => NothingOpaque(v);
    case Query =>
      if v.Object? {
        QueryMembersFind(v, 0);
        FindsAll(Query, v, FindAs(role, v));
      } else {
        NothingInside(Query, v);
      }
    case Queries =>
      if v.Array? {
        QueriesFind(v, 0);
        FindsAll(Queries, v, FindAs(role, v));
      } else {
        NothingInside(Queries, v);
      }
    case Condition =>
      if v.Object? {
        ConditionMembersFind(v, 0);
        FindsAll(Condition, v, FindAs(role, v));
      } else if v.Array? {
        ConditionsFind(v, 0);
        FindsAll(Condition, v, FindAs(role, v));
      } else {
        NothingInside(Condition, v);
      }
  }

  lemma NothingOpaque(v: Json)
    ensures Finds(Opaque, v, None)
  {
    forall p
      ensures AllowedAt(Opaque, v, p)
    {
      OpaqueAllows(v, p);
    }
  }

  /** A value that is no object in a query's place, and no list in the place of queries, holds no operators. */
  lemma NothingInside(role: Role, v: Json)
    requires role.Query? ==> !v.Object?
    requires role.Queries? ==> !v.Array?
    requires role.Condition? ==> !v.Object? && !v.Array?
    ensures Finds(role, v, None)
  {
    forall p
      ensures AllowedAt(role, v, p)
    {
      if p != [] && v.Array? && p[0] < |v.items| { OpaqueAllows(v.items[p[0]], p[1..]); }
      if p != [] && v.Object? && p[0] < |v.members| { OpaqueAllows(v.members[p[0]].1, p[1..]); }
    }
  }

  /** The check passes exactly when every operator, at any depth, is allowed where it stands. */
  lemma {:induction false} PassesIffAllAllowed(query: Json)
    ensures FindDisallowedQueryOperator(query).None? <==> forall p :: AllowedAt(Query, query, p)
  {
    hide AllowedAt, Member;
    ValueFinds(Query, query);
  }

  /** A refusal names the first disallowed operator in document order. */
  lemma {:induction false} RefusalNamesFirst(query: Json)
    requires FindDisallowedQueryOperator(query).Some?
    ensures exists path :: FirstAt(Query, query, path, FindDisallowedQueryOperator(query).value)
  {
    ValueFinds(Query, query);
  }

  // ----- the existence query

  const DOC_ID_EXISTENCE_QUERY_KEYS: set<string> := {"_id", "$limit", "$count"}

  function Lookup(members: seq<(string, Json)>, key: string): Option<Json> {
    if members == [] then None else if members[0].0 == key then Some(members[0].1) else Lookup(members[1..], key)
  }

  predicate IsDocIdExistenceQuery(query: Json) {
    query.Object?
    && |query.members| == |DOC_ID_EXISTENCE_QUERY_KEYS|
    && (forall i :: 0 <= i < |query.members| ==> query.members[i].0 in DOC_ID_EXISTENCE_QUERY_KEYS)
    && var id, limit, count :=
         Lookup(query.members, "_id"), Lookup(query.members, "$limit"), Lookup(query.members, "$count");
       && id.Some? && id.value.String?
       && limit == Some(Number(1.0))
       && count.Some? && count.value.Object?
       && |count.value.members| == 1
       && count.value.members[0].0 == "applySkipLimit"
       && Lookup(count.value.members, "applySkipLimit") == Some(Bool(true))
  }

  predicate DistinctKeys(members: seq<(string, Json)>) {
    forall i, j :: 0 <= i < j < |members| ==> members[i].0 != members[j].0
  }

  lemma {:induction false} LookupFinds(members: seq<(string, Json)>, key: string, value: Json)
    requires DistinctKeys(members)
    ensures Lookup(members, key) == Some(value) <==> (key, value) in members
  {
    if members != [] {
      var rest := members[1..];
      assert forall i :: 0 <= i < |rest| ==> rest[i] == members[i + 1];
      LookupFinds(rest, key, value);
      assert members == [members[0]] + rest;
    }
  }

  /** The exact shape: an ID, a limit of one and a count that applies it, in any order, and nothing else. */
  lemma {:induction false} ExistenceQueryShape(query: Json)
    requires query.Object? ==> DistinctKeys(query.members)
    ensures IsDocIdExistenceQuery(query) <==>
      && query.Object? && |query.members| == 3
      && (exists id :: ("_id", String(id)) in query.members)
      && ("$limit", Number(1.0)) in query.members
      && ("$count", Object([("applySkipLimit", Bool(true))])) in query.members
  {
    var count := Object([("applySkipLimit", Bool(true))]);
    assert |DOC_ID_EXISTENCE_QUERY_KEYS| == 3;
    if IsDocIdExistenceQuery(query) {
      var id := Lookup(query.members, "_id").value;
      LookupFinds(query.members, "_id", id);
      LookupFinds(query.members, "$limit", Number(1.0));
      var given := Lookup(query.members, "$count").value;
      LookupFinds(query.members, "$count", given);
      assert given.members == [("applySkipLimit", Bool(true))];
    }
    if query.Object? && |query.members| == 3 && (exists id :: ("_id", String(id)) in query.members)
       && ("$limit", Number(1.0)) in query.members && ("$count", count) in query.members {
      var id :| ("_id", String(id)) in query.members;
      LookupFinds(query.members, "_id", String(id));
      LookupFinds(query.members, "$limit", Number(1.0));
      LookupFinds(query.members, "$count", count);
      assert Lookup(count.members, "applySkipLimit") == Some(Bool(true));
      ThreeKeys(query.members, ("_id", String(id)), ("$limit", Number(1.0)), ("$count", count));
    }
  }

  lemma ThreeKeys(members: seq<(string, Json)>, a: (string, Json), b: (string, Json), c: (string, Json))
    requires |members| == 3 && a in members && b in members && c in members
    requires a.0 != b.0 && b.0 != c.0 && a.0 != c.0
    ensures forall i :: 0 <= i < 3 ==> members[i].0 in {a.0, b.0, c.0}
  {
    assert members == [members[0], members[1], members[2]];
  }

  /** Every existence query passes the check. */
  lemma {:induction false} ExistenceQueryPasses(query: Json)
    requires query.Object? ==> DistinctKeys(query.members)
    requires IsDocIdExistenceQuery(query)
    ensures FindDisallowedQueryOperator(query).None?
  {
    var id := Lookup(query.members, "_id").value;
    forall i | 0 <= i < |query.members| && !IsOperator(query.members[i].0)
      ensures query.members[i].1 == id
    {
      LookupFinds(query.members, "_id", query.members[i].1);
    }
    HarmlessMembers(query.members);
  }

  lemma {:induction false} HarmlessMembers(members: seq<(string, Json)>)
    requires forall i :: 0 <= i < |members| ==>
      if IsOperator(members[i].0) then members[i].0 in CURSOR_QUERY_OPERATORS else members[i].1.String?
    ensures FindInQuery(members).None?
  {
    if members != [] { HarmlessMembers(members[1..]); }
  }
}
