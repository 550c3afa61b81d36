/** The check of submitted ops against a collection's schema. */
module OpValidator {
  import opened Wrappers
  import opened QueryCheck

  /** `bsonTypes` is None when the schema has no type. */
  datatype Schema = Schema(
    bsonTypes: Option<seq<string>>,
    properties: Option<map<string, Schema>>,
    items: Option<Schema>,
    pattern: Option<string>,
    enumeration: Option<seq<Json>>)

  type Properties = Option<map<string, Schema>>

  datatype Step = Name(name: string) | Index(index: int)

  /** An op without a path is not applied. */
  datatype Op = Op(path: Option<seq<Step>>, li: Option<Json>, oi: Option<Json>, na: Option<Json>)

  /** The libraries' answers: whether a value matches a pattern, and whether it conforms to an object's schema. */
  datatype Checks = Checks(matches: (string, Json) -> bool, conforms: (Schema, Json) -> bool)

  /** The value the op puts in place. */
  function NewValue(op: Op): Option<Json> {
    if op.li.Some? then op.li else if op.oi.Some? then op.oi else op.na
  }

  /** A pattern replaces the check for a string, and an enumeration both. */
  predicate FitsType(checks: Checks, schema: Schema, bsonType: string, v: Json) {
    if bsonType in {"number", "int", "double", "long", "decimal"} then v.Number?
    else if bsonType == "bool" then v.Bool?
    else if bsonType == "null" then v.Null?
    else if bsonType == "string" then
      if schema.enumeration.Some? then v in schema.enumeration.value
      else if schema.pattern.Some? then checks.matches(schema.pattern.value, v)
      else v.String?
    else if bsonType == "object" then checks.conforms(schema, v)
    else true
  }

  /** There is no type to fit, or one of the types fits. */
  predicate FitsSome(checks: Checks, schema: Schema, v: Json) {
    schema.bsonTypes.None?
    || exists i :: 0 <= i < |schema.bsonTypes.value| && FitsType(checks, schema, schema.bsonTypes.value[i], v)
  }

  predicate Fits(checks: Checks, schema: Schema, op: Op) {
    NewValue(op).None? || FitsSome(checks, schema, NewValue(op).value)
  }

  // ----- which values a schema admits

  const NUMBER_TYPES: set<string> := {"number", "int", "double", "long", "decimal"}

  /** Any other type is not checked. */
  const CHECKED_TYPES: set<string> := NUMBER_TYPES + {"bool", "null", "string", "object"}

  /** The types a value is of. */
  function KindsOf(v: Json): set<string> {
    match v
    case Number(_) => NUMBER_TYPES
    case String(_) => {"string"}
    case Bool(_) => {"bool"}
    case Null => {"null"}
    case _ => {}
  }

  predicate Unrestricted(schema: Schema) {
    schema.pattern.None? && schema.enumeration.None?
  }

  /** A value suits the types it is of, but for restricted strings: an enumeration decides alone, and else a pattern. */
  predicate Suits(checks: Checks, schema: Schema, t: string, v: Json) {
    t !in CHECKED_TYPES
    || (t in KindsOf(v) && (t == "string" ==> Unrestricted(schema)))
    || (t == "string" && schema.enumeration.Some? && v in schema.enumeration.value)
    || (t == "string" && schema.enumeration.None? && schema.pattern.Some? && checks.matches(schema.pattern.value, v))
    || (t == "object" && checks.conforms(schema, v))
  }

  predicate Admits(checks: Checks, schema: Schema, v: Json) {
    schema.bsonTypes.None? || exists t :: t in schema.bsonTypes.value && Suits(checks, schema, t, v)
  }

  /** The value of `li` counts, without one that of `oi`, and without either that of `na`. */
  predicate Puts(op: Op, v: Json) {
    op.li == Some(v)
    || (op.li == None && op.oi == Some(v))
    || (op.li == None && op.oi == None && op.na == Some(v))
  }

  /** An op that puts no value in place is admitted anywhere. */
  ghost predicate Admitted(checks: Checks, schema: Schema, op: Op) {
    forall v :: Puts(op, v) ==> Admits(checks, schema, v)
  }

  lemma SuitsExactly(checks: Checks, schema: Schema, t: string, v: Json)
    ensures FitsType(checks, schema, t, v) <==> Suits(checks, schema, t, v)
  {
  }

  lemma {:induction false} FitsExactly(checks: Checks, schema: Schema, op: Op)
    ensures Fits(checks, schema, op) <==> Admitted(checks, schema, op)
  {
    hide FitsType, Suits;
    forall t, v
      ensures FitsType(checks, schema, t, v) <==> Suits(checks, schema, t, v)
    {
      SuitsExactly(checks, schema, t, v);
    }
    assert NewValue(op).Some? ==> Puts(op, NewValue(op).value);
    forall v | Puts(op, v)
      ensures NewValue(op) == Some(v)
    {
    }
  }

  /** A schema of one unrestricted type admits just the values of that type. */
  lemma {:induction false} TypeAdmits(checks: Checks, schema: Schema, t: string, op: Op)
    requires schema.bsonTypes == Some([t]) && Unrestricted(schema) && t in CHECKED_TYPES && t != "object"
    ensures Fits(checks, schema, op) <==> forall v :: Puts(op, v) ==> t in KindsOf(v)
  {
    FitsExactly(checks, schema, op);
    assert forall v :: Admits(checks, schema, v) <==> Suits(checks, schema, t, v);
    assert forall v :: Suits(checks, schema, t, v) <==> t in KindsOf(v);
  }

  // ----- the schema a path leads to

  /** An array's schema stands for the array itself and, after an index, for its items. */
  function Resolve(properties: Properties, path: seq<Step>): Option<Schema>
    decreases |path|
  {
    if path == [] || !path[0].Name? || properties.None? || path[0].name !in properties.value then None
    else
      var schema := properties.value[path[0].name];
      if |path| == 1 then Some(schema)
      else if schema.properties.Some? then Resolve(schema.properties, path[1..])
      else if schema.items.None? then None
      else if |path| == 2 then schema.items
      else Resolve(schema.items.value.properties, path[2..])
  }

  // ----- what the loop accepts

  /** The rest of the loop, from step `path[0]` with the properties it is at. */
  predicate Scan(checks: Checks, op: Op, properties: Properties, path: seq<Step>)
    decreases |path|
  {
    path == []
    || (&& path[0].Name? && properties.Some? && path[0].name in properties.value
        && var schema := properties.value[path[0].name];
           if |path| == 1 then Fits(checks, schema, op)
           else if schema.properties.Some? then Scan(checks, op, schema.properties, path[1..])
           else if schema.items.None? then
             // past a leaf the loop goes on with the properties the leaf is among
             Fits(checks, schema, op) && Scan(checks, op, properties, path[1..])
           else if |path| == 2 then Fits(checks, schema.items.value, op)
           else Scan(checks, op, schema.items.value.properties, path[2..]))
  }

  predicate Accepts(checks: Checks, properties: Properties, op: Op) {
    op.path.None? || Scan(checks, op, properties, op.path.value)
  }

  /** The leaf that a path goes on after, what the leaf is among, and the rest of the path. */
  function PastLeaf(properties: Properties, path: seq<Step>): Option<(Schema, Properties, seq<Step>)>
    decreases |path|
  {
    if |path| < 2 || !path[0].Name? || properties.None? || path[0].name !in properties.value then None
    else
      var schema := properties.value[path[0].name];
      if schema.properties.Some? then PastLeaf(schema.properties, path[1..])
      else if schema.items.None? then Some((schema, properties, path[1..]))
      else if |path| == 2 then None
      else PastLeaf(schema.items.value.properties, path[2..])
  }

  /**
   * A path that does not go past a leaf is accepted exactly when it leads to a schema that admits the value. One that
   * does leads nowhere, but is accepted when the leaf admits the value and the rest of the path is accepted among the
   * leaf's siblings.
   */
  lemma {:induction false} ScanMeaning(checks: Checks, properties: Properties, op: Op, path: seq<Step>)
    requires path != []
    ensures match PastLeaf(properties, path)
      case None =>
        var schema := Resolve(properties, path);
        Scan(checks, op, properties, path) <==> schema.Some? && Admitted(checks, schema.value, op)
      case Some((leaf, siblings, rest)) =>
        && Resolve(properties, path).None?
        && rest != []
        && (Scan(checks, op, properties, path) <==> Admitted(checks, leaf, op) && Scan(checks, op, siblings, rest))
    decreases |path|
  {
    hide Fits, Admitted;
    forall schema
      ensures Fits(checks, schema, op) <==> Admitted(checks, schema, op)
    {
      FitsExactly(checks, schema, op);
    }
    if |path| > 1 && path[0].Name? && properties.Some? && path[0].name in properties.value {
      var schema := properties.value[path[0].name];
      if schema.properties.Some? {
        ScanMeaning(checks, schema.properties, op, path[1..]);
      } else if schema.items.Some? && |path| > 2 {
        ScanMeaning(checks, schema.items.value.properties, op, path[2..]);
      }
    }
  }

  // ----- paths in parts

  /** The leaf that a path leads to by its name, and the properties it is among. */
  function LeafAt(properties: Properties, path: seq<Step>): Option<(Schema, Properties)>
    decreases |path|
  {
    if path == [] || !path[0].Name? || properties.None? || path[0].name !in properties.value then None
    else
      var schema := properties.value[path[0].name];
      if |path| == 1 then
        if schema.properties.None? && schema.items.None? then Some((schema, properties)) else None
      else if schema.properties.Some? then LeafAt(schema.properties, path[1..])
      else if schema.items.None? || |path| == 2 then None
      else LeafAt(schema.items.value.properties, path[2..])
  }

  /** Each part but the last leads to a leaf, among whose siblings the next starts; each target admits the value. */
  ghost predicate Chain(checks: Checks, op: Op, properties: Properties, parts: seq<seq<Step>>)
    decreases |parts|
  {
    parts != []
    && if |parts| == 1 then
         var schema := Resolve(properties, parts[0]);
         schema.Some? && Admitted(checks, schema.value, op)
       else
         var leaf := LeafAt(properties, parts[0]);
         leaf.Some? && Admitted(checks, leaf.value.0, op) && Chain(checks, op, leaf.value.1, parts[1..])
  }

  function Joined(parts: seq<seq<Step>>): seq<Step> {
    if parts == [] then [] else parts[0] + Joined(parts[1..])
  }

  /** The first part of a path that goes past a leaf. */
  lemma {:induction false} PastLeafCut(properties: Properties, path: seq<Step>)
    requires PastLeaf(properties, path).Some?
    ensures var (leaf, siblings, rest) := PastLeaf(properties, path).value;
      && 0 < |rest| < |path|
      && path == path[..|path| - |rest|] + rest
      && LeafAt(properties, path[..|path| - |rest|]) == Some((leaf, siblings))
    decreases |path|
  {
    var schema := properties.value[path[0].name];
    var rest := PastLeaf(properties, path).value.2;
    if schema.properties.Some? {
      PastLeafCut(schema.properties, path[1..]);
      CutLater(path, |rest|, 1);
    } else if schema.items.Some? {
      PastLeafCut(schema.items.value.properties, path[2..]);
      CutLater(path, |rest|, 2);
    } else {
      assert path[..|path| - |rest|] == [path[0]];
    }
  }

  lemma CutLater<T>(path: seq<T>, n: nat, k: nat)
    requires 0 < k && k + n < |path|
    ensures var cut := path[..|path| - n];
      && |cut| > k && cut[0] == path[0]
      && cut[k..] == path[k..][..|path[k..]| - n]
      && cut + path[k..][|path[k..]| - n..] == path
  {
  }

  /** A path that goes on after a leaf. */
  lemma {:induction false} LeafPassed(properties: Properties, part: seq<Step>, rest: seq<Step>)
    requires LeafAt(properties, part).Some? && rest != []
    ensures part != []
    ensures PastLeaf(properties, part + rest)
      == Some((LeafAt(properties, part).value.0, LeafAt(properties, part).value.1, rest))
    decreases |part|
  {
    var path, schema := part + rest, properties.value[part[0].name];
    assert path[0] == part[0];
    if |part| == 1 {
      assert path[1..] == rest;
    } else if schema.properties.Some? {
      assert path[1..] == part[1..] + rest;
      LeafPassed(schema.properties, part[1..], rest);
    } else {
      assert path[2..] == part[2..] + rest;
      LeafPassed(schema.items.value.properties, part[2..], rest);
    }
  }

  lemma {:induction false} PartsOf(checks: Checks, op: Op, properties: Properties, path: seq<Step>)
      returns (parts: seq<seq<Step>>)
    requires path != [] && Scan(checks, op, properties, path)
    ensures Joined(parts) == path && Chain(checks, op, properties, parts)
    decreases |path|
  {
    hide Admitted, Scan, Resolve, PastLeaf, LeafAt;
    ScanMeaning(checks, properties, op, path);
    var past := PastLeaf(properties, path);
    if past.None? {
      parts := [path];
      assert parts[1..] == [] && path + [] == path;
    } else {
      PastLeafCut(properties, path);
      var (leaf, siblings, rest) := past.value;
      var later := PartsOf(checks, op, siblings, rest);
      parts := [path[..|path| - |rest|]] + later;
      assert parts[1..] == later;
    }
  }

  lemma {:induction false} PartsAccepted(checks: Checks, op: Op, properties: Properties, parts: seq<seq<Step>>)
    requires Chain(checks, op, properties, parts)
    ensures Joined(parts) != [] && Scan(checks, op, properties, Joined(parts))
    decreases |parts|
  {
    hide Admitted, Scan, PastLeaf, LeafAt;
    if |parts| == 1 {
      assert parts[1..] == [] && parts[0] + [] == parts[0];
    } else {
      var leaf := LeafAt(properties, parts[0]).value;
      PartsAccepted(checks, op, leaf.1, parts[1..]);
      LeafPassed(properties, parts[0], Joined(parts[1..]));
    }
    ScanMeaning(checks, properties, op, Joined(parts));
  }

  /**
   * A path is accepted exactly if it is empty or made of parts each of which starts among the siblings of the leaf that
   * the part before it leads to, and what each of them leads to admits the value.
   */
  lemma {:induction false} AcceptedInParts(checks: Checks, properties: Properties, op: Op, path: seq<Step>)
    ensures Scan(checks, op, properties, path)
      <==> path == [] || exists parts :: Joined(parts) == path && Chain(checks, op, properties, parts)
  {
    hide Scan, Chain, Joined;
    if path != [] && Scan(checks, op, properties, path) {
      var parts := PartsOf(checks, op, properties, path);
    }
    if parts :| Joined(parts) == path && Chain(checks, op, properties, parts) {
      PartsAccepted(checks, op, properties, parts);
    }
    NothingScanned(checks, op, properties);
  }

  lemma NothingScanned(checks: Checks, op: Op, properties: Properties)
    ensures Scan(checks, op, properties, [])
  {
  }

  /** A path that leads nowhere can be accepted: a deletion below one leaf, named like another. */
  lemma {:induction false} PathPastLeafAccepted(checks: Checks)
    ensures var text := Schema(Some(["string"]), None, None, None, None);
      var properties := Some(map["title" := text, "notes" := text]);
      var path := [Name("title"), Name("notes")];
      Resolve(properties, path).None? && Scan(checks, Op(Some(path), None, None, None), properties, path)
  {
    var text := Schema(Some(["string"]), None, None, None, None);
    var properties := Some(map["title" := text, "notes" := text]);
    var path := [Name("title"), Name("notes")];
    var op := Op(Some(path), None, None, None);
    assert path[1..] == [Name("notes")];
    assert Scan(checks, op, properties, path[1..]);
  }

  // ----- the loops

  /** Tries the types until one fits. */
  method CheckType(checks: Checks, schema: Schema, v: Json) returns (valid: bool)
    ensures valid <==> FitsSome(checks, schema, v)
  {
    if schema.bsonTypes.None? { return true; }
    var bsonTypes := schema.bsonTypes.value;
    valid := false;
    for i := 0 to |bsonTypes|
      invariant !valid && forall j :: 0 <= j < i ==> !FitsType(checks, schema, bsonTypes[j], v)
    {
      var bsonType := bsonTypes[i];
      if bsonType in {"number", "int", "double", "long", "decimal"} {
        valid := v.Number?;
      } else if bsonType == "bool" {
        valid := v.Bool?;
      } else if bsonType == "null" {
        valid := v.Null?;
      } else if bsonType == "string" {
        valid := v.String?;
        if schema.pattern.Some? { valid := checks.matches(schema.pattern.value, v); }
        if schema.enumeration.Some? { valid := v in schema.enumeration.value; }
      } else if bsonType == "object" {
        valid := checks.conforms(schema, v);
      } else {
        valid := true;
      }
      assert valid <==> FitsType(checks, schema, bsonTypes[i], v);
      if valid { break; }
    }
  }

  /** Follows the path; `i` also moves on inside the body, past the index into an array. */
  method ValidateOp(checks: Checks, schema: Schema, op: Op) returns (ok: bool)
    ensures ok <==> Accepts(checks, schema.properties, op)
    ensures op.path.Some? && op.path.value != [] && PastLeaf(schema.properties, op.path.value).None? ==>
      (ok <==> var target := Resolve(schema.properties, op.path.value);
               target.Some? && Admitted(checks, target.value, op))
  {
    hide FitsType, Admitted, PastLeaf, Resolve;
    if op.path.None? { return true; }
    var path := op.path.value;
    if path != [] { ScanMeaning(checks, schema.properties, op, path); }
    var properties := schema.properties;
    var i := 0;
    while i < |path|
      invariant Scan(checks, op, schema.properties, path) <==> i >= |path| || Scan(checks, op, properties, path[i..])
      decreases |path| - i
    {
      ghost var rest := path[i..];
      if !path[i].Name? || properties.None? { return false; }
      var name := path[i].name;
      if name !in properties.value { return false; }
      var found := properties.value[name];
      var target := found;
      if found.properties.Some? {
        if i < |path| - 1 {
          properties := found.properties;
          i := i + 1;
          assert rest[1..] == path[i..];
          continue;
        }
      } else if found.items.Some? {
        i := i + 1;
        if i < |path| - 1 {
          properties := found.items.value.properties;
          i := i + 1;
          assert rest[2..] == path[i..];
          continue;
        } else if i == |path| {
          target := found;
        } else {
          target := found.items.value;
        }
      }
      var newValue := NewValue(op);
      if newValue.Some? {
        var valid := CheckType(checks, target, newValue.value);
        if !valid { return false; }
      }
      i := i + 1;
      if i < |path| { assert rest[1..] == path[i..]; }
    }
    ok := true;
  }

  /** All ops or none. */
  method ValidateOps(checks: Checks, schema: Schema, ops: seq<Op>) returns (ok: bool)
    ensures ok <==> forall k :: 0 <= k < |ops| ==> Accepts(checks, schema.properties, ops[k])
  {
    for k := 0 to |ops|
      invariant forall j :: 0 <= j < k ==> Accepts(checks, schema.properties, ops[j])
    {
      var valid := ValidateOp(checks, schema, ops[k]);
      if !valid { return false; }
    }
    ok := true;
  }
}
