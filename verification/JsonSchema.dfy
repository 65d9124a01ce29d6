/**
  JSON values, the JSON Schema fragment that the projection of an OpenAPI document produces,
  and what it means for a compiled schema document to accept a value.

  A `$ref` is modelled by the name X of "#/$defs/X". It is resolved against the `$defs` of the
  root of the compiled document, never against the `$defs` of the schema it textually sits in
  (JSON Schema 2020-12 Core, sections 8.2.3.1 and 8.2.4).
 */
module JsonSchema {
  import opened Prelude

  datatype Json =
    | Null
    | Bool(b: bool)
    | Number(n: int)
    | Str(s: string)
    | Arr(items: seq<Json>)
    | Obj(fields: map<string, Json>)

  datatype JsonType = NullType | BooleanType | NumberType | StringType | ArrayType | ObjectType

  datatype Additional = Open | Closed | Constrained(schema: Schema)

  /** One schema object; an absent list keyword is the empty list. `assertions` holds the keywords
      without schemas inside (`pattern`, `maxLength`, `enum`, `uniqueItems`, ...) as opaque text; `names`
      is `propertyNames` and `prefix` is `prefixItems`. */
  datatype Schema = Schema(
    defs: Definitions,
    ref: Option<string>,
    types: seq<JsonType>,
    assertions: seq<string>,
    properties: map<string, Schema>,
    required: seq<string>,
    additional: Additional,
    names: Option<Schema>,
    prefix: seq<Schema>,
    items: Option<Schema>,
    branches: seq<Branch>)

  /** The `$defs` keyword: absent, or a table of named schemas. */
  datatype Definitions = NoDefs | Definitions(named: map<string, Schema>)

  datatype Mode = AllOf | AnyOf | OneOf

  /** One of the keywords `allOf`, `anyOf`, `oneOf` with its list of schemas. */
  datatype Branch = Branch(mode: Mode, schemas: seq<Schema>)

  const ANYTHING: Schema := Schema(NoDefs, None, [], [], map[], [], Open, None, [], None, [])

  /** What an opaque assertion keyword says of a value. */
  type Oracle = (string, Json) -> bool

  function TypeOf(v: Json): JsonType {
    match v
    case Null => NullType
    case Bool(_) => BooleanType
    case Number(_) => NumberType
    case Str(_) => StringType
    case Arr(_) => ArrayType
    case Obj(_) => ObjectType
  }

  type Defs = map<string, Schema>

  /** The definitions a document makes resolvable: those at its own root. */
  function DefsOf(root: Schema): Defs {
    match root.defs
    case NoDefs => map[]
    case Definitions(m) => m
  }

  predicate Combined(mode: Mode, outcomes: seq<bool>) {
    match mode
    case AllOf => forall i | 0 <= i < |outcomes| :: outcomes[i]
    case AnyOf => exists i | 0 <= i < |outcomes| :: outcomes[i]
    case OneOf => exists i | 0 <= i < |outcomes| :: outcomes[i] && forall j | 0 <= j < |outcomes| && j != i ::
      !outcomes[j]
  }

  /** The schema that applies to the member with this name, if any. */
  function MemberSchema(s: Schema, k: string): (r: Option<Schema>)
    ensures r.Some? ==> r.value < s
  {
    if k in s.properties then Some(s.properties[k])
    else match s.additional
      case Constrained(schema) => Some(schema)
      case _ => None
  }

  /** The schema that applies to the item at this position, if any: `items` begins behind the prefix. */
  function ItemSchema(s: Schema, i: nat): (r: Option<Schema>)
    ensures r.Some? ==> r.value < s
  {
    if i < |s.prefix| then Some(s.prefix[i]) else s.items
  }

  /** Does `s` accept `v` in a document whose root has the definitions `defs`? A `$ref` costs one
      unit of fuel, so that recursive documents can be evaluated; running out of fuel rejects. */
  ghost predicate Accepts(sat: Oracle, defs: Defs, s: Schema, v: Json, fuel: nat)
    decreases fuel, s, 1
  {
    && (s.ref.Some? ==>
          && fuel > 0
          && s.ref.value in defs
          && Accepts(sat, defs, defs[s.ref.value], v, fuel - 1))
    && (s.types == [] || TypeOf(v) in s.types)
    && (forall i | 0 <= i < |s.assertions| :: sat(s.assertions[i], v))
    && (v.Obj? ==> AcceptsMembers(sat, defs, s, v.fields, fuel))
    && (v.Arr? ==> AcceptsItems(sat, defs, s, v.items, fuel))
    && AcceptsBranches(sat, defs, s, v, fuel)
  }

  /** `required`, `properties`, `additionalProperties` and `propertyNames`. */
  ghost predicate AcceptsMembers(sat: Oracle, defs: Defs, s: Schema, fields: map<string, Json>, fuel: nat)
    decreases fuel, s, 0
  {
    && (forall i | 0 <= i < |s.required| :: s.required[i] in fields)
    && (s.additional.Closed? ==> fields.Keys <= s.properties.Keys)
    && forall k | k in fields ::
         && (MemberSchema(s, k).Some? ==> Accepts(sat, defs, MemberSchema(s, k).value, fields[k], fuel))
         && (s.names.Some? ==> Accepts(sat, defs, s.names.value, Str(k), fuel))
  }

  /** `prefixItems` and `items`. */
  ghost predicate AcceptsItems(sat: Oracle, defs: Defs, s: Schema, items: seq<Json>, fuel: nat)
    decreases fuel, s, 0
  {
    forall i | 0 <= i < |items| && ItemSchema(s, i).Some? :: Accepts(sat, defs, ItemSchema(s, i).value, items[i], fuel)
  }

  /** `allOf`, `anyOf` and `oneOf`. */
  ghost predicate AcceptsBranches(sat: Oracle, defs: Defs, s: Schema, v: Json, fuel: nat)
    decreases fuel, s, 0
  {
    forall i | 0 <= i < |s.branches| :: Combined(s.branches[i].mode, Outcomes(sat, defs, s.branches[i], v, fuel))
  }

  /** The verdicts of a branch keyword's schemas, which look at the same value again. */
  ghost function Outcomes(sat: Oracle, defs: Defs, b: Branch, v: Json, fuel: nat): seq<bool>
    decreases fuel, b, 0
  {
    seq(|b.schemas|, i requires 0 <= i < |b.schemas| => Accepts(sat, defs, b.schemas[i], v, fuel))
  }

  /** No part of the evaluation of `s` on `v` runs out of fuel. */
  ghost predicate Settled(defs: Defs, s: Schema, v: Json, fuel: nat)
    decreases fuel, s, 1
  {
    && (s.ref.Some? && s.ref.value in defs ==>
          fuel > 0 && Settled(defs, defs[s.ref.value], v, fuel - 1))
    && (v.Obj? ==> SettledMembers(defs, s, v.fields, fuel))
    && (v.Arr? ==> SettledItems(defs, s, v.items, fuel))
    && SettledBranches(defs, s, v, fuel)
  }

  ghost predicate SettledMembers(defs: Defs, s: Schema, fields: map<string, Json>, fuel: nat)
    decreases fuel, s, 0
  {
    forall k | k in fields ::
      && (MemberSchema(s, k).Some? ==> Settled(defs, MemberSchema(s, k).value, fields[k], fuel))
      && (s.names.Some? ==> Settled(defs, s.names.value, Str(k), fuel))
  }

  ghost predicate SettledItems(defs: Defs, s: Schema, items: seq<Json>, fuel: nat)
    decreases fuel, s, 0
  {
    forall i | 0 <= i < |items| && ItemSchema(s, i).Some? :: Settled(defs, ItemSchema(s, i).value, items[i], fuel)
  }

  ghost predicate SettledBranches(defs: Defs, s: Schema, v: Json, fuel: nat)
    decreases fuel, s, 0
  {
    forall i | 0 <= i < |s.branches| :: SettledBranch(defs, s.branches[i], v, fuel)
  }

  ghost predicate SettledBranch(defs: Defs, b: Branch, v: Json, fuel: nat)
    decreases fuel, b, 0
  {
    forall i | 0 <= i < |b.schemas| :: Settled(defs, b.schemas[i], v, fuel)
  }

  /** A settled verdict does not change when more fuel is given. */
  lemma {:induction false} MoreFuel(sat: Oracle, defs: Defs, s: Schema, v: Json, n: nat, m: nat)
    requires n <= m && Settled(defs, s, v, n)
    ensures Settled(defs, s, v, m)
    ensures Accepts(sat, defs, s, v, m) == Accepts(sat, defs, s, v, n)
    decreases n, s, 1
  {
    if s.ref.Some? && s.ref.value in defs {
      MoreFuel(sat, defs, defs[s.ref.value], v, n - 1, m - 1);
    }
    if v.Obj? {
      MoreFuelMembers(sat, defs, s, v.fields, n, m);
    }
    if v.Arr? {
      MoreFuelItems(sat, defs, s, v.items, n, m);
    }
    MoreFuelBranches(sat, defs, s, v, n, m);
  }

  lemma {:induction false} MoreFuelBranches(sat: Oracle, defs: Defs, s: Schema, v: Json, n: nat, m: nat)
    requires n <= m && SettledBranches(defs, s, v, n)
    ensures SettledBranches(defs, s, v, m)
    ensures AcceptsBranches(sat, defs, s, v, m) == AcceptsBranches(sat, defs, s, v, n)
    decreases n, s, 0
  {
    forall i | 0 <= i < |s.branches|
      ensures SettledBranch(defs, s.branches[i], v, m)
      ensures Outcomes(sat, defs, s.branches[i], v, m) == Outcomes(sat, defs, s.branches[i], v, n)
    {
      MoreFuelBranch(sat, defs, s.branches[i], v, n, m);
    }
  }

  lemma {:induction false} MoreFuelMembers(
    sat: Oracle, defs: Defs, s: Schema, fields: map<string, Json>, n: nat, m: nat)
    requires n <= m && SettledMembers(defs, s, fields, n)
    ensures SettledMembers(defs, s, fields, m)
    ensures AcceptsMembers(sat, defs, s, fields, m) == AcceptsMembers(sat, defs, s, fields, n)
    decreases n, s, 0
  {
    forall k | k in fields && MemberSchema(s, k).Some?
      ensures Settled(defs, MemberSchema(s, k).value, fields[k], m)
      ensures Accepts(sat, defs, MemberSchema(s, k).value, fields[k], m) ==
        Accepts(sat, defs, MemberSchema(s, k).value, fields[k], n)
    {
      MoreFuel(sat, defs, MemberSchema(s, k).value, fields[k], n, m);
    }
    forall k | k in fields && s.names.Some?
      ensures Settled(defs, s.names.value, Str(k), m)
      ensures Accepts(sat, defs, s.names.value, Str(k), m) == Accepts(sat, defs, s.names.value, Str(k), n)
    {
      MoreFuel(sat, defs, s.names.value, Str(k), n, m);
    }
  }

  lemma {:induction false} MoreFuelItems(sat: Oracle, defs: Defs, s: Schema, items: seq<Json>, n: nat, m: nat)
    requires n <= m && SettledItems(defs, s, items, n)
    ensures SettledItems(defs, s, items, m)
    ensures AcceptsItems(sat, defs, s, items, m) == AcceptsItems(sat, defs, s, items, n)
    decreases n, s, 0
  {
    forall i | 0 <= i < |items| && ItemSchema(s, i).Some?
      ensures Settled(defs, ItemSchema(s, i).value, items[i], m)
      ensures Accepts(sat, defs, ItemSchema(s, i).value, items[i], m) ==
        Accepts(sat, defs, ItemSchema(s, i).value, items[i], n)
    {
      MoreFuel(sat, defs, ItemSchema(s, i).value, items[i], n, m);
    }
  }

  lemma {:induction false} MoreFuelBranch(sat: Oracle, defs: Defs, b: Branch, v: Json, n: nat, m: nat)
    requires n <= m && SettledBranch(defs, b, v, n)
    ensures SettledBranch(defs, b, v, m)
    ensures Outcomes(sat, defs, b, v, m) == Outcomes(sat, defs, b, v, n)
    decreases n, b, 0
  {
    forall i | 0 <= i < |b.schemas|
      ensures Settled(defs, b.schemas[i], v, m)
      ensures Accepts(sat, defs, b.schemas[i], v, m) == Accepts(sat, defs, b.schemas[i], v, n)
    {
      MoreFuel(sat, defs, b.schemas[i], v, n, m);
    }
  }

  /** `fuel` suffices to decide `v` by `s`, its references resolved in `defs`, and `s` accepts. */
  ghost predicate AcceptedUnder(sat: Oracle, defs: Defs, s: Schema, v: Json, fuel: nat) {
    Settled(defs, s, v, fuel) && Accepts(sat, defs, s, v, fuel)
  }

  /** `s`, its references resolved in `defs`, has a verdict on `v`, and it is to accept. */
  ghost predicate ValidUnder(sat: Oracle, defs: Defs, s: Schema, v: Json) {
    exists fuel: nat :: AcceptedUnder(sat, defs, s, v, fuel)
  }

  /** `fuel` suffices for the document `root` to decide `v`, and it accepts. */
  ghost predicate AcceptedWith(sat: Oracle, root: Schema, v: Json, fuel: nat) {
    AcceptedUnder(sat, DefsOf(root), root, v, fuel)
  }

  ghost predicate RejectedWith(sat: Oracle, root: Schema, v: Json, fuel: nat) {
    Settled(DefsOf(root), root, v, fuel) && !Accepts(sat, DefsOf(root), root, v, fuel)
  }

  /** The document `root` has a verdict on `v`, and it is to accept. */
  ghost predicate Valid(sat: Oracle, root: Schema, v: Json) {
    exists fuel: nat :: AcceptedWith(sat, root, v, fuel)
  }

  /** The document `root` has a verdict on `v`, and it is to reject. */
  ghost predicate Invalid(sat: Oracle, root: Schema, v: Json) {
    exists fuel: nat :: RejectedWith(sat, root, v, fuel)
  }

  lemma AcceptedUnderMore(sat: Oracle, defs: Defs, s: Schema, v: Json, n: nat, m: nat)
    requires AcceptedUnder(sat, defs, s, v, n) && n <= m
    ensures AcceptedUnder(sat, defs, s, v, m)
  {
    MoreFuel(sat, defs, s, v, n, m);
  }

  lemma VerdictIsUnique(sat: Oracle, root: Schema, v: Json)
    ensures !(Valid(sat, root, v) && Invalid(sat, root, v))
  {
    if Valid(sat, root, v) && Invalid(sat, root, v) {
      var n: nat :| AcceptedWith(sat, root, v, n);
      var m: nat :| RejectedWith(sat, root, v, m);
      if n <= m {
        MoreFuel(sat, DefsOf(root), root, v, n, m);
      } else {
        MoreFuel(sat, DefsOf(root), root, v, m, n);
      }
    }
  }

  // ------------------------------------------------------------------ compilation

  /** Every `$ref` of `s` outside its `$defs` names a member of `c`. */
  ghost predicate RefsWithin(s: Schema, c: set<string>) {
    && (s.ref.Some? ==> s.ref.value in c)
    && (forall k | k in s.properties :: RefsWithin(s.properties[k], c))
    && (s.additional.Constrained? ==> RefsWithin(s.additional.schema, c))
    && (s.names.Some? ==> RefsWithin(s.names.value, c))
    && (forall i | 0 <= i < |s.prefix| :: RefsWithin(s.prefix[i], c))
    && (s.items.Some? ==> RefsWithin(s.items.value, c))
    && forall i | 0 <= i < |s.branches| :: BranchRefsWithin(s.branches[i], c)
  }

  ghost predicate BranchRefsWithin(b: Branch, c: set<string>) {
    forall j | 0 <= j < |b.schemas| :: RefsWithin(b.schemas[j], c)
  }

  ghost predicate RefFree(s: Schema) {
    RefsWithin(s, {})
  }

  /** `c` holds the references of `s` and is closed under the definitions it names. */
  ghost predicate Resolved(defs: Defs, s: Schema, c: set<string>) {
    && c <= defs.Keys
    && RefsWithin(s, c)
    && forall x | x in c :: RefsWithin(defs[x], c)
  }

  /** The meta-schema's view of one document: `required` and `type` list nothing twice (JSON Schema
      Validation, sections 6.5.3 and 6.1.1), a branch keyword lists some schema (JSON Schema Core, section
      10.2.1), and every assertion keyword is well formed. */
  ghost predicate WellFormed(ok: string -> bool, s: Schema) {
    && Distinct(s.required) && Distinct(s.types)
    && (forall i | 0 <= i < |s.assertions| :: ok(s.assertions[i]))
    && (s.defs.Definitions? ==> forall k | k in s.defs.named :: WellFormed(ok, s.defs.named[k]))
    && (forall k | k in s.properties :: WellFormed(ok, s.properties[k]))
    && (s.additional.Constrained? ==> WellFormed(ok, s.additional.schema))
    && (s.names.Some? ==> WellFormed(ok, s.names.value))
    && (forall i | 0 <= i < |s.prefix| :: WellFormed(ok, s.prefix[i]))
    && (s.items.Some? ==> WellFormed(ok, s.items.value))
    && (forall i | 0 <= i < |s.branches| :: s.branches[i].schemas != [])
    && forall i, j | 0 <= i < |s.branches| && 0 <= j < |s.branches[i].schemas| ::
       WellFormed(ok, s.branches[i].schemas[j])
  }

  /** The document compiles: it is well formed and every reachable reference resolves at its root. */
  ghost predicate Compiles(ok: string -> bool, root: Schema) {
    && WellFormed(ok, root)
    && exists c: set<string> :: Resolved(DefsOf(root), root, c)
  }

  lemma {:induction false} RefsWithinMore(s: Schema, c: set<string>, d: set<string>)
    requires RefsWithin(s, c) && c <= d
    ensures RefsWithin(s, d)
  {
    forall k | k in s.properties ensures RefsWithin(s.properties[k], d) { RefsWithinMore(s.properties[k], c, d); }
    if s.additional.Constrained? { RefsWithinMore(s.additional.schema, c, d); }
    if s.names.Some? { RefsWithinMore(s.names.value, c, d); }
    forall i | 0 <= i < |s.prefix| ensures RefsWithin(s.prefix[i], d) { RefsWithinMore(s.prefix[i], c, d); }
    if s.items.Some? { RefsWithinMore(s.items.value, c, d); }
    forall i | 0 <= i < |s.branches| ensures BranchRefsWithin(s.branches[i], d) {
      var b := s.branches[i];
      forall j | 0 <= j < |b.schemas| ensures RefsWithin(b.schemas[j], d) { RefsWithinMore(b.schemas[j], c, d); }
    }
  }

  lemma {:induction false} RefsWithinBoth(s: Schema, c: set<string>, d: set<string>)
    requires RefsWithin(s, c) && RefsWithin(s, d)
    ensures RefsWithin(s, c * d)
  {
    forall k | k in s.properties ensures RefsWithin(s.properties[k], c * d) { RefsWithinBoth(s.properties[k], c, d); }
    if s.additional.Constrained? { RefsWithinBoth(s.additional.schema, c, d); }
    if s.names.Some? { RefsWithinBoth(s.names.value, c, d); }
    forall i | 0 <= i < |s.prefix| ensures RefsWithin(s.prefix[i], c * d) { RefsWithinBoth(s.prefix[i], c, d); }
    if s.items.Some? { RefsWithinBoth(s.items.value, c, d); }
    forall i | 0 <= i < |s.branches| ensures BranchRefsWithin(s.branches[i], c * d) {
      var b := s.branches[i];
      forall j | 0 <= j < |b.schemas| ensures RefsWithin(b.schemas[j], c * d) { RefsWithinBoth(b.schemas[j], c, d); }
    }
  }

  // ------------------------------------------------------------------ locality

  ghost predicate AgreeOn(d: Defs, e: Defs, c: set<string>) {
    && c <= d.Keys && c <= e.Keys
    && forall x | x in c :: d[x] == e[x] && RefsWithin(d[x], c)
  }

  /** What `s` refers to has the same verdict in both. */
  ghost predicate SameReferred(sat: Oracle, d: Defs, e: Defs, s: Schema, v: Json, fuel: nat) {
    && (s.ref.Some? ==> s.ref.value in d && s.ref.value in e)
    && (s.ref.Some? && fuel > 0 ==>
         && Accepts(sat, d, d[s.ref.value], v, fuel - 1) == Accepts(sat, e, e[s.ref.value], v, fuel - 1)
         && Settled(d, d[s.ref.value], v, fuel - 1) == Settled(e, e[s.ref.value], v, fuel - 1))
  }

  /** So have the schemas inside `s`. */
  ghost predicate SameInside(sat: Oracle, d: Defs, e: Defs, s: Schema, v: Json, fuel: nat) {
    && (v.Obj? ==>
         && AcceptsMembers(sat, d, s, v.fields, fuel) == AcceptsMembers(sat, e, s, v.fields, fuel)
         && SettledMembers(d, s, v.fields, fuel) == SettledMembers(e, s, v.fields, fuel))
    && (v.Arr? ==>
         && AcceptsItems(sat, d, s, v.items, fuel) == AcceptsItems(sat, e, s, v.items, fuel)
         && SettledItems(d, s, v.items, fuel) == SettledItems(e, s, v.items, fuel))
    && AcceptsBranches(sat, d, s, v, fuel) == AcceptsBranches(sat, e, s, v, fuel)
    && SettledBranches(d, s, v, fuel) == SettledBranches(e, s, v, fuel)
  }

  lemma SamePartsSameVerdict(sat: Oracle, d: Defs, e: Defs, s: Schema, v: Json, fuel: nat)
    requires SameReferred(sat, d, e, s, v, fuel) && SameInside(sat, d, e, s, v, fuel)
    ensures Accepts(sat, d, s, v, fuel) == Accepts(sat, e, s, v, fuel)
    ensures Settled(d, s, v, fuel) == Settled(e, s, v, fuel)
  {
  }

  lemma ReferenceAgrees(d: Defs, e: Defs, c: set<string>, s: Schema)
    requires AgreeOn(d, e, c) && RefsWithin(s, c) && s.ref.Some?
    ensures s.ref.value in d && s.ref.value in e && d[s.ref.value] == e[s.ref.value] && RefsWithin(d[s.ref.value], c)
  {
  }

  lemma BranchesReferWithin(s: Schema, c: set<string>)
    requires RefsWithin(s, c)
    ensures forall i | 0 <= i < |s.branches| :: BranchRefsWithin(s.branches[i], c)
  {
  }

  /** Only the definitions that can be reached matter: two documents that agree on a closed set of
      names holding the references of `s` evaluate `s` alike, with any fuel. */
  lemma {:induction false} OnlyReachableDefs(
    sat: Oracle, d: Defs, e: Defs, c: set<string>, s: Schema, v: Json, fuel: nat)
    requires AgreeOn(d, e, c) && RefsWithin(s, c)
    ensures Accepts(sat, d, s, v, fuel) == Accepts(sat, e, s, v, fuel)
    ensures Settled(d, s, v, fuel) == Settled(e, s, v, fuel)
    decreases fuel, s, 2
  {
    OnlyReachableDefsReferred(sat, d, e, c, s, v, fuel);
    OnlyReachableDefsInside(sat, d, e, c, s, v, fuel);
    SamePartsSameVerdict(sat, d, e, s, v, fuel);
  }

  lemma {:induction false} OnlyReachableDefsReferred(
    sat: Oracle, d: Defs, e: Defs, c: set<string>, s: Schema, v: Json, fuel: nat)
    requires AgreeOn(d, e, c) && RefsWithin(s, c)
    ensures SameReferred(sat, d, e, s, v, fuel)
    decreases fuel, s, 1
  {
    if s.ref.Some? {
      ReferenceAgrees(d, e, c, s);
      if fuel > 0 {
        OnlyReachableDefs(sat, d, e, c, d[s.ref.value], v, fuel - 1);
      }
    }
  }

  lemma {:induction false} OnlyReachableDefsInside(
    sat: Oracle, d: Defs, e: Defs, c: set<string>, s: Schema, v: Json, fuel: nat)
    requires AgreeOn(d, e, c) && RefsWithin(s, c)
    ensures SameInside(sat, d, e, s, v, fuel)
    decreases fuel, s, 1
  {
    if v.Obj? {
      OnlyReachableDefsMembers(sat, d, e, c, s, v.fields, fuel);
    }
    if v.Arr? {
      OnlyReachableDefsItems(sat, d, e, c, s, v.items, fuel);
    }
    BranchesReferWithin(s, c);
    OnlyReachableDefsBranches(sat, d, e, c, s, v, fuel);
  }

  lemma SameBranchesSameVerdict(sat: Oracle, d: Defs, e: Defs, s: Schema, v: Json, fuel: nat)
    requires forall i | 0 <= i < |s.branches| ::
      Outcomes(sat, d, s.branches[i], v, fuel) == Outcomes(sat, e, s.branches[i], v, fuel)
    requires forall i | 0 <= i < |s.branches| ::
      SettledBranch(d, s.branches[i], v, fuel) == SettledBranch(e, s.branches[i], v, fuel)
    ensures AcceptsBranches(sat, d, s, v, fuel) == AcceptsBranches(sat, e, s, v, fuel)
    ensures SettledBranches(d, s, v, fuel) == SettledBranches(e, s, v, fuel)
  {
  }

  lemma {:induction false} OnlyReachableDefsBranches(
    sat: Oracle, d: Defs, e: Defs, c: set<string>, s: Schema, v: Json, fuel: nat)
    requires AgreeOn(d, e, c) && forall i | 0 <= i < |s.branches| :: BranchRefsWithin(s.branches[i], c)
    ensures AcceptsBranches(sat, d, s, v, fuel) == AcceptsBranches(sat, e, s, v, fuel)
    ensures SettledBranches(d, s, v, fuel) == SettledBranches(e, s, v, fuel)
    decreases fuel, s, 0
  {
    forall i | 0 <= i < |s.branches|
      ensures Outcomes(sat, d, s.branches[i], v, fuel) == Outcomes(sat, e, s.branches[i], v, fuel)
      ensures SettledBranch(d, s.branches[i], v, fuel) == SettledBranch(e, s.branches[i], v, fuel)
    {
      OnlyReachableDefsBranch(sat, d, e, c, s.branches[i], v, fuel);
    }
    SameBranchesSameVerdict(sat, d, e, s, v, fuel);
  }

  lemma {:induction false} OnlyReachableDefsMembers(
    sat: Oracle, d: Defs, e: Defs, c: set<string>, s: Schema, fields: map<string, Json>, fuel: nat)
    requires AgreeOn(d, e, c) && RefsWithin(s, c)
    ensures AcceptsMembers(sat, d, s, fields, fuel) == AcceptsMembers(sat, e, s, fields, fuel)
    ensures SettledMembers(d, s, fields, fuel) == SettledMembers(e, s, fields, fuel)
    decreases fuel, s, 0
  {
    forall k | k in fields && MemberSchema(s, k).Some?
      ensures Accepts(sat, d, MemberSchema(s, k).value, fields[k], fuel) ==
        Accepts(sat, e, MemberSchema(s, k).value, fields[k], fuel)
      ensures Settled(d, MemberSchema(s, k).value, fields[k], fuel) ==
        Settled(e, MemberSchema(s, k).value, fields[k], fuel)
    {
      OnlyReachableDefs(sat, d, e, c, MemberSchema(s, k).value, fields[k], fuel);
    }
    forall k | k in fields && s.names.Some?
      ensures Accepts(sat, d, s.names.value, Str(k), fuel) == Accepts(sat, e, s.names.value, Str(k), fuel)
      ensures Settled(d, s.names.value, Str(k), fuel) == Settled(e, s.names.value, Str(k), fuel)
    {
      OnlyReachableDefs(sat, d, e, c, s.names.value, Str(k), fuel);
    }
  }

  lemma {:induction false} OnlyReachableDefsItems(
    sat: Oracle, d: Defs, e: Defs, c: set<string>, s: Schema, items: seq<Json>, fuel: nat)
    requires AgreeOn(d, e, c) && RefsWithin(s, c)
    ensures AcceptsItems(sat, d, s, items, fuel) == AcceptsItems(sat, e, s, items, fuel)
    ensures SettledItems(d, s, items, fuel) == SettledItems(e, s, items, fuel)
    decreases fuel, s, 0
  {
    forall i | 0 <= i < |items| && ItemSchema(s, i).Some?
      ensures Accepts(sat, d, ItemSchema(s, i).value, items[i], fuel) ==
        Accepts(sat, e, ItemSchema(s, i).value, items[i], fuel)
      ensures Settled(d, ItemSchema(s, i).value, items[i], fuel) == Settled(e, ItemSchema(s, i).value, items[i], fuel)
    {
      OnlyReachableDefs(sat, d, e, c, ItemSchema(s, i).value, items[i], fuel);
    }
  }

  lemma {:induction false} OnlyReachableDefsBranch(
    sat: Oracle, d: Defs, e: Defs, c: set<string>, b: Branch, v: Json, fuel: nat)
    requires AgreeOn(d, e, c) && BranchRefsWithin(b, c)
    ensures Outcomes(sat, d, b, v, fuel) == Outcomes(sat, e, b, v, fuel)
    ensures SettledBranch(d, b, v, fuel) == SettledBranch(e, b, v, fuel)
    decreases fuel, b, 0
  {
    forall i | 0 <= i < |b.schemas|
      ensures Accepts(sat, d, b.schemas[i], v, fuel) == Accepts(sat, e, b.schemas[i], v, fuel)
      ensures Settled(d, b.schemas[i], v, fuel) == Settled(e, b.schemas[i], v, fuel)
    {
      OnlyReachableDefs(sat, d, e, c, b.schemas[i], v, fuel);
    }
  }

  /** A document means the same under foreign definitions that agree with its own on what it reaches. */
  lemma SameDefinitionsSameMeaning(sat: Oracle, defs: Defs, s: Schema, c: set<string>, v: Json)
    requires AgreeOn(defs, DefsOf(s), c) && RefsWithin(s, c)
    ensures ValidUnder(sat, defs, s, v) <==> Valid(sat, s, v)
  {
    forall fuel: nat ensures AcceptedUnder(sat, defs, s, v, fuel) <==> AcceptedWith(sat, s, v, fuel) {
      OnlyReachableDefs(sat, defs, DefsOf(s), c, s, v, fuel);
    }
    if fuel: nat :| AcceptedUnder(sat, defs, s, v, fuel) {
      assert AcceptedWith(sat, s, v, fuel);
    }
    if fuel: nat :| AcceptedWith(sat, s, v, fuel) {
      assert AcceptedUnder(sat, defs, s, v, fuel);
    }
  }

  /** The schema without its `$defs` keyword. */
  function Stripped(schema: Schema): Schema {
    schema.(defs := NoDefs)
  }

  lemma DefsAreInertInMembers(sat: Oracle, defs: Defs, s: Schema, fields: map<string, Json>, fuel: nat)
    ensures AcceptsMembers(sat, defs, Stripped(s), fields, fuel) == AcceptsMembers(sat, defs, s, fields, fuel)
    ensures SettledMembers(defs, Stripped(s), fields, fuel) == SettledMembers(defs, s, fields, fuel)
  {
    assert forall k :: MemberSchema(Stripped(s), k) == MemberSchema(s, k);
  }

  lemma DefsAreInertInItems(sat: Oracle, defs: Defs, s: Schema, items: seq<Json>, fuel: nat)
    ensures AcceptsItems(sat, defs, Stripped(s), items, fuel) == AcceptsItems(sat, defs, s, items, fuel)
    ensures SettledItems(defs, Stripped(s), items, fuel) == SettledItems(defs, s, items, fuel)
  {
    assert forall i: nat :: ItemSchema(Stripped(s), i) == ItemSchema(s, i);
  }

  lemma DefsAreInertInBranches(sat: Oracle, defs: Defs, s: Schema, v: Json, fuel: nat)
    ensures AcceptsBranches(sat, defs, Stripped(s), v, fuel) == AcceptsBranches(sat, defs, s, v, fuel)
    ensures SettledBranches(defs, Stripped(s), v, fuel) == SettledBranches(defs, s, v, fuel)
  {
  }

  /** `$defs` takes no part in the evaluation of the schema it sits in. */
  lemma DefsKeywordIsInert(sat: Oracle, defs: Defs, s: Schema, v: Json, fuel: nat)
    ensures Accepts(sat, defs, Stripped(s), v, fuel) == Accepts(sat, defs, s, v, fuel)
    ensures Settled(defs, Stripped(s), v, fuel) == Settled(defs, s, v, fuel)
  {
    if v.Obj? {
      DefsAreInertInMembers(sat, defs, s, v.fields, fuel);
    }
    if v.Arr? {
      DefsAreInertInItems(sat, defs, s, v.items, fuel);
    }
    DefsAreInertInBranches(sat, defs, s, v, fuel);
  }

  lemma StrippedRefs(s: Schema, c: set<string>)
    ensures RefsWithin(Stripped(s), c) == RefsWithin(s, c)
  {
  }

  /** No name is defined in both with different content. */
  predicate Compatible(d: Defs, e: Defs) {
    forall x | x in d && x in e :: d[x] == e[x]
  }

  /** Where two tables of definitions are compatible, what resolves in both means the same in both. */
  lemma CompatibleMeansTheSame(sat: Oracle, defs: Defs, own: set<string>, s: Schema, c: set<string>, v: Json)
    requires Resolved(DefsOf(s), s, own) && Resolved(defs, s, c) && Compatible(defs, DefsOf(s))
    ensures ValidUnder(sat, defs, s, v) <==> Valid(sat, s, v)
  {
    RefsWithinBoth(s, c, own);
    forall x | x in c * own ensures RefsWithin(defs[x], c * own) {
      RefsWithinBoth(defs[x], c, own);
    }
    SameDefinitionsSameMeaning(sat, defs, s, c * own, v);
  }
}
