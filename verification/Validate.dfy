/**
  Payload schemas and envelope validation (contracts/validate.mjs).

  An operation's projected schema is nested one level deep, under `properties.body`, before the
  whole wrapper is compiled. `HoistDefs` moves its `$defs` to the wrapper's root; the lemmas say
  that the wrapper then means exactly what the parts mean alone.
 */
module Validate {
  import opened Prelude
  import opened JsonSchema
  import opened SchemaVerdicts
  import opened ContractModel

  datatype Direction = Request | Response | Failure | Unrecognized

  datatype Envelope = Envelope(featureId: string, featureUid: string, operationId: string, direction: Direction,
    payload: Json)

  datatype Problem =
    | FeatureIdMismatch
    | FeatureUidMismatch
    | UnknownOperation
    | UncompilableSchema
    | PayloadProblem(text: string)

  /** The schema compiler: whether a document compiles, and the problems a compiled document reports. */
  datatype Compiler = Compiler(compiles: Schema -> bool, report: (Schema, Json) -> seq<string>)

  const BARE_OBJECT: Schema := ANYTHING.(types := [ObjectType])

  // ------------------------------------------------------------------ payload schemas

  function WrapperSchema(defs: Definitions, properties: map<string, Schema>, required: seq<string>): Schema {
    ANYTHING.(defs := defs, types := [ObjectType], properties := properties, required := required, additional := Closed)
  }

  /** The object literal under construction; `properties` and `required` are filled after it exists. */
  class Wrapper {
    var defs: Definitions
    var properties: map<string, Schema>
    var required: seq<string>

    constructor (properties: map<string, Schema>, required: seq<string>)
      ensures defs == NoDefs && this.properties == properties && this.required == required
    {
      this.defs, this.properties, this.required := NoDefs, properties, required;
    }

    function Document(): Schema
      reads this
    {
      WrapperSchema(defs, properties, required)
    }
  }

  method HoistDefs(wrapper: Wrapper, schema: Schema) returns (rest: Schema)
    modifies wrapper`defs
    ensures rest == Stripped(schema)
    ensures wrapper.defs == if schema.defs.Definitions? then schema.defs else old(wrapper.defs)
  {
    if schema.defs.NoDefs? {
      return schema;
    }
    wrapper.defs := schema.defs;
    rest := schema.(defs := NoDefs);
  }

  function BodySchema(op: Operation): Schema {
    match op.requestBodySchema
    case Some(s) => s
    case None => BARE_OBJECT
  }

  function RequestWrapper(pathParams: Schema, schema: Schema, body: Body): Schema {
    match body
    case Expected => WrapperSchema(schema.defs, map["pathParams" := pathParams, "body" := Stripped(schema)],
      ["pathParams", "body"])
    case Unknown => WrapperSchema(schema.defs, map["pathParams" := pathParams, "body" := Stripped(schema)],
      ["pathParams"])
    case Absent => WrapperSchema(NoDefs, map["pathParams" := pathParams], ["pathParams"])
  }

  function BodyWrapper(schema: Schema): Schema {
    WrapperSchema(schema.defs, map["body" := Stripped(schema)], ["body"])
  }

  function PayloadSchema(op: Operation, direction: Direction): Option<Schema> {
    match direction
    case Request => Some(RequestWrapper(op.pathParams, BodySchema(op), op.body))
    case Response => (match op.responseSchema case Some(s) => Some(BodyWrapper(s)) case None => None)
    case Failure => (match op.errorSchema case Some(s) => Some(BodyWrapper(s)) case None => None)
    case Unrecognized => None
  }

  method OperationPayloadSchema(op: Operation, direction: Direction) returns (r: Option<Schema>)
    ensures r == PayloadSchema(op, direction)
  {
    if direction == Request {
      var bodySchema := BodySchema(op);
      var result := new Wrapper(map["pathParams" := op.pathParams], ["pathParams"]);
      if op.body == Expected {
        var nested := HoistDefs(result, bodySchema);
        result.properties := result.properties["body" := nested];
        assert result.properties == map["pathParams" := op.pathParams, "body" := nested];
        result.required := result.required + ["body"];
        assert result.required == ["pathParams", "body"];
      } else if op.body == Unknown {
        var nested := HoistDefs(result, bodySchema);
        result.properties := result.properties["body" := nested];
        assert result.properties == map["pathParams" := op.pathParams, "body" := nested];
      }
      return Some(result.Document());
    }
    if direction == Response || direction == Failure {
      var schema := if direction == Response then op.responseSchema else op.errorSchema;
      if schema.None? {
        return None;
      }
      var result := new Wrapper(map[], ["body"]);
      var nested := HoistDefs(result, schema.value);
      result.properties := result.properties["body" := nested];
      assert result.properties == map["body" := nested];
      return Some(result.Document());
    }
    return None;
  }

  // ------------------------------------------------------------------ hoisting keeps the meaning

  /** A wrapper accepts an object that has the required keys, no unlisted key, and accepted values. */
  lemma WrapperStep(sat: Oracle, w: Schema, v: Json, fuel: nat)
    requires w == WrapperSchema(w.defs, w.properties, w.required)
    ensures Accepts(sat, DefsOf(w), w, v, fuel) <==>
      && v.Obj?
      && (forall i | 0 <= i < |w.required| :: w.required[i] in v.fields)
      && v.fields.Keys <= w.properties.Keys
      && forall k | k in v.fields :: Accepts(sat, DefsOf(w), w.properties[k], v.fields[k], fuel)
    ensures Settled(DefsOf(w), w, v, fuel) <==>
      (v.Obj? ==> forall k | k in v.fields && k in w.properties ::
      Settled(DefsOf(w), w.properties[k], v.fields[k], fuel))
  {
    assert w.types[0] == ObjectType;
    if v.Obj? && v.fields.Keys <= w.properties.Keys {
      assert AcceptsMembers(sat, DefsOf(w), w, v.fields, fuel) <==>
        && (forall i | 0 <= i < |w.required| :: w.required[i] in v.fields)
        && forall k | k in v.fields :: Accepts(sat, DefsOf(w), w.properties[k], v.fields[k], fuel);
    }
  }

  lemma BodyWrapperStep(sat: Oracle, s: Schema, v: Json, fuel: nat)
    ensures AcceptedWith(sat, BodyWrapper(s), v, fuel) <==>
      v.Obj? && v.fields.Keys == {"body"} && AcceptedWith(sat, s, v.fields["body"], fuel)
    ensures RejectedWith(sat, BodyWrapper(s), v, fuel) <==>
      if v.Obj? && "body" in v.fields then
        Settled(DefsOf(s), s, v.fields["body"], fuel) &&
          (v.fields.Keys != {"body"} || RejectedWith(sat, s, v.fields["body"], fuel))
      else true
  {
    var w := BodyWrapper(s);
    WrapperStep(sat, w, v, fuel);
    assert w.required[0] == "body";
    if v.Obj? && "body" in v.fields {
      DefsKeywordIsInert(sat, DefsOf(s), s, v.fields["body"], fuel);
      assert w.properties["body"] == Stripped(s);
    }
  }

  /** The response and error wrappers accept exactly the objects whose only key is `body` and whose
      body the schema accepts on its own, recursive definitions included; and they have a verdict on
      such an object whenever the schema has one on the body. */
  lemma HoistingKeepsMeaning(sat: Oracle, s: Schema, v: Json)
    ensures Valid(sat, BodyWrapper(s), v) <==> v.Obj? && v.fields.Keys == {"body"} && Valid(sat, s, v.fields["body"])
    ensures v.Obj? && v.fields.Keys == {"body"} ==>
      (Invalid(sat, BodyWrapper(s), v) <==> Invalid(sat, s, v.fields["body"]))
    ensures !(v.Obj? && "body" in v.fields) ==> Invalid(sat, BodyWrapper(s), v)
  {
    forall fuel: nat
      ensures AcceptedWith(sat, BodyWrapper(s), v, fuel) <==>
        v.Obj? && v.fields.Keys == {"body"} && AcceptedWith(sat, s, v.fields["body"], fuel)
      ensures RejectedWith(sat, BodyWrapper(s), v, fuel) <==>
        if v.Obj? && "body" in v.fields then
          Settled(DefsOf(s), s, v.fields["body"], fuel) &&
            (v.fields.Keys != {"body"} || RejectedWith(sat, s, v.fields["body"], fuel))
        else true
    {
      BodyWrapperStep(sat, s, v, fuel);
    }
    if !(v.Obj? && "body" in v.fields) {
      assert RejectedWith(sat, BodyWrapper(s), v, 0);
    }
  }

  lemma StrippedWellFormed(ok: string -> bool, s: Schema)
    ensures WellFormed(ok, s) <==>
      WellFormed(ok, Stripped(s)) &&
        (s.defs.Definitions? ==> forall k | k in s.defs.named :: WellFormed(ok, s.defs.named[k]))
  {
  }

  /** The wrapper compiles exactly when the schema compiles on its own. */
  lemma HoistingKeepsCompilation(ok: string -> bool, s: Schema)
    ensures Compiles(ok, BodyWrapper(s)) <==> Compiles(ok, s)
  {
    var w := BodyWrapper(s);
    assert w.properties["body"] == Stripped(s);
    assert WellFormed(ok, w) <==> WellFormed(ok, s) by {
      StrippedWellFormed(ok, s);
    }
    forall c: set<string> ensures Resolved(DefsOf(w), w, c) <==> Resolved(DefsOf(s), s, c) {
      StrippedRefs(s, c);
    }
  }

  /** The wrapper without hoisting: `$defs` stays where the schema put it. */
  function UnhoistedWrapper(schema: Schema): Schema {
    WrapperSchema(NoDefs, map["body" := schema], ["body"])
  }

  /** Left nested, the wrapper has an unresolvable reference as soon as the schema has any reference. */
  lemma UnhoistedCompilesIffRefFree(ok: string -> bool, s: Schema)
    ensures Compiles(ok, UnhoistedWrapper(s)) <==> WellFormed(ok, s) && RefFree(s)
  {
    var w := UnhoistedWrapper(s);
    assert w.properties["body"] == s;
    assert WellFormed(ok, w) <==> WellFormed(ok, s);
    if RefFree(s) {
      assert Resolved(DefsOf(w), w, {});
    }
    forall c: set<string> | Resolved(DefsOf(w), w, c) ensures RefFree(s) {
      assert c == {};
    }
  }

  // ------------------------------------------------------------------ the request wrapper

  /** What a request payload must look like, in terms of the two schemas on their own. */
  ghost predicate RequestShape(body: Body, v: Json) {
    && v.Obj?
    && "pathParams" in v.fields
    && v.fields.Keys <= {"pathParams", "body"}
    && (body == Expected ==> "body" in v.fields)
    && (body == Absent ==> "body" !in v.fields)
  }

  /** The definitions that the request wrapper makes resolvable. */
  function HoistedDefs(schema: Schema, body: Body): Defs {
    if body == Absent then map[] else DefsOf(schema)
  }

  lemma RequestStep(sat: Oracle, p: Schema, s: Schema, body: Body, v: Json, fuel: nat)
    ensures AcceptedWith(sat, RequestWrapper(p, s, body), v, fuel) <==>
      && RequestShape(body, v)
      && AcceptedUnder(sat, HoistedDefs(s, body), p, v.fields["pathParams"], fuel)
      && ("body" in v.fields ==> AcceptedWith(sat, s, v.fields["body"], fuel))
  {
    var w := RequestWrapper(p, s, body);
    WrapperStep(sat, w, v, fuel);
    assert DefsOf(w) == HoistedDefs(s, body);
    assert w.required[0] == "pathParams";
    assert body == Expected ==> w.required[1] == "body";
    assert w.properties.Keys == if body == Absent then {"pathParams"} else {"pathParams", "body"};
    if v.Obj? && "pathParams" in v.fields {
      assert w.properties["pathParams"] == p;
    }
    if v.Obj? && "body" in v.fields && body != Absent {
      DefsKeywordIsInert(sat, DefsOf(s), s, v.fields["body"], fuel);
      assert w.properties["body"] == Stripped(s);
    }
  }

  /** A request payload is accepted iff it has no other key than `pathParams` and `body`, its path
      parameters are accepted by their schema with references resolved among the hoisted definitions,
      and its body is present and accepted by its own schema when one is expected, accepted if present
      when that is unknown, absent otherwise. */
  lemma RequestWrapperIsExact(sat: Oracle, p: Schema, s: Schema, body: Body, v: Json)
    ensures Valid(sat, RequestWrapper(p, s, body), v) <==>
      && RequestShape(body, v)
      && ValidUnder(sat, HoistedDefs(s, body), p, v.fields["pathParams"])
      && ("body" in v.fields ==> Valid(sat, s, v.fields["body"]))
  {
    var defs := HoistedDefs(s, body);
    if Valid(sat, RequestWrapper(p, s, body), v) {
      var n: nat :| AcceptedWith(sat, RequestWrapper(p, s, body), v, n);
      RequestStep(sat, p, s, body, v, n);
    }
    if RequestShape(body, v) && ValidUnder(sat, defs, p, v.fields["pathParams"]) &&
      ("body" in v.fields ==> Valid(sat, s, v.fields["body"])) {
      var n: nat :| AcceptedUnder(sat, defs, p, v.fields["pathParams"], n);
      var m: nat := 0;
      if "body" in v.fields {
        m :| AcceptedWith(sat, s, v.fields["body"], m);
        AcceptedUnderMore(sat, DefsOf(s), s, v.fields["body"], m, n + m);
      }
      AcceptedUnderMore(sat, defs, p, v.fields["pathParams"], n, n + m);
      RequestStep(sat, p, s, body, v, n + m);
    }
  }

  /** Both parts are well formed and the references of *both* resolve among the definitions of the body
      schema: those of `pathParams` are not hoisted. */
  ghost predicate RequestCompiles(ok: string -> bool, p: Schema, s: Schema, body: Body) {
    && WellFormed(ok, p)
    && if body == Absent then RefFree(p)
       else WellFormed(ok, s) && exists c: set<string> :: Resolved(DefsOf(s), s, c) && RefsWithin(p, c)
  }

  lemma BodylessCompilesIff(ok: string -> bool, p: Schema, s: Schema)
    ensures Compiles(ok, RequestWrapper(p, s, Absent)) <==> WellFormed(ok, p) && RefFree(p)
  {
    var w := RequestWrapper(p, s, Absent);
    assert w.properties["pathParams"] == p && w.properties.Keys == {"pathParams"};
    if RefFree(p) {
      assert Resolved(DefsOf(w), w, {});
    }
    forall c: set<string> | Resolved(DefsOf(w), w, c) ensures RefFree(p) {
      assert c == {};
    }
  }

  lemma BodiedWellFormedIff(ok: string -> bool, p: Schema, s: Schema, body: Body)
    requires body != Absent
    ensures WellFormed(ok, RequestWrapper(p, s, body)) <==> WellFormed(ok, p) && WellFormed(ok, s)
  {
    var w := RequestWrapper(p, s, body);
    assert w.properties["pathParams"] == p && w.properties["body"] == Stripped(s);
    assert w.properties.Keys == {"pathParams", "body"};
    StrippedWellFormed(ok, s);
  }

  lemma BodiedResolvedIff(p: Schema, s: Schema, body: Body, c: set<string>)
    requires body != Absent
    ensures var w := RequestWrapper(p, s, body);
      Resolved(DefsOf(w), w, c) <==> Resolved(DefsOf(s), s, c) && RefsWithin(p, c)
  {
    var w := RequestWrapper(p, s, body);
    assert w.properties["pathParams"] == p && w.properties["body"] == Stripped(s);
    assert w.properties.Keys == {"pathParams", "body"};
    StrippedRefs(s, c);
  }

  lemma RequestWrapperCompilesIff(ok: string -> bool, p: Schema, s: Schema, body: Body)
    ensures Compiles(ok, RequestWrapper(p, s, body)) <==> RequestCompiles(ok, p, s, body)
  {
    if body == Absent {
      BodylessCompilesIff(ok, p, s);
    } else {
      BodiedWellFormedIff(ok, p, s, body);
      forall c {
        BodiedResolvedIff(p, s, body, c);
      }
    }
  }

  // ------------------------------------------------------------------ the verdict on an envelope

  function IdProblems(envelope: Envelope, featureId: string, featureUid: string): seq<Problem> {
    (if envelope.featureId != featureId then [FeatureIdMismatch] else []) +
    (if envelope.featureUid != featureUid then [FeatureUidMismatch] else [])
  }

  function PayloadProblems(ajv: Compiler, op: Operation, direction: Direction, payload: Json): seq<Problem> {
    match PayloadSchema(op, direction)
    case None => []
    case Some(schema) =>
      if !ajv.compiles(schema) then [UncompilableSchema]
      else seq(|ajv.report(schema, payload)|, i
        requires 0 <= i < |ajv.report(schema, payload)| => PayloadProblem(ajv.report(schema, payload)[i]))
  }

  function Problems(ajv: Compiler, envelope: Envelope, contract: Contract): seq<Problem> {
    IdProblems(envelope, contract.featureId, contract.featureUid) +
    (if envelope.operationId in contract.operations then
       PayloadProblems(ajv, contract.operations[envelope.operationId], envelope.direction, envelope.payload)
     else [UnknownOperation])
  }

  method ValidateAgainstContract(
    ajv: Compiler, envelope: Envelope, contract: Contract) returns (ok: bool, errors: seq<Problem>)
    ensures errors == Problems(ajv, envelope, contract)
    ensures ok <==> errors == []
  {
    errors := [];
    if envelope.featureId != contract.featureId {
      errors := errors + [FeatureIdMismatch];
    }
    if envelope.featureUid != contract.featureUid {
      errors := errors + [FeatureUidMismatch];
    }
    ghost var idProblems := errors;
    assert idProblems == IdProblems(envelope, contract.featureId, contract.featureUid);
    if envelope.operationId !in contract.operations {
      errors := errors + [UnknownOperation];
      return false, errors;
    }
    var op := contract.operations[envelope.operationId];
    var payloadSchema := OperationPayloadSchema(op, envelope.direction);
    if payloadSchema.Some? {
      if !ajv.compiles(payloadSchema.value) {
        errors := errors + [UncompilableSchema];
        return false, errors;
      }
      var reported := ajv.report(payloadSchema.value, envelope.payload);
      for i := 0 to |reported|
        invariant errors == idProblems + PayloadProblems(ajv, op, envelope.direction, envelope.payload)[..i]
      {
        errors := errors + [PayloadProblem(reported[i])];
      }
    }
    ok := |errors| == 0;
  }

  /** The compiler compiles nothing that JSON Schema does not allow and everything that it allows and that
      decides every value, and reports a problem exactly on the values that a compiled document rejects,
      wherever the document has a verdict at all. What it does with a document that leaves a value
      undecided is open: on a bare loop of references it gives up. */
  ghost predicate Faithful(ajv: Compiler, ok: string -> bool, sat: Oracle) {
    && (forall root :: ajv.compiles(root) ==> Compiles(ok, root))
    && (forall root :: Compiles(ok, root) && IsGuarded(root) ==> ajv.compiles(root))
    && (forall root, v :: ajv.compiles(root) && Valid(sat, root, v) ==> ajv.report(root, v) == [])
    && (forall root, v :: ajv.compiles(root) && Invalid(sat, root, v) ==> ajv.report(root, v) != [])
  }

  lemma StrippedReaches(s: Schema, any: set<string>, named: set<string>)
    ensures ReachesWithin(Stripped(s), any, named) == ReachesWithin(s, any, named)
  {
  }

  /** Wrapping adds no reference cycle. */
  lemma BodyWrapperStaysGuarded(s: Schema)
    requires IsGuarded(s)
    ensures IsGuarded(BodyWrapper(s))
  {
    var rank, any :| Guarded(s, rank, any);
    var w := BodyWrapper(s);
    assert w.properties["body"] == Stripped(s);
    StrippedReaches(s, any, rank.Keys);
    assert Guarded(w, rank, any);
  }

  /** Neither do path parameters that reach only guarded definitions. */
  lemma RequestWrapperStaysGuarded(p: Schema, s: Schema, body: Body, rank: map<string, nat>, any: set<string>)
    requires Guarded(s, rank, any)
    requires if body == Absent then ReachesWithin(p, {}, {}) else ReachesWithin(p, any, rank.Keys)
    ensures IsGuarded(RequestWrapper(p, s, body))
  {
    var w := RequestWrapper(p, s, body);
    assert w.properties["pathParams"] == p;
    if body == Absent {
      assert w.properties.Keys == {"pathParams"};
      var none: map<string, nat> := map[];
      assert none.Keys == {};
      assert Guarded(w, none, {});
    } else {
      assert w.properties.Keys == {"pathParams", "body"};
      assert w.properties["body"] == Stripped(s);
      StrippedReaches(s, any, rank.Keys);
      assert Guarded(w, rank, any);
    }
  }

  lemma PayloadVerdict(
    ajv: Compiler, ok: string -> bool, sat: Oracle, op: Operation, direction: Direction, w: Schema, v: Json)
    requires Faithful(ajv, ok, sat) && PayloadSchema(op, direction) == Some(w)
    requires Compiles(ok, w) ==> IsGuarded(w)
    ensures PayloadProblems(ajv, op, direction, v) == [] <==> Compiles(ok, w) && Valid(sat, w, v)
    ensures UncompilableSchema in PayloadProblems(ajv, op, direction, v) <==> !Compiles(ok, w)
  {
    assert ajv.compiles(w) <==> Compiles(ok, w);
    if Compiles(ok, w) {
      GuardedDecides(sat, w, v);
      VerdictIsUnique(sat, w, v);
      assert |PayloadProblems(ajv, op, direction, v)| == |ajv.report(w, v)|;
    }
  }

  /** Unless the payload document leaves some value undecided, a request is accepted iff it is for this
      feature, names one of its operations, that operation's two schemas can be compiled together, and
      it has the payload that they ask for. */
  lemma RequestVerdict(ajv: Compiler, ok: string -> bool, sat: Oracle, envelope: Envelope, contract: Contract)
    requires Faithful(ajv, ok, sat) && envelope.direction == Request && envelope.operationId in contract.operations
    requires var op := contract.operations[envelope.operationId];
      var w := RequestWrapper(op.pathParams, BodySchema(op), op.body);
      Compiles(ok, w) ==> IsGuarded(w)
    ensures var op := contract.operations[envelope.operationId];
      Problems(ajv, envelope, contract) == [] <==>
      && envelope.featureId == contract.featureId
      && envelope.featureUid == contract.featureUid
      && RequestCompiles(ok, op.pathParams, BodySchema(op), op.body)
      && RequestShape(op.body, envelope.payload)
      && ValidUnder(sat, HoistedDefs(BodySchema(op), op.body), op.pathParams, envelope.payload.fields["pathParams"])
      && ("body" in envelope.payload.fields ==> Valid(sat, BodySchema(op), envelope.payload.fields["body"]))
  {
    var op, v := contract.operations[envelope.operationId], envelope.payload;
    var p, s := op.pathParams, BodySchema(op);
    RequestWrapperIsExact(sat, p, s, op.body, v);
    RequestWrapperCompilesIff(ok, p, s, op.body);
    PayloadVerdict(ajv, ok, sat, op, Request, RequestWrapper(p, s, op.body), v);
  }

  /** A response or error is accepted iff it is for this feature, names one of its operations, and,
      where a schema was projected, that compiles and the payload is an object holding just a body
      which it accepts. */
  lemma ResponseVerdict(ajv: Compiler, ok: string -> bool, sat: Oracle, envelope: Envelope, contract: Contract)
    requires Faithful(ajv, ok, sat) && envelope.direction in {Response, Failure} &&
      envelope.operationId in contract.operations
    requires var op := contract.operations[envelope.operationId];
      var schema := if envelope.direction == Response then op.responseSchema else op.errorSchema;
      schema.Some? && Compiles(ok, schema.value) ==> IsGuarded(schema.value)
    ensures var op := contract.operations[envelope.operationId];
      var schema := if envelope.direction == Response then op.responseSchema else op.errorSchema;
      Problems(ajv, envelope, contract) == [] <==>
      && envelope.featureId == contract.featureId
      && envelope.featureUid == contract.featureUid
      && (schema.Some? ==>
            && Compiles(ok, schema.value)
            && envelope.payload.Obj?
            && envelope.payload.fields.Keys == {"body"}
            && Valid(sat, schema.value, envelope.payload.fields["body"]))
  {
    var op, v := contract.operations[envelope.operationId], envelope.payload;
    var schema := if envelope.direction == Response then op.responseSchema else op.errorSchema;
    if schema.Some? {
      var w := BodyWrapper(schema.value);
      HoistingKeepsMeaning(sat, schema.value, v);
      HoistingKeepsCompilation(ok, schema.value);
      if IsGuarded(schema.value) {
        BodyWrapperStaysGuarded(schema.value);
      }
      PayloadVerdict(ajv, ok, sat, op, envelope.direction, w, v);
    }
  }

  /** A request is refused if the operation's schemas cannot be compiled together... */
  lemma UncompilableIsRefused(ajv: Compiler, ok: string -> bool, sat: Oracle, envelope: Envelope, contract: Contract)
    requires Faithful(ajv, ok, sat) && envelope.direction == Request && envelope.operationId in contract.operations
    requires var op := contract.operations[envelope.operationId];
      !RequestCompiles(ok, op.pathParams, BodySchema(op), op.body)
    ensures UncompilableSchema in Problems(ajv, envelope, contract)
  {
    var op := contract.operations[envelope.operationId];
    RequestWrapperCompilesIff(ok, op.pathParams, BodySchema(op), op.body);
    assert PayloadProblems(ajv, op, Request, envelope.payload) == [UncompilableSchema];
  }

  /** ...and for that reason only if they cannot, unless the document leaves some value undecided. */
  lemma UncompilableIff(ajv: Compiler, ok: string -> bool, sat: Oracle, envelope: Envelope, contract: Contract)
    requires Faithful(ajv, ok, sat) && envelope.direction == Request && envelope.operationId in contract.operations
    requires var op := contract.operations[envelope.operationId];
      var w := RequestWrapper(op.pathParams, BodySchema(op), op.body);
      Compiles(ok, w) ==> IsGuarded(w)
    ensures var op := contract.operations[envelope.operationId];
      UncompilableSchema in Problems(ajv, envelope, contract) <==>
      !RequestCompiles(ok, op.pathParams, BodySchema(op), op.body)
  {
    var op := contract.operations[envelope.operationId];
    RequestWrapperCompilesIff(ok, op.pathParams, BodySchema(op), op.body);
    PayloadVerdict(ajv, ok, sat, op, Request, RequestWrapper(op.pathParams, BodySchema(op), op.body), envelope.payload);
  }

  // ------------------------------------------------------------------ requests, with and without a projected schema

  /** The parts of a request payload: `pathParams`, no other key than it and `body`, and a body if one is
      expected, none if it is known that there is none. */
  lemma RequestShapeIff(body: Body, v: Json)
    ensures RequestShape(body, v) <==>
      && v.Obj? && "pathParams" in v.fields
      && (forall k | k in v.fields :: k == "pathParams" || k == "body")
      && (body == Expected ==> "body" in v.fields) && (body == Absent ==> "body" !in v.fields)
  {
  }

  /** A schema with nothing but the type "object". */
  lemma BareObjectIff(sat: Oracle, ok: string -> bool, s: Schema, v: Json)
    requires s == ANYTHING.(types := [ObjectType])
    ensures WellFormed(ok, s) && (Valid(sat, s, v) <==> v.Obj?)
    ensures forall c: set<string> :: Resolved(DefsOf(s), s, c) <==> c == {}
  {
    assert s.types[0] == ObjectType;
    forall fuel: nat ensures AcceptedWith(sat, s, v, fuel) <==> v.Obj? {
      assert SettledBranches(map[], s, v, fuel) && AcceptsBranches(sat, map[], s, v, fuel);
      assert v.Obj? ==> SettledMembers(map[], s, v.fields, fuel) && AcceptsMembers(sat, map[], s, v.fields, fuel);
      assert v.Arr? ==> SettledItems(map[], s, v.items, fuel);
    }
    assert AcceptedWith(sat, s, v, 0) <==> v.Obj?;
  }

  lemma {:induction false} RefFreeIsReached(s: Schema)
    requires RefFree(s)
    ensures ReachesWithin(s, {}, {})
  {
    RefsAreReached(s, {});
  }

  lemma SchemalessCompiles(ok: string -> bool, sat: Oracle, p: Schema, s: Schema, body: Body)
    requires s == ANYTHING.(types := [ObjectType])
    ensures RequestCompiles(ok, p, s, body) <==> WellFormed(ok, p) && RefFree(p)
    ensures RefFree(p) ==> IsGuarded(RequestWrapper(p, s, body))
  {
    BareObjectIff(sat, ok, s, Null);
    if RefFree(p) {
      var none: map<string, nat> := map[];
      RefFreeIsReached(p);
      assert none.Keys == {} && Resolved(DefsOf(s), s, {});
      RefFreeIsReached(s);
      assert Guarded(s, none, {});
      RequestWrapperStaysGuarded(p, s, body, none, {});
    }
  }

  /** Without a projected schema a request is accepted iff its ids fit, the parameters' schema is well formed
      and without references and accepts the parameters, and the body, which is there as the contract knows,
      is any object. */
  lemma SchemalessRequestVerdict(ajv: Compiler, ok: string -> bool, sat: Oracle, envelope: Envelope, contract: Contract)
    requires Faithful(ajv, ok, sat) && envelope.direction == Request && envelope.operationId in contract.operations
    requires contract.operations[envelope.operationId].requestBodySchema.None?
    ensures var op, v := contract.operations[envelope.operationId], envelope.payload;
      Problems(ajv, envelope, contract) == [] <==>
      && envelope.featureId == contract.featureId && envelope.featureUid == contract.featureUid
      && WellFormed(ok, op.pathParams) && RefFree(op.pathParams)
      && v.Obj? && "pathParams" in v.fields
      && (forall k | k in v.fields :: k == "pathParams" || k == "body")
      && (op.body == Expected ==> "body" in v.fields) && (op.body == Absent ==> "body" !in v.fields)
      && ValidUnder(sat, map[], op.pathParams, v.fields["pathParams"])
      && ("body" in v.fields ==> v.fields["body"].Obj?)
  {
    var op, v := contract.operations[envelope.operationId], envelope.payload;
    var s := BodySchema(op);
    assert s == ANYTHING.(types := [ObjectType]);
    SchemalessCompiles(ok, sat, op.pathParams, s, op.body);
    RequestWrapperCompilesIff(ok, op.pathParams, s, op.body);
    RequestVerdict(ajv, ok, sat, envelope, contract);
    RequestShapeIff(op.body, v);
    if v.Obj? && "body" in v.fields {
      BareObjectIff(sat, ok, s, v.fields["body"]);
    }
  }

  /** With one, its own definitions resolve the references of both schemas if a body is possible, and the
      body, which is there as the contract knows, is accepted by that schema. */
  lemma ProjectedRequestVerdict(
    ajv: Compiler, ok: string -> bool, sat: Oracle, envelope: Envelope, contract: Contract, s: Schema)
    requires Faithful(ajv, ok, sat) && envelope.direction == Request && envelope.operationId in contract.operations
    requires contract.operations[envelope.operationId].requestBodySchema == Some(s)
    requires var op := contract.operations[envelope.operationId];
      RequestCompiles(ok, op.pathParams, s, op.body) ==> IsGuarded(RequestWrapper(op.pathParams, s, op.body))
    ensures var op, v := contract.operations[envelope.operationId], envelope.payload;
      Problems(ajv, envelope, contract) == [] <==>
      && envelope.featureId == contract.featureId && envelope.featureUid == contract.featureUid
      && RequestCompiles(ok, op.pathParams, s, op.body)
      && v.Obj? && "pathParams" in v.fields
      && (forall k | k in v.fields :: k == "pathParams" || k == "body")
      && (op.body == Expected ==> "body" in v.fields) && (op.body == Absent ==> "body" !in v.fields)
      && ValidUnder(sat, if op.body == Absent then map[] else DefsOf(s), op.pathParams, v.fields["pathParams"])
      && ("body" in v.fields ==> Valid(sat, s, v.fields["body"]))
  {
    var op, v := contract.operations[envelope.operationId], envelope.payload;
    RequestWrapperCompilesIff(ok, op.pathParams, s, op.body);
    RequestVerdict(ajv, ok, sat, envelope, contract);
    RequestShapeIff(op.body, v);
  }

  /** Each kind of problem is reported for its own reason: ids that differ, an operation that is not there,
      and what the compiler reports of the payload. A direction that is not known constrains nothing. */
  lemma ProblemsAreExact(ajv: Compiler, envelope: Envelope, contract: Contract)
    ensures var ps := Problems(ajv, envelope, contract);
      && (FeatureIdMismatch in ps <==> envelope.featureId != contract.featureId)
      && (FeatureUidMismatch in ps <==> envelope.featureUid != contract.featureUid)
      && (UnknownOperation in ps <==> envelope.operationId !in contract.operations)
      && (envelope.direction == Unrecognized && envelope.operationId in contract.operations ==>
            (ps == [] <==> envelope.featureId == contract.featureId && envelope.featureUid == contract.featureUid))
  {
  }
}
