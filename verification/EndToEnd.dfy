/**
  From a scan report to the verdict on one envelope: emitting (contracts/emit.mjs) and validating
  (contracts/validate.mjs) together.
 */
module EndToEnd {
  import opened Prelude
  import opened JsonSchema
  import opened SchemaVerdicts
  import opened SchemaProjection
  import opened ProjectionProperties
  import opened ResponseUnion
  import opened ContractModel
  import opened RouteParams
  import opened Emit
  import opened EmitProperties
  import opened EmittedRecords
  import opened Validate

  /** The verdict on an envelope naming an emitted operation is that of the feature's two ids and of
      the first endpoint that asked for the operation id; nothing else of the scan matters. */
  lemma VerdictIsLocal(ajv: Compiler, call: Call, envelope: Envelope, i: nat)
    requires IsFirst(Endpoints(call), i, envelope.operationId) && envelope.operationId !in call.env.inherited
    ensures Problems(ajv, envelope, Emitted(call)) ==
      IdProblems(envelope, call.featureId, call.featureUid) +
      PayloadProblems(ajv, RecordOf(call.env, Endpoints(call)[i]), envelope.direction, envelope.payload)
  {
    FirstOccurrenceWins(call, envelope.operationId);
  }

  /** Appending endpoints to a scan never changes the verdict on an operation it already had. */
  lemma LaterEndpointsDoNotMatter(ajv: Compiler, call: Call, longer: Call, envelope: Envelope)
    requires envelope.operationId in Emitted(call).operations && longer.env == call.env
    requires longer.featureId == call.featureId && longer.featureUid == call.featureUid
    requires Endpoints(call) <= Endpoints(longer)
    ensures envelope.operationId in Emitted(longer).operations
    ensures Problems(ajv, envelope, Emitted(longer)) == Problems(ajv, envelope, Emitted(call))
  {
    var id := envelope.operationId;
    FirstOccurrenceWins(call, id);
    FirstOccurrenceWins(longer, id);
    var i: nat :| IsFirst(Endpoints(call), i, id);
    assert IsFirst(Endpoints(longer), i, id);
  }

  /** An id that every object inherits is never emitted, and each endpoint asking for it is reported
      as a duplicate of an operation that does not exist. */
  lemma InheritedIdsAreLost(call: Call, id: string)
    requires id in call.env.inherited
    ensures id !in Emitted(call).operations
    ensures CountSubject(Emitted(call).warnings, DuplicateOperationId, id) == Occurrences(Endpoints(call), id)
  {
    FirstOccurrenceWins(call, id);
  }

  /** The sourced parameter schemas in use refer to nothing outside c. */
  ghost predicate ReferencesWithin(site: Site, c: set<string>) {
    var a := AddressOf(site);
    forall name | name in Scan(a.route) && name in a.enrichment.pathParamSchemas ::
      RefsWithin(a.enrichment.pathParamSchemas[name], c)
  }

  /** The documents for an endpoint's requests can be compiled: its route repeats no parameter, the
      schemas used are well formed, and all references, those of the sourced parameter schemas
      included, resolve among the definitions of the body schema, if there is a body. */
  ghost predicate SchemasCompile(ok: string -> bool, env: Env, site: Site) {
    var a := AddressOf(site);
    var sourced := a.enrichment.pathParamSchemas;
    var s := BodySchema(RecordOf(env, site));
    && Distinct(Scan(a.route))
    && (forall name | name in Scan(a.route) && name in sourced :: WellFormed(ok, sourced[name]))
    && if RecordOf(env, site).body == Absent then ReferencesWithin(site, {})
       else WellFormed(ok, s) && exists c: set<string> :: Resolved(DefsOf(s), s, c) && ReferencesWithin(site, c)
  }

  /** What a request for the operation first asked for by `site` must look like; the parameters' schemas
      have their references resolved among the definitions of the body schema. */
  ghost predicate RequestFits(sat: Oracle, env: Env, site: Site, v: Json) {
    var a := AddressOf(site);
    var op := RecordOf(env, site);
    && RequestShape(op.body, v)
    && v.fields["pathParams"].Obj?
    && v.fields["pathParams"].fields.Keys == (set name | name in Scan(a.route))
    && (forall name | name in Scan(a.route) ::
          ValidUnder(sat, HoistedDefs(BodySchema(op), op.body), ParamSchema(name, a.enrichment.pathParamSchemas),
            v.fields["pathParams"].fields[name]))
    && ("body" in v.fields ==> Valid(sat, BodySchema(op), v.fields["body"]))
  }

  function RequestDocument(env: Env, site: Site): Schema {
    var op := RecordOf(env, site);
    RequestWrapper(op.pathParams, BodySchema(op), op.body)
  }

  lemma SchemasCompileIff(ok: string -> bool, env: Env, site: Site)
    requires ok(BARE_UUID_PATTERN)
    ensures var op := RecordOf(env, site);
      SchemasCompile(ok, env, site) <==> RequestCompiles(ok, op.pathParams, BodySchema(op), op.body)
  {
    var params, sourced := Scan(AddressOf(site).route), AddressOf(site).enrichment.pathParamSchemas;
    ParamsWellFormedIff(ok, params, sourced);
    forall c ensures RefsWithin(ParamsSchema(params, sourced), c) <==> ReferencesWithin(site, c) {
      ParamsRefsWithinIff(params, sourced, c);
    }
  }

  /** Unless the document for its requests leaves some value undecided, a request for an emitted operation
      is refused for a schema that cannot be compiled exactly when the route repeats a parameter, a schema
      used is ill-formed, or a reference does not resolve. */
  lemma EmittedUncompilableIff(ajv: Compiler, ok: string -> bool, sat: Oracle, call: Call, envelope: Envelope, i: nat)
    requires Faithful(ajv, ok, sat) && ok(BARE_UUID_PATTERN) && envelope.direction == Request
    requires IsFirst(Endpoints(call), i, envelope.operationId) && envelope.operationId !in call.env.inherited
    requires var w := RequestDocument(call.env, Endpoints(call)[i]); Compiles(ok, w) ==> IsGuarded(w)
    ensures UncompilableSchema in Problems(ajv, envelope, Emitted(call)) <==>
      !SchemasCompile(ok, call.env, Endpoints(call)[i])
  {
    FirstOccurrenceWins(call, envelope.operationId);
    SchemasCompileIff(ok, call.env, Endpoints(call)[i]);
    UncompilableIff(ajv, ok, sat, envelope, Emitted(call));
  }

  /** End to end: unless the document for its requests leaves some value undecided, a request for an
      emitted operation is accepted iff it carries the feature's ids, the operation's schemas can be
      compiled together, it has a value for exactly the route's parameters, each fitting its schema,
      and a body as the scan knows it. */
  lemma EmittedRequestVerdict(ajv: Compiler, ok: string -> bool, sat: Oracle, call: Call, envelope: Envelope, i: nat)
    requires Faithful(ajv, ok, sat) && ok(BARE_UUID_PATTERN) && envelope.direction == Request
    requires IsFirst(Endpoints(call), i, envelope.operationId) && envelope.operationId !in call.env.inherited
    requires var w := RequestDocument(call.env, Endpoints(call)[i]); Compiles(ok, w) ==> IsGuarded(w)
    ensures Problems(ajv, envelope, Emitted(call)) == [] <==>
      && envelope.featureId == call.featureId
      && envelope.featureUid == call.featureUid
      && SchemasCompile(ok, call.env, Endpoints(call)[i])
      && RequestFits(sat, call.env, Endpoints(call)[i], envelope.payload)
  {
    var site := Endpoints(call)[i];
    var a, op := AddressOf(site), RecordOf(call.env, site);
    FirstOccurrenceWins(call, envelope.operationId);
    SchemasCompileIff(ok, call.env, site);
    RequestVerdict(ajv, ok, sat, envelope, Emitted(call));
    if RequestShape(op.body, envelope.payload) {
      ParamsValidIff(sat, HoistedDefs(BodySchema(op), op.body), Scan(a.route), a.enrichment.pathParamSchemas,
        envelope.payload.fields["pathParams"]);
    }
  }

  // ------------------------------------------------------------------ told by the scan and the document alone

  /** No document knows the endpoint. */
  ghost predicate ScanOnlySite(site: Site) {
    match site.resolution
    case Some(Matched(_, _, _)) => false
    case Some(Adopted(_, _, _, _)) => false
    case _ => true
  }

  lemma ScannedSchemaIff(ok: string -> bool, route: string)
    requires ok(BARE_UUID_PATTERN)
    ensures var p := ParamsSchema(Scan(route), map[]); RefFree(p) && (WellFormed(ok, p) <==> Distinct(Scan(route)))
  {
    ParamsWellFormedIff(ok, Scan(route), map[]);
    ParamsRefsWithinIff(Scan(route), map[], {});
  }

  /** A request for an endpoint that no document knows is accepted iff its ids fit, the route repeats no name,
      and the payload has just `pathParams`, with a string for each name of the route, shaped like a UUID where
      the name ends in "id", and a body, required, possible or forbidden as the controller's source says,
      which is any object. */
  lemma ScanOnlyRequestVerdict(ajv: Compiler, ok: string -> bool, sat: Oracle, call: Call, envelope: Envelope, i: nat)
    requires Faithful(ajv, ok, sat) && ok(BARE_UUID_PATTERN) && envelope.direction == Request
    requires IsFirst(Endpoints(call), i, envelope.operationId) && envelope.operationId !in call.env.inherited
    requires ScanOnlySite(Endpoints(call)[i])
    ensures var site, v := Endpoints(call)[i], envelope.payload;
      Problems(ajv, envelope, Emitted(call)) == [] <==>
      && envelope.featureId == call.featureId && envelope.featureUid == call.featureUid
      && Distinct(Scan(site.ep.path))
      && v.Obj? && "pathParams" in v.fields
      && (forall k | k in v.fields :: k == "pathParams" || k == "body")
      && (Answer(call.env, site) == Some(true) ==> "body" in v.fields)
      && (Answer(call.env, site) == Some(false) ==> "body" !in v.fields)
      && ("body" in v.fields ==> v.fields["body"].Obj?)
      && var given := v.fields["pathParams"];
         && given.Obj?
         && (forall name :: name in given.fields <==> name in Scan(site.ep.path))
         && forall name | name in given.fields ::
              given.fields[name].Str? && (NamedAsId(name) ==> sat(BARE_UUID_PATTERN, given.fields[name]))
  {
    var site, v := Endpoints(call)[i], envelope.payload;
    OperationIsTold(call, envelope.operationId, i);
    HeadIsTold(call);
    SchemalessRequestVerdict(ajv, ok, sat, envelope, Emitted(call));
    ScannedSchemaIff(ok, site.ep.path);
    if v.Obj? && "pathParams" in v.fields {
      ScannedParametersIff(sat, map[], site.ep.path, v.fields["pathParams"]);
    }
  }

  /** What the document says a response, or an error, to the endpoint looks like. */
  ghost function DocumentedSchema(site: Site, direction: Direction): Option<Schema> {
    match site.resolution
    case Some(Matched(_, _, e)) => if direction == Response then e.responseSchema else e.errorSchema
    case Some(Adopted(_, _, _, e)) => if direction == Response then e.responseSchema else e.errorSchema
    case _ => None
  }

  /** A response or error for an emitted operation is accepted iff its ids fit and, where the document has a
      schema for that direction, this compiles and accepts what the payload holds under its one key `body`. */
  lemma EmittedResponseVerdict(ajv: Compiler, ok: string -> bool, sat: Oracle, call: Call, envelope: Envelope, i: nat)
    requires Faithful(ajv, ok, sat) && envelope.direction in {Response, Failure}
    requires IsFirst(Endpoints(call), i, envelope.operationId) && envelope.operationId !in call.env.inherited
    requires var schema := DocumentedSchema(Endpoints(call)[i], envelope.direction);
      schema.Some? && Compiles(ok, schema.value) ==> IsGuarded(schema.value)
    ensures var schema, v := DocumentedSchema(Endpoints(call)[i], envelope.direction), envelope.payload;
      Problems(ajv, envelope, Emitted(call)) == [] <==>
      && envelope.featureId == call.featureId && envelope.featureUid == call.featureUid
      && (schema.Some? ==>
            Compiles(ok, schema.value) && v.Obj? && v.fields.Keys == {"body"} &&
              Valid(sat, schema.value, v.fields["body"]))
  {
    OperationIsTold(call, envelope.operationId, i);
    HeadIsTold(call);
    ResponseVerdict(ajv, ok, sat, envelope, Emitted(call));
  }

  // ------------------------------------------------------------------ parameters judged alone

  /** No name that the body's schema defines is defined differently by a parameter's schema. */
  ghost predicate NoCollision(env: Env, site: Site) {
    var a, op := AddressOf(site), RecordOf(env, site);
    var sourced := a.enrichment.pathParamSchemas;
    forall name | name in Scan(a.route) && name in sourced ::
      Compatible(HoistedDefs(BodySchema(op), op.body), DefsOf(sourced[name]))
  }

  /** A parameter is judged as by its own schema alone, references included, if that compiles alone, the
      operation's schemas compile together, and no definition collides. */
  lemma ParameterKeepsItsMeaning(ok: string -> bool, sat: Oracle, env: Env, site: Site, name: string, v: Json)
    requires SchemasCompile(ok, env, site) && NoCollision(env, site) && name in Scan(AddressOf(site).route)
    requires var q := ParamSchema(name, AddressOf(site).enrichment.pathParamSchemas); Compiles(ok, q)
    ensures var q := ParamSchema(name, AddressOf(site).enrichment.pathParamSchemas);
      var op := RecordOf(env, site);
      ValidUnder(sat, HoistedDefs(BodySchema(op), op.body), q, v) <==> Valid(sat, q, v)
  {
    var sourced := AddressOf(site).enrichment.pathParamSchemas;
    var op := RecordOf(env, site);
    var q, s := ParamSchema(name, sourced), BodySchema(op);
    var defs := HoistedDefs(s, op.body);
    var own: set<string> :| Resolved(DefsOf(q), q, own);
    if name !in sourced {
      assert RefsWithin(q, {}) && Resolved(defs, q, {}) && DefsOf(q) == map[];
      CompatibleMeansTheSame(sat, defs, own, q, {}, v);
    } else if op.body == Absent {
      assert Resolved(defs, q, {});
      CompatibleMeansTheSame(sat, defs, own, q, {}, v);
    } else {
      var c: set<string> :| Resolved(DefsOf(s), s, c) && ReferencesWithin(site, c);
      assert Resolved(defs, q, c);
      CompatibleMeansTheSame(sat, defs, own, q, c, v);
    }
  }

  /** What a request must look like if each part is judged by its own schema. */
  ghost predicate RequestFitsAlone(sat: Oracle, env: Env, site: Site, v: Json) {
    var a := AddressOf(site);
    var op := RecordOf(env, site);
    && RequestShape(op.body, v)
    && v.fields["pathParams"].Obj?
    && v.fields["pathParams"].fields.Keys == (set name | name in Scan(a.route))
    && (forall name | name in Scan(a.route) ::
          Valid(sat, ParamSchema(name, a.enrichment.pathParamSchemas), v.fields["pathParams"].fields[name]))
    && ("body" in v.fields ==> Valid(sat, BodySchema(op), v.fields["body"]))
  }

  lemma ParametersFitAloneIff(ok: string -> bool, sat: Oracle, env: Env, site: Site, given: map<string, Json>)
    requires SchemasCompile(ok, env, site) && NoCollision(env, site)
    requires forall name | name in Scan(AddressOf(site).route) ::
      Compiles(ok, ParamSchema(name, AddressOf(site).enrichment.pathParamSchemas))
    requires forall name | name in Scan(AddressOf(site).route) :: name in given
    ensures var op := RecordOf(env, site);
      var defs, sourced := HoistedDefs(BodySchema(op), op.body), AddressOf(site).enrichment.pathParamSchemas;
      var names := Scan(AddressOf(site).route);
      (forall name | name in names :: ValidUnder(sat, defs, ParamSchema(name, sourced), given[name]))
      <==> forall name | name in names :: Valid(sat, ParamSchema(name, sourced), given[name])
  {
    forall name | name in Scan(AddressOf(site).route)
      ensures var op := RecordOf(env, site);
        var q := ParamSchema(name, AddressOf(site).enrichment.pathParamSchemas);
        ValidUnder(sat, HoistedDefs(BodySchema(op), op.body), q, given[name]) <==> Valid(sat, q, given[name])
    {
      ParameterKeepsItsMeaning(ok, sat, env, site, name, given[name]);
    }
  }

  lemma FitsAloneIff(ok: string -> bool, sat: Oracle, env: Env, site: Site, v: Json)
    requires SchemasCompile(ok, env, site) && NoCollision(env, site)
    requires forall name | name in Scan(AddressOf(site).route) ::
      Compiles(ok, ParamSchema(name, AddressOf(site).enrichment.pathParamSchemas))
    ensures RequestFits(sat, env, site, v) <==> RequestFitsAlone(sat, env, site, v)
  {
    if RequestShape(RecordOf(env, site).body, v) && v.fields["pathParams"].Obj? {
      var given := v.fields["pathParams"].fields;
      if given.Keys == (set name | name in Scan(AddressOf(site).route)) {
        ParametersFitAloneIff(ok, sat, env, site, given);
      }
    }
  }

  /** So where nothing collides, the whole request is judged part by part. */
  lemma EmittedRequestJudgedByParts(
    ajv: Compiler, ok: string -> bool, sat: Oracle, call: Call, envelope: Envelope, i: nat)
    requires Faithful(ajv, ok, sat) && ok(BARE_UUID_PATTERN) && envelope.direction == Request
    requires IsFirst(Endpoints(call), i, envelope.operationId) && envelope.operationId !in call.env.inherited
    requires var w := RequestDocument(call.env, Endpoints(call)[i]); Compiles(ok, w) ==> IsGuarded(w)
    requires var a := AddressOf(Endpoints(call)[i]);
      forall name | name in Scan(a.route) :: Compiles(ok, ParamSchema(name, a.enrichment.pathParamSchemas))
    requires NoCollision(call.env, Endpoints(call)[i])
    ensures Problems(ajv, envelope, Emitted(call)) == [] <==>
      && envelope.featureId == call.featureId
      && envelope.featureUid == call.featureUid
      && SchemasCompile(ok, call.env, Endpoints(call)[i])
      && RequestFitsAlone(sat, call.env, Endpoints(call)[i], envelope.payload)
  {
    EmittedRequestVerdict(ajv, ok, sat, call, envelope, i);
    if SchemasCompile(ok, call.env, Endpoints(call)[i]) {
      FitsAloneIff(ok, sat, call.env, Endpoints(call)[i], envelope.payload);
    }
  }

  /** The schemas of the operation's parameters and body are projections of one document. */
  ghost predicate FromOneDocument(rules: Rules, g: Components, env: Env, site: Site) {
    var a, op := AddressOf(site), RecordOf(env, site);
    var sourced := a.enrichment.pathParamSchemas;
    && (forall name | name in Scan(a.route) && name in sourced :: IsShape(rules, g, sourced[name]))
    && (op.requestBodySchema.Some? ==> IsShape(rules, g, op.requestBodySchema.value))
  }

  /** Then no definition collides. */
  lemma ProjectionsDoNotCollide(rules: Rules, g: Components, env: Env, site: Site)
    requires FromOneDocument(rules, g, env, site)
    ensures NoCollision(env, site)
  {
    var a, op := AddressOf(site), RecordOf(env, site);
    var sourced := a.enrichment.pathParamSchemas;
    forall name | name in Scan(a.route) && name in sourced
      ensures Compatible(HoistedDefs(BodySchema(op), op.body), DefsOf(sourced[name]))
    {
      ShapeDefines(rules, g, sourced[name]);
      if op.requestBodySchema.Some? {
        ShapeDefines(rules, g, op.requestBodySchema.value);
      }
    }
  }

  // ------------------------------------------------------------------ requests that cannot succeed

  /** A route that names one parameter twice refuses every request: its `required` list is not unique. */
  lemma RepeatedParameterRefusesRequests(
    ajv: Compiler, ok: string -> bool, sat: Oracle, call: Call, envelope: Envelope, i: nat)
    requires Faithful(ajv, ok, sat) && envelope.direction == Request
    requires IsFirst(Endpoints(call), i, envelope.operationId) && envelope.operationId !in call.env.inherited
    requires !Distinct(Scan(AddressOf(Endpoints(call)[i]).route))
    ensures UncompilableSchema in Problems(ajv, envelope, Emitted(call))
  {
    FirstOccurrenceWins(call, envelope.operationId);
    assert !WellFormed(ok, RecordOf(call.env, Endpoints(call)[i]).pathParams);
    UncompilableIsRefused(ajv, ok, sat, envelope, Emitted(call));
  }

  /** So does, for an operation without a body, a parameter whose sourced schema has any reference. */
  lemma ReferringParameterRefusesRequests(
    ajv: Compiler, ok: string -> bool, sat: Oracle, call: Call, envelope: Envelope, i: nat, name: string)
    requires Faithful(ajv, ok, sat) && envelope.direction == Request
    requires IsFirst(Endpoints(call), i, envelope.operationId) && envelope.operationId !in call.env.inherited
    requires var site := Endpoints(call)[i];
      var a := AddressOf(site);
      && RecordOf(call.env, site).body == Absent
      && name in Scan(a.route) && name in a.enrichment.pathParamSchemas && !RefFree(a.enrichment.pathParamSchemas[name])
    ensures UncompilableSchema in Problems(ajv, envelope, Emitted(call))
  {
    var a := AddressOf(Endpoints(call)[i]);
    FirstOccurrenceWins(call, envelope.operationId);
    ParamsRefsWithinIff(Scan(a.route), a.enrichment.pathParamSchemas, {});
    UncompilableIsRefused(ajv, ok, sat, envelope, Emitted(call));
  }
}
