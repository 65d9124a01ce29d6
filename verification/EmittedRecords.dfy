/**
  What every emitted operation says, told by the scan and the reconciliation alone (contracts/emit.mjs): the fields
  of its record, the endpoints that are looked at, and the head of the contract.
 */
module EmittedRecords {
  import opened Prelude
  import opened JsonSchema
  import opened ContractModel
  import opened Completeness
  import opened RouteParams
  import opened Emit
  import opened EmitProperties

  // ------------------------------------------------------------------ which endpoints there are

  lemma {:induction false} FirstOfName(modules: seq<Module>, name: string)
    ensures match FindModule(modules, name)
      case None => forall m | m in modules :: m.name != name
      case Some(m) => exists i | 0 <= i < |modules| ::
        modules[i] == m && m.name == name && forall j | 0 <= j < i :: modules[j].name != name
  {
    if modules != [] && modules[0].name != name {
      FirstOfName(modules[1..], name);
      if FindModule(modules[1..], name).Some? {
        var m := FindModule(modules, name).value;
        var i :| 0 <= i < |modules[1..]| && modules[1..][i] == m && forall j | 0 <= j < i ::
          modules[1..][j].name != name;
        assert modules[i + 1] == m;
        forall j | 0 <= j < i + 1 ensures modules[j].name != name {
          assert j > 0 ==> modules[j] == modules[1..][j - 1];
        }
      }
    }
  }

  /** The module named is the first one of that name; without a name it is the first one there is. */
  lemma ModuleIsChosen(call: Call)
    ensures var modules := call.scan.relatedModules;
      && (call.moduleName == "" ==> Target(call) == if modules == [] then None else Some(modules[0]))
      && (call.moduleName != "" && Target(call).Some? ==> exists i | 0 <= i < |modules| ::
            && Target(call).value == modules[i] && modules[i].name == call.moduleName
            && forall j | 0 <= j < i :: modules[j].name != call.moduleName)
      && (call.moduleName != "" && Target(call).None? ==> forall m | m in modules :: m.name != call.moduleName)
  {
    if call.moduleName != "" {
      FirstOfName(call.scan.relatedModules, call.moduleName);
    }
  }

  /** What is seen of an endpoint: its own data, its controller's, and the entry of the reconciliation that bears
      its two positions. */
  ghost predicate SeenAs(controllers: seq<Controller>, openapi: Option<Reconciliation>, ci: nat, ei: nat, site: Site)
    requires ci < |controllers| && ei < |controllers[ci].endpoints|
  {
    var key := EndpointKey(ci, ei);
    && site.ep == controllers[ci].endpoints[ei]
    && site.file == controllers[ci].file && site.declarations == controllers[ci].declarations
    && (openapi.Some? && key in openapi.value.byEndpoint ==> site.resolution == Some(openapi.value.byEndpoint[key]))
    && (openapi.Some? && key !in openapi.value.byEndpoint ==> site.resolution == None)
    && (openapi.None? ==> site.resolution == None)
  }

  lemma {:induction false} InController(
    controllers: seq<Controller>, openapi: Option<Reconciliation>, ci: nat, n: nat, ei: nat)
    requires ci < |controllers| && n <= |controllers[ci].endpoints| && ei < n
    ensures ControllerSites(controllers, openapi, ci, n)[ei] == SiteAt(controllers, openapi, ci, ei)
  {
    if ei < n - 1 {
      InController(controllers, openapi, ci, n - 1, ei);
    }
  }

  lemma SiteIsSeen(controllers: seq<Controller>, openapi: Option<Reconciliation>, ci: nat, ei: nat)
    requires ci < |controllers| && ei < |controllers[ci].endpoints|
    ensures SeenAs(controllers, openapi, ci, ei, SiteAt(controllers, openapi, ci, ei))
  {
  }

  lemma LastSites(controllers: seq<Controller>, openapi: Option<Reconciliation>, n: nat, ei: nat)
    requires n < |controllers| && ei < |controllers[n].endpoints|
    ensures var before := Sites(controllers, openapi, n);
      var last := ControllerSites(controllers, openapi, n, |controllers[n].endpoints|);
      && |before| + ei < |Sites(controllers, openapi, n + 1)|
      && Sites(controllers, openapi, n + 1)[|before| + ei] == last[ei]
  {
  }
  lemma LastInScan(controllers: seq<Controller>, openapi: Option<Reconciliation>, n: nat, ei: nat)
    requires n < |controllers| && ei < |controllers[n].endpoints|
    ensures var at := |Sites(controllers, openapi, n)| + ei;
      && at < |Sites(controllers, openapi, n + 1)|
      && Sites(controllers, openapi, n + 1)[at] == SiteAt(controllers, openapi, n, ei)
  {
    InController(controllers, openapi, n, |controllers[n].endpoints|, ei);
    LastSites(controllers, openapi, n, ei);
  }

  lemma {:induction false} SitesExtend(controllers: seq<Controller>, openapi: Option<Reconciliation>, k: nat, n: nat)
    requires k <= n <= |controllers|
    ensures Sites(controllers, openapi, k) <= Sites(controllers, openapi, n)
    decreases n
  {
    if k < n {
      SitesExtend(controllers, openapi, k, n - 1);
    }
  }

  lemma InScan(controllers: seq<Controller>, openapi: Option<Reconciliation>, ci: nat, ei: nat)
    requires ci < |controllers| && ei < |controllers[ci].endpoints|
    ensures var all, at := Sites(controllers, openapi, |controllers|), |Sites(controllers, openapi, ci)| + ei;
      at < |all| && all[at] == SiteAt(controllers, openapi, ci, ei)
  {
    LastInScan(controllers, openapi, ci, ei);
    SitesExtend(controllers, openapi, ci + 1, |controllers|);
  }

  /** The endpoints looked at are as many as the chosen module has... */
  lemma EndpointsAreAll(call: Call)
    ensures Target(call).None? ==> Endpoints(call) == []
    ensures Target(call).Some? ==> |Endpoints(call)| == CountEndpoints(Target(call).value.controllers)
  {
    if Target(call).Some? {
      var controllers := Target(call).value.controllers;
      SitesAreAllEndpoints(controllers, call.openapi, |controllers|);
      assert controllers[..|controllers|] == controllers;
    }
  }

  /** ...and each of these is looked at in its place, controller by controller, with its own entry of the
      reconciliation. */
  lemma EndpointsAreTheScan(call: Call, ci: nat, ei: nat)
    requires Target(call).Some?
    requires ci < |Target(call).value.controllers| && ei < |Target(call).value.controllers[ci].endpoints|
    ensures var controllers := Target(call).value.controllers;
      var at := CountEndpoints(controllers[..ci]) + ei;
      at < |Endpoints(call)| && SeenAs(controllers, call.openapi, ci, ei, Endpoints(call)[at])
  {
    var controllers := Target(call).value.controllers;
    SitesAreAllEndpoints(controllers, call.openapi, ci);
    InScan(controllers, call.openapi, ci, ei);
    SiteIsSeen(controllers, call.openapi, ci, ei);
  }

  // ------------------------------------------------------------------ the record of an operation

  /** An endpoint asks for the id the document gives it, if it was adopted from there, and for its own id
      otherwise, unless that is blank or the endpoint ambiguous. */
  lemma RequestedIff(site: Site, id: string)
    ensures RequestedId(site) == Some(id) <==>
      && id != "" && site.resolution != Some(Ambiguous)
      && (match site.resolution
          case Some(Adopted(operationId, _, _, _)) => id == operationId
          case _ => site.ep.operationId == Some(id))
  {
  }

  /** The copied fields are the document's; a blank summary or description is dropped. */
  ghost predicate CopiesOf(given: Passthrough, copied: Passthrough) {
    && copied.parameters == given.parameters && copied.security == given.security && copied.tags == given.tags
    && copied.responses == given.responses && copied.requestBody == given.requestBody
    && (given.summary == Some("") ==> copied.summary == None)
    && (given.summary != Some("") ==> copied.summary == given.summary)
    && (given.description == Some("") ==> copied.description == None)
    && (given.description != Some("") ==> copied.description == given.description)
  }

  /** The parameters are those of the record's path, each with the document's schema if it gives one; the others
      are listed, in their order, as guessed. */
  ghost predicate ParametersOf(op: Operation, sourced: map<string, Schema>) {
    && op.pathParams == ParamsSchema(Scan(op.path), sourced)
    && (op.pathParamsHeuristic.None? <==> forall name | name in Scan(op.path) :: name in sourced)
    && (op.pathParamsHeuristic.Some? ==> exists known: seq<string> ::
         && IsMerge(op.pathParamsHeuristic.value, known, Scan(op.path))
         && (forall name | name in op.pathParamsHeuristic.value :: name !in sourced)
         && forall name | name in known :: name in sourced)
  }

  /** Everything a matched or adopted endpoint brings along. */
  ghost predicate Carries(op: Operation, e: Enrichment) {
    && op.requestBodySchema == e.requestBodySchema
    && (e.requestBodySchema.Some? ==> op.requestBodyRequired == Some(e.requestBodyRequired))
    && (e.requestBodySchema.None? ==> op.requestBodyRequired == None)
    && op.responseSchema == e.responseSchema && op.errorSchema == e.errorSchema
    && CopiesOf(e.copied, op.copied)
    && ParametersOf(op, e.pathParamSchemas)
  }

  /** Any other endpoint brings nothing. */
  ghost predicate CarriesNothing(op: Operation) {
    && op.requestBodySchema == None && op.requestBodyRequired == None && op.responseSchema == None &&
       op.errorSchema == None
    && op.copied == Passthrough(None, None, None, None, None, None, None)
    && ParametersOf(op, map[])
  }

  /** What the controller's source says of a body; without a file or a handler, nothing. */
  ghost function Answer(env: Env, site: Site): Option<bool> {
    match (site.file, site.ep.handler)
    case (Some(file), Some(handler)) => if file == "" || handler == "" then None else env.takesBody(file, handler)
    case _ => None
  }

  ghost predicate BodyAsTold(env: Env, site: Site, body: Body) {
    && (body == Expected <==> Answer(env, site) == Some(true))
    && (body == Absent <==> Answer(env, site) == Some(false))
  }

  /** The declaration the endpoint was expanded from, if its index leads to one. */
  ghost predicate ExpandedFrom(site: Site, expansion: Option<Expansion>) {
    && (forall i | site.ep.declarationIndex == Some(i) && i < |site.declarations| ::
       expansion == Some(site.declarations[i]))
    && (forall i | site.ep.declarationIndex == Some(i) && i >= |site.declarations| :: expansion == None)
    && (site.ep.declarationIndex == None ==> expansion == None)
  }

  /** Where the record has its id, address and schemas from. */
  ghost predicate ToldBy(site: Site, id: string, op: Operation) {
    match site.resolution
    case Some(Matched(verb, path, e)) =>
      && site.ep.operationId == Some(id) && op.verb == verb && op.path == path
      && op.provenance == ScanAndOpenapi && Carries(op, e)
    case Some(Adopted(operationId, verb, path, e)) =>
      && operationId == id && op.verb == verb && op.path == path
      && op.provenance == OpenapiOnly && Carries(op, e)
    case _ =>
      && site.ep.operationId == Some(id) && op.verb == site.ep.verb && op.path == site.ep.path
      && op.provenance == (if site.ep.synthesized then ScanSynthesized else ScanOnly) && CarriesNothing(op)
  }

  lemma ParametersAreTold(op: Operation, sourced: map<string, Schema>)
    requires op.pathParams == ParamsSchema(Scan(op.path), sourced)
    requires op.pathParamsHeuristic ==
      if Unsourced(Scan(op.path), sourced) == [] then None else Some(Unsourced(Scan(op.path), sourced))
    ensures ParametersOf(op, sourced)
  {
    var names := Scan(op.path);
    var known := Filter((name: string) => name in sourced, names);
    FilterPartitions((name: string) => name !in sourced, (name: string) => name in sourced, names);
    assert IsMerge(Unsourced(names, sourced), known, names);
    if Unsourced(names, sourced) != [] {
      assert Unsourced(names, sourced)[0] in Unsourced(names, sourced);
    }
  }

  lemma BodyIsTold(env: Env, site: Site)
    ensures BodyAsTold(env, site, BodyOf(DetectRequestBody(env, site.file, site.ep.handler)))
  {
  }

  lemma ExpansionIsTold(site: Site)
    ensures ExpandedFrom(site, ExpansionOf(site))
  {
  }

  lemma RecordIsTold(env: Env, site: Site, id: string)
    requires RequestedId(site) == Some(id)
    ensures var op := RecordOf(env, site);
      ToldBy(site, id, op) && BodyAsTold(env, site, op.body) && ExpandedFrom(site, op.expansion)
  {
    BodyIsTold(env, site);
    ExpansionIsTold(site);
    ParametersAreTold(RecordOf(env, site), AddressOf(site).enrichment.pathParamSchemas);
  }

  /** The operation recorded under an id says what the first endpoint that asks for it, its entry of the
      reconciliation and its controller say, field by field. */
  lemma OperationIsTold(call: Call, id: string, i: nat)
    requires IsFirst(Endpoints(call), i, id) && id !in call.env.inherited
    ensures id in Emitted(call).operations
    ensures var site, op := Endpoints(call)[i], Emitted(call).operations[id];
      ToldBy(site, id, op) && BodyAsTold(call.env, site, op.body) && ExpandedFrom(site, op.expansion)
  {
    FirstOccurrenceWins(call, id);
    RecordIsTold(call.env, Endpoints(call)[i], id);
  }

  // ------------------------------------------------------------------ the head of the contract

  /** The contract bears the ids it was asked for, the scan's adapter, the chosen module, whether a document took
      part, the document's security schemes if there are any, and how many operations it has. */
  lemma HeadIsTold(call: Call)
    ensures var c := Emitted(call);
      && c.featureId == call.featureId && c.featureUid == call.featureUid
      && c.source.adapter == call.scan.adapter
      && (Target(call).None? ==> c.source.moduleName == None && c.source.provenance == FromNothing)
      && (Target(call).Some? ==>
            && c.source.moduleName == Some(Target(call).value.name)
            && c.source.provenance == if call.openapi.Some? then FromScanAndOpenapi else FromScan)
      && (call.openapi.None? ==> c.securitySchemes == None)
      && (call.openapi.Some? && call.openapi.value.securitySchemes == map[] ==> c.securitySchemes == None)
      && (call.openapi.Some? && call.openapi.value.securitySchemes != map[] ==>
            c.securitySchemes == Some(call.openapi.value.securitySchemes))
      && c.completeness.operationCount == |c.operations|
      && c.completeness.endpointCount == |Endpoints(call)|
  {
    StartFacts(Target(call), call.openapi);
    RunBalances(call.env, Endpoints(call), Start(Target(call), call.openapi));
  }
}
