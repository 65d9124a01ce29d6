/**
  Building a feature contract from a scan report (contracts/emit.mjs).

  `BuildContract` is the program: nested loops over controllers and endpoints. `ContractOf` is its
  specification, a fold of `Step` over the endpoints in scan order; EmitProperties says what it keeps.
 */
module Emit {
  import opened Prelude
  import opened JsonSchema
  import opened ContractModel
  import opened WarningCodes
  import opened Completeness
  import opened RouteParams

  // ------------------------------------------------------------------ the scan report

  datatype Endpoint = Endpoint(
    verb: string,
    path: string,
    operationId: Option<string>,
    synthesized: bool,
    handler: Option<string>,
    declarationIndex: Option<nat>)

  datatype Controller = Controller(file: Option<string>, endpoints: seq<Endpoint>, declarations: seq<Expansion>)

  datatype Module = Module(name: string, controllers: seq<Controller>)

  /** `prefixCandidates` are the normalised path-prefix signals of the scan. */
  datatype ScanReport = ScanReport(adapter: Option<string>, relatedModules: seq<Module>, prefixCandidates: seq<string>)

  /** What the program finds around it: `takesBody` reads a controller source for a handler's
      parameters (None when it cannot tell); `inherited` are the names found on every object
      ("constructor", "toString", ...). */
  datatype Env = Env(takesBody: (string, string) -> Option<bool>, inherited: set<string>)

  // ------------------------------------------------------------------ the reconciliation

  /** What a matched or adopted operation brings along; an absent reason means nothing went wrong. */
  datatype Enrichment = Enrichment(
    requestBodySchema: Option<Schema>,
    requestBodyRequired: bool,
    responseSchema: Option<Schema>,
    errorSchema: Option<Schema>,
    copied: Passthrough,
    pathParamSchemas: map<string, Schema>,
    schemaReason: Option<string>,
    responseReason: Option<string>,
    errorReason: Option<string>,
    parametersUnresolved: bool,
    securityReason: Option<string>,
    mediaTypesReason: Option<string>,
    descriptionReason: Option<string>)

  const NOTHING_COPIED: Passthrough := Passthrough(None, None, None, None, None, None, None)

  const NO_ENRICHMENT: Enrichment :=
    Enrichment(None, false, None, None, NOTHING_COPIED, map[], None, None, None, false, None, None, None)

  datatype Resolution =
    | Matched(verb: string, path: string, enrichment: Enrichment)
    | Adopted(operationId: string, verb: string, path: string, enrichment: Enrichment)
    | Drift
    | Missing
    | Ambiguous
    | Unresolved
    | OtherKind

  datatype Reconciliation = Reconciliation(
    byEndpoint: map<string, Resolution>,
    unsupportedAnnotations: seq<string>,
    securitySchemes: map<string, Json>)

  function EndpointKey(controllerIndex: nat, endpointIndex: nat): string {
    Decimal(controllerIndex) + ":" + Decimal(endpointIndex)
  }

  /** Two endpoints never share an entry of the reconciliation. */
  lemma EndpointKeyIsInjective(c: nat, e: nat, c': nat, e': nat)
    requires EndpointKey(c, e) == EndpointKey(c', e')
    ensures c == c' && e == e'
  {
    assert EndpointKey(c, e) == Decimal(c) + [':'] + Decimal(e);
    assert EndpointKey(c', e') == Decimal(c') + [':'] + Decimal(e');
    SplitUnique(Decimal(c), Decimal(e), Decimal(c'), Decimal(e'), ':');
    DecimalRoundTrip(c);
    DecimalRoundTrip(c');
    DecimalRoundTrip(e);
    DecimalRoundTrip(e');
  }

  function FindModule(modules: seq<Module>, name: string): Option<Module> {
    if modules == [] then None
    else if modules[0].name == name then Some(modules[0])
    else FindModule(modules[1..], name)
  }

  function SelectModule(scan: ScanReport, moduleName: string): Option<Module> {
    if moduleName != "" then FindModule(scan.relatedModules, moduleName)
    else if scan.relatedModules == [] then None
    else Some(scan.relatedModules[0])
  }

  // ------------------------------------------------------------------ one endpoint

  /** An endpoint together with its controller's data and its own entry of the reconciliation. */
  datatype Site = Site(file: Option<string>, declarations: seq<Expansion>, ep: Endpoint, resolution: Option<Resolution>)

  datatype State = State(operations: map<string, Operation>, warnings: seq<Warning>, endpointCount: nat)

  /** How an endpoint is addressed once its resolution has been looked at. */
  datatype Address = Address(operationId: Option<string>, verb: string, route: string, provenance: Provenance,
    enrichment: Enrichment)

  /** `operations[id]` is truthy for a recorded id, and for every name that objects inherit. */
  predicate IsTaken(env: Env, operations: map<string, Operation>, id: string) {
    id in operations || id in env.inherited
  }

  predicate Given(reason: Option<string>) {
    reason.Some? && reason.value != ""
  }

  function Warned(warnings: seq<Warning>, condition: bool, code: Code, subject: Option<string>): seq<Warning> {
    if condition then warnings + [MakeWarning(code, subject)] else warnings
  }

  function ScanAddress(ep: Endpoint): Address {
    Address(ep.operationId, ep.verb, ep.path, if ep.synthesized then ScanSynthesized else ScanOnly, NO_ENRICHMENT)
  }

  function AddressOf(site: Site): Address {
    match site.resolution
    case Some(Matched(verb, path, enrichment)) => Address(site.ep.operationId, verb, path, ScanAndOpenapi, enrichment)
    case Some(Adopted(operationId, verb, path, enrichment)) => Address(Some(operationId), verb, path, OpenapiOnly,
      enrichment)
    case _ => ScanAddress(site.ep)
  }

  function Label(ep: Endpoint): Option<string> {
    Some(ep.verb + " " + ep.path)
  }

  /** The warnings of the reconciliation itself. */
  function AfterResolution(site: Site, warnings: seq<Warning>): seq<Warning> {
    match site.resolution
    case Some(Adopted(operationId, _, _, _)) => warnings + [MakeWarning(OpenapiDerivedOperationId, Some(operationId))]
    case Some(Drift) => warnings + [MakeWarning(OpenapiDrift, site.ep.operationId)]
    case Some(Missing) => warnings + [MakeWarning(OpenapiMissingOperation, site.ep.operationId)]
    case Some(Ambiguous) => warnings + [MakeWarning(OpenapiAmbiguous, Label(site.ep))]
    case Some(Unresolved) => Warned(warnings, site.ep.synthesized, OpenapiMissingOperation, site.ep.operationId)
    case _ => warnings
  }

  function DetectRequestBody(env: Env, file: Option<string>, handler: Option<string>): Option<bool> {
    if !Given(file) || !Given(handler) then None else env.takesBody(file.value, handler.value)
  }

  /** The warnings about schemas that could not be projected. */
  function AfterProjecting(a: Address, warnings: seq<Warning>): seq<Warning> {
    var w1 := Warned(warnings, Given(a.enrichment.schemaReason), OpenapiSchemaUnresolved, a.operationId);
    var w2 := Warned(w1, Given(a.enrichment.responseReason), OpenapiResponseSchemaUnresolved, a.operationId);
    Warned(w2, Given(a.enrichment.errorReason), OpenapiErrorSchemaUnresolved, a.operationId)
  }

  function AfterParameters(a: Address, warnings: seq<Warning>): seq<Warning> {
    var w1 := Warned(warnings, a.enrichment.parametersUnresolved, OpenapiParametersUnresolved, a.operationId);
    Warned(w1, Given(a.enrichment.securityReason), OpenapiSecurityUnresolved, a.operationId)
  }

  /** The warnings about fields that could not be copied. */
  function AfterCopying(a: Address, warnings: seq<Warning>): seq<Warning> {
    var w1 := Warned(AfterParameters(a, warnings), Given(a.enrichment.mediaTypesReason),
      OpenapiRequestMediaTypeUnresolved, a.operationId);
    Warned(w1, Given(a.enrichment.descriptionReason), OpenapiDescriptionUnresolved, a.operationId)
  }

  /** The warnings about an operation that is being recorded; none of them is an error. */
  function AfterRecording(env: Env, site: Site, warnings: seq<Warning>): seq<Warning> {
    var a := AddressOf(site);
    var unknown := DetectRequestBody(env, site.file, site.ep.handler).None?;
    AfterCopying(a, AfterProjecting(a, Warned(warnings, unknown, BodyUnknown, Some(a.verb + " " + a.route))))
  }

  /** A blank summary or description is left out like an absent one. */
  function Copied(p: Passthrough): Passthrough {
    p.(summary := if Given(p.summary) then p.summary else None,
      description := if Given(p.description) then p.description else None)
  }

  function BodyOf(hasBody: Option<bool>): Body {
    match hasBody
    case None => Unknown
    case Some(true) => Expected
    case Some(false) => Absent
  }

  function ExpansionOf(site: Site): Option<Expansion> {
    match site.ep.declarationIndex
    case None => None
    case Some(i) => if i < |site.declarations| then Some(site.declarations[i]) else None
  }

  function RecordFor(
    site: Site, hasBody: Option<bool>, verb: string, route: string, provenance: Provenance, e: Enrichment): Operation {
    var unsourced := Unsourced(Scan(route), e.pathParamSchemas);
    Operation(
      verb, route, ParamsSchema(Scan(route), e.pathParamSchemas), BodyOf(hasBody), provenance,
      e.requestBodySchema, if e.requestBodySchema.Some? then Some(e.requestBodyRequired) else None,
      e.responseSchema, e.errorSchema, Copied(e.copied), if unsourced == [] then None else Some(unsourced),
      ExpansionOf(site))
  }

  function RecordOf(env: Env, site: Site): Operation {
    var a := AddressOf(site);
    RecordFor(site, DetectRequestBody(env, site.file, site.ep.handler), a.verb, a.route, a.provenance, a.enrichment)
  }

  function Step(env: Env, site: Site, st: State): State {
    var warnings := AfterResolution(site, st.warnings);
    var count := st.endpointCount + 1;
    var id := AddressOf(site).operationId;
    if site.resolution == Some(Ambiguous) then State(st.operations, warnings, count)
    else if !Given(id) then
      State(st.operations, warnings + [MakeWarning(UnmatchedEndpoint, Label(site.ep))], count)
    else if IsTaken(env, st.operations, id.value) then
      State(st.operations, warnings + [MakeWarning(DuplicateOperationId, id)], count)
    else
      State(st.operations[id.value := RecordOf(env, site)], AfterRecording(env, site, warnings), count)
  }

  // ------------------------------------------------------------------ a whole run

  function Run(env: Env, sites: seq<Site>, st: State): State {
    if sites == [] then st
    else Step(env, sites[|sites| - 1], Run(env, sites[..|sites| - 1], st))
  }

  function Lookup(openapi: Option<Reconciliation>, ci: nat, ei: nat): Option<Resolution> {
    match openapi
    case None => None
    case Some(r) => if EndpointKey(ci, ei) in r.byEndpoint then Some(r.byEndpoint[EndpointKey(ci, ei)]) else None
  }

  function SiteAt(controllers: seq<Controller>, openapi: Option<Reconciliation>, ci: nat, ei: nat): Site
    requires ci < |controllers| && ei < |controllers[ci].endpoints|
  {
    var c := controllers[ci];
    Site(c.file, c.declarations, c.endpoints[ei], Lookup(openapi, ci, ei))
  }

  /** The first `n` endpoints of one controller. */
  function ControllerSites(
    controllers: seq<Controller>, openapi: Option<Reconciliation>, ci: nat, n: nat): (s: seq<Site>)
    requires ci < |controllers| && n <= |controllers[ci].endpoints|
    ensures |s| == n
  {
    if n == 0 then []
    else ControllerSites(controllers, openapi, ci, n - 1) + [SiteAt(controllers, openapi, ci, n - 1)]
  }

  /** The endpoints of the first `n` controllers, in (controller, endpoint) order. */
  function Sites(controllers: seq<Controller>, openapi: Option<Reconciliation>, n: nat): seq<Site>
    requires n <= |controllers|
  {
    if n == 0 then []
    else
      Sites(controllers, openapi, n - 1) +
      ControllerSites(controllers, openapi, n - 1, |controllers[n - 1].endpoints|)
  }

  function SitesOf(target: Option<Module>, openapi: Option<Reconciliation>): seq<Site> {
    match target
    case None => []
    case Some(m) => Sites(m.controllers, openapi, |m.controllers|)
  }

  function Annotated(annotations: seq<string>, n: nat): seq<Warning>
    requires n <= |annotations|
  {
    if n == 0 then []
    else Annotated(annotations, n - 1) + [MakeWarning(OpenapiUnsupportedAnnotationPresent, Some(annotations[n - 1]))]
  }

  function Annotations(openapi: Option<Reconciliation>): seq<string> {
    match openapi
    case None => []
    case Some(r) => r.unsupportedAnnotations
  }

  /** The state before the first endpoint. */
  function Start(target: Option<Module>, openapi: Option<Reconciliation>): State {
    var annotations := Annotations(openapi);
    State(map[], Warned(Annotated(annotations, |annotations|), target.None?, NoModule, None), 0)
  }

  predicate Under(path: string, prefix: string) {
    path == prefix || prefix + "/" <= path
  }

  /** Some operation's path is not under the prefix. */
  predicate IsUnreflected(operations: map<string, Operation>, prefix: string) {
    exists id | id in operations :: !Under(operations[id].path, prefix)
  }

  function AfterPrefixes(
    operations: map<string, Operation>, prefixes: seq<string>, warnings: seq<Warning>): seq<Warning> {
    if prefixes == [] then warnings
    else
      var n := |prefixes| - 1;
      Warned(AfterPrefixes(operations, prefixes[..n], warnings), IsUnreflected(operations, prefixes[n]),
        UnreflectedPathPrefix, Some(prefixes[n]))
  }

  function Finish(st: State, prefixes: seq<string>): seq<Warning> {
    AfterPrefixes(st.operations, prefixes, Warned(st.warnings, |st.operations| == 0, Empty, None))
  }

  function SourceOf(scan: ScanReport, target: Option<Module>, openapi: Option<Reconciliation>): Source {
    match target
    case None => Source(scan.adapter, None, FromNothing)
    case Some(m) => Source(scan.adapter, Some(m.name), if openapi.Some? then FromScanAndOpenapi else FromScan)
  }

  function SchemesOf(openapi: Option<Reconciliation>): Option<map<string, Json>> {
    match openapi
    case None => None
    case Some(r) => if |r.securitySchemes| > 0 then Some(r.securitySchemes) else None
  }

  function Assembled(
    featureId: string, featureUid: string, scan: ScanReport, target: Option<Module>, openapi: Option<Reconciliation>,
    st: State): Contract {
    var warnings := Finish(st, scan.prefixCandidates);
    Contract(featureId, featureUid, SourceOf(scan, target, openapi), SchemesOf(openapi), st.operations, warnings,
             Summary(Classify(st.operations, warnings), |st.operations|, st.endpointCount))
  }

  function ContractOf(
    env: Env, featureId: string, featureUid: string, scan: ScanReport, moduleName: string,
    openapi: Option<Reconciliation>): Contract {
    var target := SelectModule(scan, moduleName);
    Assembled(featureId, featureUid, scan, target, openapi, Run(env, SitesOf(target, openapi), Start(target, openapi)))
  }

  // ------------------------------------------------------------------ the program

  method WarnAboutOperation(hasBody: Option<bool>, a: Address, before: seq<Warning>) returns (warnings: seq<Warning>)
    ensures warnings == AfterCopying(a,
      AfterProjecting(a, Warned(before, hasBody.None?, BodyUnknown, Some(a.verb + " " + a.route))))
  {
    var e := a.enrichment;
    warnings := before;
    if hasBody.None? {
      warnings := warnings + [MakeWarning(BodyUnknown, Some(a.verb + " " + a.route))];
    }
    if Given(e.schemaReason) {
      warnings := warnings + [MakeWarning(OpenapiSchemaUnresolved, a.operationId)];
    }
    if Given(e.responseReason) {
      warnings := warnings + [MakeWarning(OpenapiResponseSchemaUnresolved, a.operationId)];
    }
    if Given(e.errorReason) {
      warnings := warnings + [MakeWarning(OpenapiErrorSchemaUnresolved, a.operationId)];
    }
    if e.parametersUnresolved {
      warnings := warnings + [MakeWarning(OpenapiParametersUnresolved, a.operationId)];
    }
    if Given(e.securityReason) {
      warnings := warnings + [MakeWarning(OpenapiSecurityUnresolved, a.operationId)];
    }
    if Given(e.mediaTypesReason) {
      warnings := warnings + [MakeWarning(OpenapiRequestMediaTypeUnresolved, a.operationId)];
    }
    if Given(e.descriptionReason) {
      warnings := warnings + [MakeWarning(OpenapiDescriptionUnresolved, a.operationId)];
    }
  }

  /** The operation object literal. */
  method EmitRecord(
    site: Site, hasBody: Option<bool>, verb: string, route: string, provenance: Provenance, e: Enrichment)
    returns (record: Operation)
    ensures record == RecordFor(site, hasBody, verb, route, provenance, e)
  {
    var pathParams, heuristic := PathParamsSchema(route, e.pathParamSchemas);
    var index := site.ep.declarationIndex;
    var expansion :=
      if index.Some? && index.value < |site.declarations| then Some(site.declarations[index.value]) else None;
    record := Operation(
      verb, route, pathParams, BodyOf(hasBody), provenance,
      e.requestBodySchema, if e.requestBodySchema.Some? then Some(e.requestBodyRequired) else None,
      e.responseSchema, e.errorSchema, Copied(e.copied), heuristic, expansion);
  }

  /** The switch on the kind of the endpoint's resolution. */
  method ApplyResolution(site: Site, before: seq<Warning>)
    returns (operationId: Option<string>, verb: string, route: string, provenance: Provenance, enrichment: Enrichment,
      warnings: seq<Warning>)
    ensures Address(operationId, verb, route, provenance, enrichment) == AddressOf(site)
    ensures warnings == AfterResolution(site, before)
  {
    var ep := site.ep;
    operationId, verb, route := ep.operationId, ep.verb, ep.path;
    provenance := if ep.synthesized then ScanSynthesized else ScanOnly;
    enrichment, warnings := NO_ENRICHMENT, before;
    match site.resolution {
      case Some(Matched(v, p, e)) =>
        verb, route, provenance, enrichment := v, p, ScanAndOpenapi, e;
      case Some(Adopted(id, v, p, e)) =>
        operationId, verb, route, provenance, enrichment := Some(id), v, p, OpenapiOnly, e;
        warnings := warnings + [MakeWarning(OpenapiDerivedOperationId, operationId)];
      case Some(Drift) =>
        warnings := warnings + [MakeWarning(OpenapiDrift, ep.operationId)];
      case Some(Missing) =>
        warnings := warnings + [MakeWarning(OpenapiMissingOperation, ep.operationId)];
      case Some(Ambiguous) =>
        warnings := warnings + [MakeWarning(OpenapiAmbiguous, Label(ep))];
      case Some(Unresolved) =>
        if ep.synthesized {
          warnings := warnings + [MakeWarning(OpenapiMissingOperation, ep.operationId)];
        }
      case _ =>
    }
  }

  /** The body of the endpoint loop; a `return` is the loop's `continue`. */
  method EmitEndpoint(env: Env, site: Site, operations: map<string, Operation>, before: seq<Warning>, ghost count: nat)
    returns (operations': map<string, Operation>, warnings: seq<Warning>)
    ensures State(operations', warnings, count + 1) == Step(env, site, State(operations, before, count))
  {
    var ep := site.ep;
    operations' := operations;
    var operationId, verb, route, provenance, enrichment;
    operationId, verb, route, provenance, enrichment, warnings := ApplyResolution(site, before);
    if site.resolution == Some(Ambiguous) {
      return;
    }
    if !Given(operationId) {
      warnings := warnings + [MakeWarning(UnmatchedEndpoint, Label(ep))];
      return;
    }
    if IsTaken(env, operations, operationId.value) {
      warnings := warnings + [MakeWarning(DuplicateOperationId, operationId)];
      return;
    }
    var hasBody := DetectRequestBody(env, site.file, ep.handler);
    warnings := WarnAboutOperation(hasBody, Address(operationId, verb, route, provenance, enrichment), warnings);
    var record := EmitRecord(site, hasBody, verb, route, provenance, enrichment);
    assert record == RecordOf(env, site) by {
      assert AddressOf(site) == Address(operationId, verb, route, provenance, enrichment);
    }
    operations' := operations[operationId.value := record];
  }

  lemma RunOneMore(env: Env, sites: seq<Site>, site: Site, st: State)
    ensures Run(env, sites + [site], st) == Step(env, site, Run(env, sites, st))
  {
    assert (sites + [site])[..|sites|] == sites;
  }

  /** One more endpoint is one more step of the run. */
  method EmitNext(env: Env, site: Site, operations0: map<string, Operation>, warnings0: seq<Warning>, count0: nat,
                  ghost seen: seq<Site>, ghost start: State)
    returns (operations: map<string, Operation>, warnings: seq<Warning>, endpointCount: nat)
    requires State(operations0, warnings0, count0) == Run(env, seen, start)
    ensures State(operations, warnings, endpointCount) == Run(env, seen + [site], start)
  {
    endpointCount := count0 + 1;
    operations, warnings := EmitEndpoint(env, site, operations0, warnings0, count0);
    RunOneMore(env, seen, site, start);
  }

  /** The inner loop: the endpoints of one controller, `seen` being those before them. */
  method CollectController(env: Env, controllers: seq<Controller>, openapi: Option<Reconciliation>, ci: nat,
                           operations0: map<string, Operation>, warnings0: seq<Warning>, count0: nat,
                           ghost seen: seq<Site>, ghost start: State)
    returns (operations: map<string, Operation>, warnings: seq<Warning>, endpointCount: nat)
    requires ci < |controllers| && State(operations0, warnings0, count0) == Run(env, seen, start)
    ensures State(operations, warnings, endpointCount) ==
      Run(env, seen + ControllerSites(controllers, openapi, ci, |controllers[ci].endpoints|), start)
  {
    operations, warnings, endpointCount := operations0, warnings0, count0;
    var controller := controllers[ci];
    assert seen + ControllerSites(controllers, openapi, ci, 0) == seen;
    for ei := 0 to |controller.endpoints|
      invariant State(operations, warnings, endpointCount) ==
        Run(env, seen + ControllerSites(controllers, openapi, ci, ei), start)
    {
      var site := Site(controller.file, controller.declarations, controller.endpoints[ei], Lookup(openapi, ci, ei));
      assert seen + ControllerSites(controllers, openapi, ci, ei + 1) ==
        seen + ControllerSites(controllers, openapi, ci, ei) + [site];
      operations, warnings, endpointCount :=
        EmitNext(env, site, operations, warnings, endpointCount, seen + ControllerSites(controllers, openapi, ci, ei),
          start);
    }
  }

  /** The endpoint loop. */
  method CollectEndpoints(
    env: Env, controllers: seq<Controller>, openapi: Option<Reconciliation>, initial: seq<Warning>)
    returns (operations: map<string, Operation>, warnings: seq<Warning>, endpointCount: nat)
    ensures State(operations, warnings, endpointCount) ==
      Run(env, Sites(controllers, openapi, |controllers|), State(map[], initial, 0))
  {
    operations, warnings, endpointCount := map[], initial, 0;
    ghost var start := State(map[], initial, 0);
    for ci := 0 to |controllers|
      invariant State(operations, warnings, endpointCount) == Run(env, Sites(controllers, openapi, ci), start)
    {
      operations, warnings, endpointCount :=
        CollectController(env, controllers, openapi, ci, operations, warnings, endpointCount,
          Sites(controllers, openapi, ci), start);
    }
  }

  method BuildContract(
    env: Env, featureId: string, featureUid: string, scan: ScanReport, moduleName: string,
    openapi: Option<Reconciliation>)
    returns (contract: Contract)
    ensures contract == ContractOf(env, featureId, featureUid, scan, moduleName, openapi)
  {
    var target := SelectModule(scan, moduleName);
    var operations: map<string, Operation> := map[];
    var warnings: seq<Warning> := [];
    var endpointCount := 0;

    var annotations := Annotations(openapi);
    for i := 0 to |annotations|
      invariant warnings == Annotated(annotations, i)
    {
      warnings := warnings + [MakeWarning(OpenapiUnsupportedAnnotationPresent, Some(annotations[i]))];
    }

    if target.None? {
      warnings := warnings + [MakeWarning(NoModule, None)];
    } else {
      operations, warnings, endpointCount := CollectEndpoints(env, target.value.controllers, openapi, warnings);
    }
    ghost var st := State(operations, warnings, endpointCount);

    if |operations| == 0 {
      warnings := warnings + [MakeWarning(Empty, None)];
    }
    ghost var w := warnings;
    var prefixes := scan.prefixCandidates;
    for i := 0 to |prefixes|
      invariant warnings == AfterPrefixes(operations, prefixes[..i], w)
    {
      assert prefixes[..i + 1][..i] == prefixes[..i];
      if IsUnreflected(operations, prefixes[i]) {
        warnings := warnings + [MakeWarning(UnreflectedPathPrefix, Some(prefixes[i]))];
      }
    }
    assert prefixes[..|prefixes|] == prefixes;
    assert warnings == Finish(st, prefixes);

    contract := Contract(
      featureId, featureUid,
      SourceOf(scan, target, openapi), SchemesOf(openapi),
      operations, warnings,
      Summary(Classify(operations, warnings), |operations|, endpointCount));
  }
}
