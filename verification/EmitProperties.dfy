/**
  What every run of the contract builder keeps (contracts/emit.mjs).

  All results are about `ContractOf`, which `Emit.BuildContract` computes, over every scan report,
  module choice and reconciliation.
 */
module EmitProperties {
  import opened Prelude
  import opened ContractModel
  import opened WarningCodes
  import opened Completeness
  import opened Emit
  import opened RouteParams

  // ------------------------------------------------------------------ counting warnings

  function CountCode(warnings: seq<Warning>, c: Code): nat {
    if warnings == [] then 0
    else
      var n := |warnings| - 1;
      CountCode(warnings[..n], c) + if warnings[n].code == c then 1 else 0
  }

  function CountSubject(warnings: seq<Warning>, c: Code, id: string): nat {
    if warnings == [] then 0
    else
      var n := |warnings| - 1;
      CountSubject(warnings[..n], c, id) + if warnings[n].code == c && warnings[n].subject == Some(id) then 1 else 0
  }

  predicate HasError(warnings: seq<Warning>) {
    exists w :: w in warnings && w.severity == Error
  }

  lemma WarnedCounts(warnings: seq<Warning>, condition: bool, code: Code, subject: Option<string>, c: Code, id: string)
    ensures var after := Warned(warnings, condition, code, subject);
      && CountCode(after, c) == CountCode(warnings, c) + (if condition && code == c then 1 else 0)
      && CountSubject(after, c, id) ==
         CountSubject(warnings, c, id) + (if condition && code == c && subject == Some(id) then 1 else 0)
      && (HasError(after) <==> HasError(warnings) || (condition && SeverityOf(code) == Error))
      && (Stamped(warnings) ==> Stamped(after))
  {
    if condition {
      var w := MakeWarning(code, subject);
      assert (warnings + [w])[..|warnings|] == warnings;
      assert w in warnings + [w];
      assert forall v :: v in warnings + [w] <==> v in warnings || v == w;
    }
  }

  /** Two logs that agree on everything an error code can say. */
  ghost predicate SameErrors(ws: seq<Warning>, vs: seq<Warning>) {
    && (forall c | SeverityOf(c) == Error :: CountCode(ws, c) == CountCode(vs, c))
    && (forall c, id | SeverityOf(c) == Error :: CountSubject(ws, c, id) == CountSubject(vs, c, id))
    && (HasError(ws) <==> HasError(vs))
    && (Stamped(ws) ==> Stamped(vs))
  }

  /** `after` is `before` with stamped, non-error warnings appended. */
  ghost predicate AddsOnlyWarns(before: seq<Warning>, after: seq<Warning>) {
    && before <= after
    && forall i | |before| <= i < |after| ::
         after[i] == MakeWarning(after[i].code, after[i].subject) && after[i].severity == Warn
  }

  lemma {:induction false} WarnsAreNoErrors(before: seq<Warning>, after: seq<Warning>)
    requires AddsOnlyWarns(before, after)
    ensures SameErrors(before, after)
    decreases |after|
  {
    if |before| < |after| {
      var n := |after| - 1;
      var w := after[n];
      WarnsAreNoErrors(before, after[..n]);
      assert after == Warned(after[..n], true, w.code, w.subject);
      forall c, id
        ensures SeverityOf(c) == Error ==>
          CountCode(after, c) == CountCode(after[..n], c) &&
          CountSubject(after, c, id) == CountSubject(after[..n], c, id)
      {
        WarnedCounts(after[..n], true, w.code, w.subject, c, id);
      }
      WarnedCounts(after[..n], true, w.code, w.subject, w.code, "");
    } else {
      assert before == after;
    }
  }

  lemma WarnedAddsOnlyWarns(
    before: seq<Warning>, after: seq<Warning>, condition: bool, code: Code, subject: Option<string>)
    requires AddsOnlyWarns(before, after) && SeverityOf(code) == Warn
    ensures AddsOnlyWarns(before, Warned(after, condition, code, subject))
  {
  }

  lemma ProjectingAddsOnlyWarns(a: Address, before: seq<Warning>, ws: seq<Warning>)
    requires AddsOnlyWarns(before, ws)
    ensures AddsOnlyWarns(before, AfterProjecting(a, ws))
  {
    var w1 := Warned(ws, Given(a.enrichment.schemaReason), OpenapiSchemaUnresolved, a.operationId);
    var w2 := Warned(w1, Given(a.enrichment.responseReason), OpenapiResponseSchemaUnresolved, a.operationId);
    WarnedAddsOnlyWarns(before, ws, Given(a.enrichment.schemaReason), OpenapiSchemaUnresolved, a.operationId);
    WarnedAddsOnlyWarns(before, w1, Given(a.enrichment.responseReason), OpenapiResponseSchemaUnresolved, a.operationId);
    WarnedAddsOnlyWarns(before, w2, Given(a.enrichment.errorReason), OpenapiErrorSchemaUnresolved, a.operationId);
  }

  lemma CopyingAddsOnlyWarns(a: Address, before: seq<Warning>, ws: seq<Warning>)
    requires AddsOnlyWarns(before, ws)
    ensures AddsOnlyWarns(before, AfterCopying(a, ws))
  {
    var w1 := Warned(ws, a.enrichment.parametersUnresolved, OpenapiParametersUnresolved, a.operationId);
    var w2 := Warned(w1, Given(a.enrichment.securityReason), OpenapiSecurityUnresolved, a.operationId);
    var w3 := Warned(w2, Given(a.enrichment.mediaTypesReason), OpenapiRequestMediaTypeUnresolved, a.operationId);
    WarnedAddsOnlyWarns(before, ws, a.enrichment.parametersUnresolved, OpenapiParametersUnresolved, a.operationId);
    WarnedAddsOnlyWarns(before, w1, Given(a.enrichment.securityReason), OpenapiSecurityUnresolved, a.operationId);
    WarnedAddsOnlyWarns(before, w2, Given(a.enrichment.mediaTypesReason), OpenapiRequestMediaTypeUnresolved,
      a.operationId);
    WarnedAddsOnlyWarns(before, w3, Given(a.enrichment.descriptionReason), OpenapiDescriptionUnresolved, a.operationId);
  }

  /** Recording an operation adds no error warning. */
  lemma RecordingAddsNoError(env: Env, site: Site, warnings: seq<Warning>)
    ensures SameErrors(warnings, AfterRecording(env, site, warnings))
  {
    var a := AddressOf(site);
    var unknown := DetectRequestBody(env, site.file, site.ep.handler).None?;
    var w := Warned(warnings, unknown, BodyUnknown, Some(a.verb + " " + a.route));
    WarnedAddsOnlyWarns(warnings, warnings, unknown, BodyUnknown, Some(a.verb + " " + a.route));
    ProjectingAddsOnlyWarns(a, warnings, w);
    CopyingAddsOnlyWarns(a, warnings, AfterProjecting(a, w));
    WarnsAreNoErrors(warnings, AfterRecording(env, site, warnings));
  }

  // ------------------------------------------------------------------ one step

  /** The id under which an endpoint asks to be recorded. */
  function RequestedId(site: Site): Option<string> {
    var id := AddressOf(site).operationId;
    if site.resolution == Some(Ambiguous) || !Given(id) then None else id
  }

  predicate Recorded(env: Env, site: Site, st: State) {
    RequestedId(site).Some? && !IsTaken(env, st.operations, RequestedId(site).value)
  }

  /** The reconciliation found nothing wrong with this endpoint. */
  predicate Clean(site: Site) {
    match site.resolution
    case Some(Drift) => false
    case Some(Missing) => false
    case Some(Unresolved) => !site.ep.synthesized
    case _ => true
  }

  /** The warnings that stand for an endpoint which did not become an operation. */
  function Lost(warnings: seq<Warning>): nat {
    CountCode(warnings, UnmatchedEndpoint) + CountCode(warnings, DuplicateOperationId) +
      CountCode(warnings, OpenapiAmbiguous)
  }

  /** How the log moves: whether an endpoint is reported as lost, which id as a duplicate (only `id` is
      watched), and whether an error appears. */
  ghost predicate Logged(
    before: seq<Warning>, after: seq<Warning>, id: string, lost: bool, duplicate: Option<string>, error: bool) {
    && Lost(after) == Lost(before) + (if lost then 1 else 0)
    && CountSubject(after, DuplicateOperationId, id) ==
       CountSubject(before, DuplicateOperationId, id) + (if duplicate == Some(id) then 1 else 0)
    && CountCode(after, Empty) == CountCode(before, Empty)
    && (HasError(after) <==> HasError(before) || error)
    && (Stamped(before) ==> Stamped(after))
  }

  /** What one endpoint does to the operations and to the error warnings. */
  ghost predicate Effect(env: Env, site: Site, st: State, after: State, id: string) {
    && after.endpointCount == st.endpointCount + 1
    && after.operations == (if Recorded(env, site, st)
       then st.operations[RequestedId(site).value := RecordOf(env, site)] else st.operations)
    && Logged(st.warnings, after.warnings, id, !Recorded(env, site, st),
              if Recorded(env, site, st) then None else RequestedId(site), !Recorded(env, site, st) || !Clean(site))
  }

  lemma LoggedThen(
    a: seq<Warning>, b: seq<Warning>, c: seq<Warning>, id: string, e: bool, lost: bool, duplicate: Option<string>,
    f: bool)
    requires Logged(a, b, id, false, None, e) && Logged(b, c, id, lost, duplicate, f)
    ensures Logged(a, c, id, lost, duplicate, e || f)
  {
  }

  lemma WarnedLogged(ws: seq<Warning>, condition: bool, code: Code, subject: Option<string>, id: string)
    requires code != Empty
    ensures Logged(ws, Warned(ws, condition, code, subject), id,
                   condition && (code.UnmatchedEndpoint? || code.DuplicateOperationId? || code.OpenapiAmbiguous?),
                   if condition && code.DuplicateOperationId? then subject else None,
                   condition && SeverityOf(code) == Error)
  {
    WarnedCounts(ws, condition, code, subject, UnmatchedEndpoint, id);
    WarnedCounts(ws, condition, code, subject, DuplicateOperationId, id);
    WarnedCounts(ws, condition, code, subject, OpenapiAmbiguous, id);
    WarnedCounts(ws, condition, code, subject, Empty, id);
  }

  /** The one warning that a resolution may leave. */
  lemma ResolutionWarning(site: Site, ws: seq<Warning>) returns (condition: bool, code: Code, subject: Option<string>)
    ensures AfterResolution(site, ws) == Warned(ws, condition, code, subject)
    ensures code in {OpenapiDerivedOperationId, OpenapiDrift, OpenapiMissingOperation, OpenapiAmbiguous}
    ensures condition && code == OpenapiAmbiguous <==> site.resolution == Some(Ambiguous)
    ensures condition && SeverityOf(code) == Error <==> !Clean(site) || site.resolution == Some(Ambiguous)
  {
    code, subject, condition := OpenapiDrift, None, false;
    match site.resolution {
      case Some(Adopted(operationId, _, _, _)) => code, subject, condition := OpenapiDerivedOperationId,
        Some(operationId), true;
      case Some(Drift) => subject, condition := site.ep.operationId, true;
      case Some(Missing) => code, subject, condition := OpenapiMissingOperation, site.ep.operationId, true;
      case Some(Ambiguous) => code, subject, condition := OpenapiAmbiguous, Label(site.ep), true;
      case Some(Unresolved) => code, subject, condition := OpenapiMissingOperation, site.ep.operationId,
        site.ep.synthesized;
      case _ =>
    }
  }

  lemma ResolutionLogged(site: Site, ws: seq<Warning>, id: string)
    ensures Logged(ws, AfterResolution(site, ws), id, site.resolution == Some(Ambiguous), None, !Clean(site) ||
      site.resolution == Some(Ambiguous))
  {
    var condition, code, subject := ResolutionWarning(site, ws);
    WarnedLogged(ws, condition, code, subject, id);
  }

  lemma RecordingLogged(env: Env, site: Site, ws: seq<Warning>, id: string)
    ensures Logged(ws, AfterRecording(env, site, ws), id, false, None, false)
  {
    RecordingAddsNoError(env, site, ws);
  }

  lemma StepEffect(env: Env, site: Site, st: State, id: string)
    ensures Effect(env, site, st, Step(env, site, st), id)
  {
    var ws, w := st.warnings, AfterResolution(site, st.warnings);
    var after := Step(env, site, st).warnings;
    var addressed := AddressOf(site).operationId;
    ResolutionLogged(site, ws, id);
    if site.resolution != Some(Ambiguous) {
      if Recorded(env, site, st) {
        RecordingLogged(env, site, w, id);
        LoggedThen(ws, w, after, id, !Clean(site), false, None, false);
      } else if !Given(addressed) {
        assert after == Warned(w, true, UnmatchedEndpoint, Label(site.ep));
        WarnedLogged(w, true, UnmatchedEndpoint, Label(site.ep), id);
        LoggedThen(ws, w, after, id, !Clean(site), true, None, true);
      } else {
        assert after == Warned(w, true, DuplicateOperationId, addressed);
        WarnedLogged(w, true, DuplicateOperationId, addressed, id);
        LoggedThen(ws, w, after, id, !Clean(site), true, addressed, true);
      }
    }
  }

  // ------------------------------------------------------------------ a whole run

  function Occurrences(sites: seq<Site>, id: string): nat {
    if sites == [] then 0
    else
      var n := |sites| - 1;
      Occurrences(sites[..n], id) + if RequestedId(sites[n]) == Some(id) then 1 else 0
  }

  /** The i-th endpoint is the first one that asks for this id. */
  ghost predicate IsFirst(sites: seq<Site>, i: nat, id: string) {
    && i < |sites|
    && RequestedId(sites[i]) == Some(id)
    && forall j | 0 <= j < i :: RequestedId(sites[j]) != Some(id)
  }

  lemma {:induction false} NotRequested(sites: seq<Site>, id: string, j: nat)
    requires Occurrences(sites, id) == 0 && j < |sites|
    ensures RequestedId(sites[j]) != Some(id)
  {
    var n := |sites| - 1;
    if j < n {
      NotRequested(sites[..n], id, j);
    }
  }

  lemma {:induction false} FirstExists(sites: seq<Site>, id: string)
    ensures Occurrences(sites, id) > 0 <==> exists i: nat :: IsFirst(sites, i, id)
  {
    if sites != [] {
      var n := |sites| - 1;
      FirstExists(sites[..n], id);
      if i: nat :| IsFirst(sites[..n], i, id) {
        assert IsFirst(sites, i, id);
      } else if RequestedId(sites[n]) == Some(id) {
        forall j | 0 <= j < n ensures RequestedId(sites[j]) != Some(id) {
          NotRequested(sites[..n], id, j);
        }
        assert IsFirst(sites, n, id);
      }
      forall i: nat | IsFirst(sites, i, id) && i < n ensures IsFirst(sites[..n], i, id) {
      }
    }
  }

  ghost predicate Fresh(st: State) {
    && st.operations == map[] && st.endpointCount == 0 && Stamped(st.warnings)
    && Lost(st.warnings) == 0 && CountCode(st.warnings, Empty) == 0
    && forall id :: CountSubject(st.warnings, DuplicateOperationId, id) == 0
  }

  /** No endpoint is lost or counted twice, and the error warnings say exactly what went wrong. */
  ghost predicate Balanced(sites: seq<Site>, start: State, st: State) {
    && st.endpointCount == |sites|
    && |sites| == |st.operations| + Lost(st.warnings)
    && CountCode(st.warnings, Empty) == 0
    && (HasError(st.warnings) <==> HasError(start.warnings) || |st.operations| < |sites| || exists site ::
       site in sites && !Clean(site))
    && Stamped(st.warnings)
  }

  lemma BalanceAfter(env: Env, sites: seq<Site>, site: Site, start: State, st: State, after: State)
    requires Balanced(sites, start, st) && Effect(env, site, st, after, "")
    ensures Balanced(sites + [site], start, after)
  {
    assert forall s :: s in sites + [site] <==> s in sites || s == site;
  }

  lemma BalanceStep(env: Env, sites: seq<Site>, site: Site, start: State, st: State)
    requires Balanced(sites, start, st)
    ensures Balanced(sites + [site], start, Step(env, site, st))
  {
    StepEffect(env, site, st, "");
    BalanceAfter(env, sites, site, start, st, Step(env, site, st));
  }

  lemma BalancedAtStart(start: State)
    requires Fresh(start)
    ensures Balanced([], start, start)
  {
  }

  lemma {:induction false} RunBalances(env: Env, sites: seq<Site>, start: State)
    requires Fresh(start)
    ensures Balanced(sites, start, Run(env, sites, start))
  {
    if sites == [] {
      BalancedAtStart(start);
    } else {
      var n := |sites| - 1;
      assert sites == sites[..n] + [sites[n]];
      RunBalances(env, sites[..n], start);
      BalanceStep(env, sites[..n], sites[n], start, Run(env, sites[..n], start));
    }
  }

  /** An id is recorded iff it is requested and not inherited; the first request is the one recorded;
      every further request becomes one duplicate warning. */
  ghost predicate FirstKept(env: Env, sites: seq<Site>, st: State, id: string) {
    && (id in st.operations <==> id !in env.inherited && Occurrences(sites, id) > 0)
    && (forall i: nat :: IsFirst(sites, i, id) && id in st.operations ==> st.operations[id] == RecordOf(env, sites[i]))
    && CountSubject(st.warnings, DuplicateOperationId, id) + (if id in st.operations then 1 else 0) ==
       Occurrences(sites, id)
  }

  lemma FirstKeptStep(env: Env, sites: seq<Site>, site: Site, st: State, after: State, id: string)
    requires FirstKept(env, sites, st, id) && Effect(env, site, st, after, id)
    ensures FirstKept(env, sites + [site], after, id)
  {
    var longer, n := sites + [site], |sites|;
    assert longer[..n] == sites;
    FirstExists(sites, id);
    forall i: nat | IsFirst(longer, i, id) && id in after.operations
      ensures after.operations[id] == RecordOf(env, longer[i]) {
      if i < n {
        assert IsFirst(sites, i, id);
      } else {
        forall k: nat ensures !IsFirst(sites, k, id) {
          assert k < n ==> longer[k] == sites[k];
        }
      }
    }
  }

  lemma FirstKeptNext(env: Env, sites: seq<Site>, site: Site, st: State, id: string)
    requires FirstKept(env, sites, st, id)
    ensures FirstKept(env, sites + [site], Step(env, site, st), id)
  {
    StepEffect(env, site, st, id);
    FirstKeptStep(env, sites, site, st, Step(env, site, st), id);
  }

  lemma {:induction false} RunKeepsFirst(env: Env, sites: seq<Site>, start: State, id: string)
    requires Fresh(start)
    ensures FirstKept(env, sites, Run(env, sites, start), id)
  {
    if sites != [] {
      var n := |sites| - 1;
      assert sites == sites[..n] + [sites[n]];
      RunKeepsFirst(env, sites[..n], start, id);
      FirstKeptNext(env, sites[..n], sites[n], Run(env, sites[..n], start), id);
    }
  }

  /** The warnings before the first endpoint. */
  lemma {:induction false} StartIsFresh(annotations: seq<string>, n: nat, c: Code, id: string)
    requires n <= |annotations|
    ensures var ws := Annotated(annotations, n);
      Stamped(ws) && !HasError(ws) &&
        (c != OpenapiUnsupportedAnnotationPresent ==> CountCode(ws, c) == 0 && CountSubject(ws, c, id) == 0)
  {
    if n > 0 {
      StartIsFresh(annotations, n - 1, c, id);
      var ws := Annotated(annotations, n - 1);
      assert Annotated(annotations, n) ==
        Warned(ws, true, OpenapiUnsupportedAnnotationPresent, Some(annotations[n - 1]));
      WarnedCounts(ws, true, OpenapiUnsupportedAnnotationPresent, Some(annotations[n - 1]), c, id);
    }
  }

  lemma NoModuleCounts(before: seq<Warning>, missing: bool, c: Code, id: string)
    requires c != NoModule && CountCode(before, c) == 0 && CountSubject(before, c, id) == 0 && Stamped(before) &&
      !HasError(before)
    ensures var ws := Warned(before, missing, NoModule, None);
      CountCode(ws, c) == 0 && CountSubject(ws, c, id) == 0 && Stamped(ws) && (HasError(ws) <==> missing)
  {
    WarnedCounts(before, missing, NoModule, None, c, id);
  }

  lemma StartCount(target: Option<Module>, openapi: Option<Reconciliation>, c: Code, id: string)
    requires c != NoModule && c != OpenapiUnsupportedAnnotationPresent
    ensures var ws := Start(target, openapi).warnings;
      && CountCode(ws, c) == 0 && CountSubject(ws, c, id) == 0
      && Stamped(ws) && (HasError(ws) <==> target.None?)
  {
    var annotations := Annotations(openapi);
    var before := Annotated(annotations, |annotations|);
    StartIsFresh(annotations, |annotations|, c, id);
    NoModuleCounts(before, target.None?, c, id);
    assert Start(target, openapi).warnings == Warned(before, target.None?, NoModule, None);
  }

  lemma StartFacts(target: Option<Module>, openapi: Option<Reconciliation>)
    ensures var st := Start(target, openapi);
      Fresh(st) && (HasError(st.warnings) <==> target.None?)
  {
    var annotations := Annotations(openapi);
    forall id ensures CountSubject(Start(target, openapi).warnings, DuplicateOperationId, id) == 0 {
      StartCount(target, openapi, DuplicateOperationId, id);
    }
    StartCount(target, openapi, UnmatchedEndpoint, "");
    StartCount(target, openapi, DuplicateOperationId, "");
    StartCount(target, openapi, OpenapiAmbiguous, "");
    StartCount(target, openapi, Empty, "");
  }

  ghost predicate SomeUnreflected(operations: map<string, Operation>, prefixes: seq<string>) {
    exists i | 0 <= i < |prefixes| :: IsUnreflected(operations, prefixes[i])
  }

  lemma OneMorePrefix(operations: map<string, Operation>, prefixes: seq<string>)
    requires prefixes != []
    ensures var n := |prefixes| - 1;
      SomeUnreflected(operations, prefixes) <==>
        SomeUnreflected(operations, prefixes[..n]) || IsUnreflected(operations, prefixes[n])
  {
    var n := |prefixes| - 1;
    if i :| 0 <= i < |prefixes| && IsUnreflected(operations, prefixes[i]) {
      assert i < n ==> prefixes[..n][i] == prefixes[i];
    }
    if i :| 0 <= i < n && IsUnreflected(operations, prefixes[..n][i]) {
      assert prefixes[i] == prefixes[..n][i];
    }
  }

  lemma {:induction false} PrefixFacts(
    operations: map<string, Operation>, prefixes: seq<string>, ws: seq<Warning>, c: Code, id: string)
    ensures var after := AfterPrefixes(operations, prefixes, ws);
      && (c != UnreflectedPathPrefix ==>
         CountCode(after, c) == CountCode(ws, c) && CountSubject(after, c, id) == CountSubject(ws, c, id))
      && (HasError(after) <==> HasError(ws) || SomeUnreflected(operations, prefixes))
      && (Stamped(ws) ==> Stamped(after))
  {
    if prefixes != [] {
      var n := |prefixes| - 1;
      PrefixFacts(operations, prefixes[..n], ws, c, id);
      OneMorePrefix(operations, prefixes);
      WarnedCounts(AfterPrefixes(operations, prefixes[..n], ws), IsUnreflected(operations, prefixes[n]),
        UnreflectedPathPrefix, Some(prefixes[n]), c, id);
    }
  }

  /** How the final warnings relate to those of the run. */
  lemma FinishFacts(st: State, prefixes: seq<string>, c: Code, id: string)
    ensures var ws := Finish(st, prefixes);
      && (c != UnreflectedPathPrefix && c != Empty ==>
         CountCode(ws, c) == CountCode(st.warnings, c) && CountSubject(ws, c, id) == CountSubject(st.warnings, c, id))
      && CountCode(ws, Empty) == CountCode(st.warnings, Empty) + (if |st.operations| == 0 then 1 else 0)
      && (HasError(ws) <==> HasError(st.warnings) || |st.operations| == 0 || SomeUnreflected(st.operations, prefixes))
      && (Stamped(st.warnings) ==> Stamped(ws))
  {
    var w := Warned(st.warnings, |st.operations| == 0, Empty, None);
    WarnedCounts(st.warnings, |st.operations| == 0, Empty, None, c, id);
    WarnedCounts(st.warnings, |st.operations| == 0, Empty, None, Empty, id);
    PrefixFacts(st.operations, prefixes, w, c, id);
    PrefixFacts(st.operations, prefixes, w, Empty, id);
  }

  // ------------------------------------------------------------------ the emitted contract

  /** What a call of the builder is given. */
  datatype Call = Call(env: Env, featureId: string, featureUid: string, scan: ScanReport, moduleName: string,
    openapi: Option<Reconciliation>)

  function Emitted(call: Call): Contract {
    ContractOf(call.env, call.featureId, call.featureUid, call.scan, call.moduleName, call.openapi)
  }

  function Target(call: Call): Option<Module> {
    SelectModule(call.scan, call.moduleName)
  }

  function Endpoints(call: Call): seq<Site> {
    SitesOf(Target(call), call.openapi)
  }

  function EndState(call: Call): State {
    Run(call.env, Endpoints(call), Start(Target(call), call.openapi))
  }

  function CountEndpoints(controllers: seq<Controller>): nat {
    if controllers == [] then 0
    else CountEndpoints(controllers[..|controllers| - 1]) + |controllers[|controllers| - 1].endpoints|
  }

  lemma {:induction false} SitesAreAllEndpoints(controllers: seq<Controller>, openapi: Option<Reconciliation>, n: nat)
    requires n <= |controllers|
    ensures |Sites(controllers, openapi, n)| == CountEndpoints(controllers[..n])
  {
    if n > 0 {
      SitesAreAllEndpoints(controllers, openapi, n - 1);
      assert controllers[..n][..n - 1] == controllers[..n - 1];
    }
  }

  /** Endpoint conservation: the endpoints of the selected module, counted one by one, are the
      operations plus the unmatched, duplicate and ambiguous ones. */
  lemma EndpointsAreConserved(call: Call)
    ensures var c := Emitted(call);
      && c.completeness.endpointCount ==
           c.completeness.operationCount + CountCode(c.warnings, UnmatchedEndpoint)
           + CountCode(c.warnings, DuplicateOperationId) + CountCode(c.warnings, OpenapiAmbiguous)
      && c.completeness.operationCount == |c.operations|
      && c.completeness.endpointCount ==
         (match Target(call) case None => 0 case Some(m) => CountEndpoints(m.controllers))
  {
    StartFacts(Target(call), call.openapi);
    RunBalances(call.env, Endpoints(call), Start(Target(call), call.openapi));
    FinishFacts(EndState(call), call.scan.prefixCandidates, UnmatchedEndpoint, "");
    FinishFacts(EndState(call), call.scan.prefixCandidates, DuplicateOperationId, "");
    FinishFacts(EndState(call), call.scan.prefixCandidates, OpenapiAmbiguous, "");
    if Target(call).Some? {
      var controllers := Target(call).value.controllers;
      SitesAreAllEndpoints(controllers, call.openapi, |controllers|);
      assert controllers[..|controllers|] == controllers;
    }
  }

  /** First occurrence wins. */
  lemma FirstOccurrenceWins(call: Call, id: string)
    ensures var c := Emitted(call);
      && (id in c.operations <==> id !in call.env.inherited && exists i: nat :: IsFirst(Endpoints(call), i, id))
      && (forall i: nat :: IsFirst(Endpoints(call), i, id) && id in c.operations ==>
         c.operations[id] == RecordOf(call.env, Endpoints(call)[i]))
      && CountSubject(c.warnings, DuplicateOperationId, id) ==
         Occurrences(Endpoints(call), id) - (if id in c.operations then 1 else 0)
  {
    StartFacts(Target(call), call.openapi);
    RunKeepsFirst(call.env, Endpoints(call), Start(Target(call), call.openapi), id);
    FirstExists(Endpoints(call), id);
    FinishFacts(EndState(call), call.scan.prefixCandidates, DuplicateOperationId, id);
  }

  // ------------------------------------------------------------------ what could not be projected

  /** The codes about one operation's schemas and copied fields. */
  predicate IsProjectionCode(c: Code) {
    match c
    case OpenapiSchemaUnresolved | OpenapiResponseSchemaUnresolved | OpenapiErrorSchemaUnresolved => true
    case OpenapiParametersUnresolved | OpenapiSecurityUnresolved => true
    case OpenapiRequestMediaTypeUnresolved | OpenapiDescriptionUnresolved => true
    case _ => false
  }

  predicate SchemaReason(e: Enrichment, c: Code) {
    || (Given(e.schemaReason) && c == OpenapiSchemaUnresolved)
    || (Given(e.responseReason) && c == OpenapiResponseSchemaUnresolved)
    || (Given(e.errorReason) && c == OpenapiErrorSchemaUnresolved)
  }

  predicate ParameterReason(e: Enrichment, c: Code) {
    || (e.parametersUnresolved && c == OpenapiParametersUnresolved)
    || (Given(e.securityReason) && c == OpenapiSecurityUnresolved)
  }

  predicate CopyReason(e: Enrichment, c: Code) {
    || ParameterReason(e, c)
    || (Given(e.mediaTypesReason) && c == OpenapiRequestMediaTypeUnresolved)
    || (Given(e.descriptionReason) && c == OpenapiDescriptionUnresolved)
  }

  /** The reconciliation gives a reason to warn with this code. */
  predicate HasReason(e: Enrichment, c: Code) {
    SchemaReason(e, c) || CopyReason(e, c)
  }

  /** `after` is `ws` with at most one warning more: one with code c and this subject, if `here`. */
  ghost predicate AddsOne(
    ws: seq<Warning>, after: seq<Warning>, c: Code, id: string, subject: Option<string>, here: bool) {
    && CountSubject(after, c, id) == CountSubject(ws, c, id) + (if here && subject == Some(id) then 1 else 0)
    && CountCode(after, c) == CountCode(ws, c) + (if here then 1 else 0)
  }

  lemma WarnedAddsOne(ws: seq<Warning>, condition: bool, code: Code, subject: Option<string>, c: Code, id: string)
    ensures AddsOne(ws, Warned(ws, condition, code, subject), c, id, subject, condition && code == c)
  {
    WarnedCounts(ws, condition, code, subject, c, id);
  }

  lemma AddsOneThen(
    a: seq<Warning>, b: seq<Warning>, d: seq<Warning>, c: Code, id: string, subject: Option<string>, p: bool, q: bool)
    requires AddsOne(a, b, c, id, subject, p) && AddsOne(b, d, c, id, subject, q) && !(p && q)
    ensures AddsOne(a, d, c, id, subject, p || q)
  {
  }

  lemma TwoWarnings(
    ws: seq<Warning>, p: bool, first: Code, q: bool, second: Code, subject: Option<string>, c: Code, id: string)
    requires first != second
    ensures AddsOne(ws, Warned(Warned(ws, p, first, subject), q, second, subject), c, id, subject, (p && first == c) ||
      (q && second == c))
  {
    var w := Warned(ws, p, first, subject);
    WarnedAddsOne(ws, p, first, subject, c, id);
    WarnedAddsOne(w, q, second, subject, c, id);
    AddsOneThen(ws, w, Warned(w, q, second, subject), c, id, subject, p && first == c, q && second == c);
  }

  lemma ProjectingCounts(a: Address, ws: seq<Warning>, c: Code, id: string)
    ensures AddsOne(ws, AfterProjecting(a, ws), c, id, a.operationId, SchemaReason(a.enrichment, c))
  {
    var e, subject := a.enrichment, a.operationId;
    var b1, b2, b3 := Given(e.schemaReason), Given(e.responseReason), Given(e.errorReason);
    var w2 := Warned(Warned(ws, b1, OpenapiSchemaUnresolved, subject), b2, OpenapiResponseSchemaUnresolved, subject);
    TwoWarnings(ws, b1, OpenapiSchemaUnresolved, b2, OpenapiResponseSchemaUnresolved, subject, c, id);
    WarnedAddsOne(w2, b3, OpenapiErrorSchemaUnresolved, subject, c, id);
    AddsOneThen(ws, w2, AfterProjecting(a, ws), c, id, subject,
                (b1 && OpenapiSchemaUnresolved == c) || (b2 && OpenapiResponseSchemaUnresolved == c),
                b3 && OpenapiErrorSchemaUnresolved == c);
  }

  lemma ParameterCounts(a: Address, ws: seq<Warning>, c: Code, id: string)
    ensures AddsOne(ws, AfterParameters(a, ws), c, id, a.operationId, ParameterReason(a.enrichment, c))
  {
    TwoWarnings(ws, a.enrichment.parametersUnresolved, OpenapiParametersUnresolved,
                Given(a.enrichment.securityReason), OpenapiSecurityUnresolved, a.operationId, c, id);
  }

  lemma TextCounts(e: Enrichment, subject: Option<string>, ws: seq<Warning>, c: Code, id: string)
    ensures var w := Warned(ws, Given(e.mediaTypesReason), OpenapiRequestMediaTypeUnresolved, subject);
      AddsOne(ws, Warned(w, Given(e.descriptionReason), OpenapiDescriptionUnresolved, subject), c, id, subject,
        (Given(e.mediaTypesReason) && OpenapiRequestMediaTypeUnresolved == c) ||
        (Given(e.descriptionReason) && OpenapiDescriptionUnresolved == c))
  {
    TwoWarnings(ws, Given(e.mediaTypesReason), OpenapiRequestMediaTypeUnresolved,
                Given(e.descriptionReason), OpenapiDescriptionUnresolved, subject, c, id);
  }

  lemma CopyingCounts(a: Address, ws: seq<Warning>, c: Code, id: string)
    ensures AddsOne(ws, AfterCopying(a, ws), c, id, a.operationId, CopyReason(a.enrichment, c))
  {
    var e := a.enrichment;
    ParameterCounts(a, ws, c, id);
    TextCounts(e, a.operationId, AfterParameters(a, ws), c, id);
    AddsOneThen(ws, AfterParameters(a, ws), AfterCopying(a, ws), c, id, a.operationId, ParameterReason(e, c),
                (Given(e.mediaTypesReason) && OpenapiRequestMediaTypeUnresolved == c) ||
                (Given(e.descriptionReason) && OpenapiDescriptionUnresolved == c));
  }

  /** Recording an operation reports each reason once, and an unknown body once. */
  lemma RecordingCounts(env: Env, site: Site, ws: seq<Warning>, c: Code, id: string)
    requires IsProjectionCode(c)
    ensures var after := AfterRecording(env, site, ws);
      && CountSubject(after, c, id) == CountSubject(ws, c, id)
           + (if AddressOf(site).operationId == Some(id) && HasReason(AddressOf(site).enrichment, c) then 1 else 0)
      && CountCode(after, BodyUnknown) ==
         CountCode(ws, BodyUnknown) + (if RecordOf(env, site).body == Unknown then 1 else 0)
  {
    var a := AddressOf(site);
    var unknown := DetectRequestBody(env, site.file, site.ep.handler).None?;
    var w := Warned(ws, unknown, BodyUnknown, Some(a.verb + " " + a.route));
    WarnedCounts(ws, unknown, BodyUnknown, Some(a.verb + " " + a.route), c, id);
    WarnedCounts(ws, unknown, BodyUnknown, Some(a.verb + " " + a.route), BodyUnknown, id);
    ProjectingCounts(a, w, c, id);
    ProjectingCounts(a, w, BodyUnknown, id);
    CopyingCounts(a, AfterProjecting(a, w), c, id);
    CopyingCounts(a, AfterProjecting(a, w), BodyUnknown, id);
  }

  lemma ResolutionCounts(site: Site, ws: seq<Warning>, c: Code, id: string)
    requires IsProjectionCode(c) || c == BodyUnknown
    ensures var after := AfterResolution(site, ws);
      CountSubject(after, c, id) == CountSubject(ws, c, id) && CountCode(after, c) == CountCode(ws, c)
  {
    var condition, code, subject := ResolutionWarning(site, ws);
    WarnedCounts(ws, condition, code, subject, c, id);
  }

  /** The rest of a step says nothing with these codes. */
  lemma StepCounts(env: Env, site: Site, st: State, c: Code, id: string)
    requires IsProjectionCode(c)
    ensures var after := Step(env, site, st).warnings;
      && CountSubject(after, c, id) == CountSubject(st.warnings, c, id)
           + (if Recorded(env, site, st) && RequestedId(site) == Some(id) && HasReason(AddressOf(site).enrichment, c)
              then 1 else 0)
      && CountCode(after, BodyUnknown) == CountCode(st.warnings, BodyUnknown)
           + (if Recorded(env, site, st) && RecordOf(env, site).body == Unknown then 1 else 0)
  {
    var w := AfterResolution(site, st.warnings);
    var addressed := AddressOf(site).operationId;
    ResolutionCounts(site, st.warnings, c, id);
    ResolutionCounts(site, st.warnings, BodyUnknown, id);
    if site.resolution != Some(Ambiguous) {
      if Recorded(env, site, st) {
        RecordingCounts(env, site, w, c, id);
      } else {
        var code, subject := if Given(addressed) then DuplicateOperationId else UnmatchedEndpoint,
          if Given(addressed) then addressed else Label(site.ep);
        assert Step(env, site, st).warnings == Warned(w, true, code, subject);
        WarnedCounts(w, true, code, subject, c, id);
        WarnedCounts(w, true, code, subject, BodyUnknown, id);
      }
    }
  }

  /** Some first endpoint asking for this id has a reason. */
  ghost predicate SomeReason(sites: seq<Site>, c: Code, id: string) {
    exists i: nat :: IsFirst(sites, i, id) && HasReason(AddressOf(sites[i]).enrichment, c)
  }

  ghost predicate Reported(sites: seq<Site>, st: State, c: Code, id: string) {
    CountSubject(st.warnings, c, id) == if id in st.operations && SomeReason(sites, c, id) then 1 else 0
  }

  lemma FirstOfLonger(sites: seq<Site>, site: Site, i: nat, id: string)
    ensures IsFirst(sites + [site], i, id) <==>
      IsFirst(sites, i, id) || (i == |sites| && RequestedId(site) == Some(id) && Occurrences(sites, id) == 0)
  {
    var longer := sites + [site];
    FirstExists(sites, id);
    assert forall j | 0 <= j < |sites| :: longer[j] == sites[j];
    if i == |sites| && RequestedId(site) == Some(id) && Occurrences(sites, id) == 0 {
      forall j: nat | j < i ensures RequestedId(longer[j]) != Some(id) {
        NotRequested(sites, id, j);
      }
    }
  }

  lemma AllFirstOfLonger(sites: seq<Site>, site: Site, id: string)
    ensures forall i: nat :: IsFirst(sites + [site], i, id) <==>
      IsFirst(sites, i, id) || (i == |sites| && RequestedId(site) == Some(id) && Occurrences(sites, id) == 0)
  {
    forall i: nat ensures IsFirst(sites + [site], i, id) <==>
      IsFirst(sites, i, id) || (i == |sites| && RequestedId(site) == Some(id) && Occurrences(sites, id) == 0)
    {
      FirstOfLonger(sites, site, i, id);
    }
  }

  lemma SomeReasonStep(sites: seq<Site>, site: Site, c: Code, id: string)
    ensures SomeReason(sites + [site], c, id) <==>
      if RequestedId(site) == Some(id) && Occurrences(sites, id) == 0
      then HasReason(AddressOf(site).enrichment, c) else SomeReason(sites, c, id)
    ensures Occurrences(sites, id) == 0 ==> !SomeReason(sites, c, id)
  {
    var longer, n := sites + [site], |sites|;
    FirstExists(sites, id);
    AllFirstOfLonger(sites, site, id);
    assert longer[n] == site && forall i: nat :: IsFirst(sites, i, id) ==> longer[i] == sites[i];
    if RequestedId(site) == Some(id) && Occurrences(sites, id) == 0 {
      assert IsFirst(longer, n, id);
    } else if i: nat :| IsFirst(sites, i, id) && HasReason(AddressOf(sites[i]).enrichment, c) {
      assert IsFirst(longer, i, id);
    }
  }

  lemma ReportedStep(env: Env, sites: seq<Site>, site: Site, st: State, c: Code, id: string)
    requires FirstKept(env, sites, st, id) && Reported(sites, st, c, id) && IsProjectionCode(c)
    ensures Reported(sites + [site], Step(env, site, st), c, id)
  {
    StepCounts(env, site, st, c, id);
    StepEffect(env, site, st, id);
    SomeReasonStep(sites, site, c, id);
  }

  lemma {:induction false} RunReports(env: Env, sites: seq<Site>, start: State, c: Code, id: string)
    requires Fresh(start) && IsProjectionCode(c) && CountSubject(start.warnings, c, id) == 0
    ensures Reported(sites, Run(env, sites, start), c, id)
  {
    if sites != [] {
      var n := |sites| - 1;
      assert sites == sites[..n] + [sites[n]];
      RunReports(env, sites[..n], start, c, id);
      RunKeepsFirst(env, sites[..n], start, id);
      ReportedStep(env, sites[..n], sites[n], Run(env, sites[..n], start), c, id);
    }
  }

  /** An emitted contract reports a schema or field of an operation as unresolved once, under the
      operation's id, exactly when the reconciliation of its first endpoint gave the reason; never for an
      id that is not an operation. */
  lemma UnresolvedReportsAreExact(call: Call, c: Code, id: string)
    requires IsProjectionCode(c)
    ensures CountSubject(Emitted(call).warnings, c, id) ==
      if id in Emitted(call).operations && SomeReason(Endpoints(call), c, id) then 1 else 0
  {
    StartFacts(Target(call), call.openapi);
    StartCount(Target(call), call.openapi, c, id);
    RunReports(call.env, Endpoints(call), Start(Target(call), call.openapi), c, id);
    FinishFacts(EndState(call), call.scan.prefixCandidates, c, id);
  }

  /** The operations whose body nothing is known about. */
  function UnknownBodies(operations: map<string, Operation>): set<string> {
    set id | id in operations && operations[id].body == Unknown
  }

  lemma OneMoreBody(operations: map<string, Operation>, id: string, op: Operation)
    requires id !in operations
    ensures |UnknownBodies(operations[id := op])| == |UnknownBodies(operations)| + if op.body == Unknown then 1 else 0
  {
    assert UnknownBodies(operations[id := op]) == UnknownBodies(operations) + if op.body == Unknown then {id} else {};
  }

  lemma {:induction false} RunCountsBodies(env: Env, sites: seq<Site>, start: State)
    requires start.operations == map[] && CountCode(start.warnings, BodyUnknown) == 0
    ensures var st := Run(env, sites, start); CountCode(st.warnings, BodyUnknown) == |UnknownBodies(st.operations)|
  {
    if sites != [] {
      var n := |sites| - 1;
      var st, site := Run(env, sites[..n], start), sites[n];
      RunCountsBodies(env, sites[..n], start);
      StepCounts(env, site, st, OpenapiSchemaUnresolved, "");
      StepEffect(env, site, st, "");
      if Recorded(env, site, st) {
        OneMoreBody(st.operations, RequestedId(site).value, RecordOf(env, site));
      }
    }
  }

  /** As many unknown bodies are reported as there are operations with one. */
  lemma UnknownBodiesAreReported(call: Call)
    ensures CountCode(Emitted(call).warnings, BodyUnknown) == |UnknownBodies(Emitted(call).operations)|
  {
    StartFacts(Target(call), call.openapi);
    StartCount(Target(call), call.openapi, BodyUnknown, "");
    RunCountsBodies(call.env, Endpoints(call), Start(Target(call), call.openapi));
    FinishFacts(EndState(call), call.scan.prefixCandidates, BodyUnknown, "");
  }

  // ------------------------------------------------------------------ what a record says

  /** The fields of a record fit together. */
  predicate Consistent(op: Operation) {
    && (op.requestBodyRequired.Some? <==> op.requestBodySchema.Some?)
    && op.pathParams.required == Scan(op.path)
    && op.pathParams.properties.Keys == (set name | name in Scan(op.path))
    && (op.pathParamsHeuristic.Some? ==>
       op.pathParamsHeuristic.value != [] && forall name | name in op.pathParamsHeuristic.value ::
       name in Scan(op.path))
    && op.pathParams.defs.NoDefs? && op.pathParams.ref.None?
    && op.copied.summary != Some("") && op.copied.description != Some("")
  }

  /** Every operation of an emitted contract is consistent: whether a body is required is said iff its
      schema is known, the parameters are those of its own path, a heuristic name is one of them, no
      blank text is copied, and the parameter schema has no definitions of its own. */
  lemma EmittedRecordsAreConsistent(call: Call, id: string)
    requires id in Emitted(call).operations
    ensures Consistent(Emitted(call).operations[id])
  {
    FirstOccurrenceWins(call, id);
    var i: nat :| IsFirst(Endpoints(call), i, id);
  }

  /** The record's provenance tells where its id, verb and path come from. */
  ghost predicate Honest(site: Site, id: string, op: Operation) {
    match op.provenance
    case OpenapiOnly => (match site.resolution
      case Some(Adopted(operationId, verb, path, _)) => id == operationId && op.verb == verb && op.path == path
      case _ => false)
    case ScanAndOpenapi => site.ep.operationId == Some(id) && (match site.resolution
      case Some(Matched(verb, path, _)) => op.verb == verb && op.path == path
      case _ => false)
    case _ =>
      && site.ep.operationId == Some(id) && op.verb == site.ep.verb && op.path == site.ep.path
      && (op.provenance == ScanSynthesized <==> site.ep.synthesized)
      && op.requestBodySchema.None? && op.responseSchema.None? && op.errorSchema.None? && op.copied == NOTHING_COPIED
  }

  lemma HonestRecord(env: Env, site: Site, id: string)
    requires RequestedId(site) == Some(id)
    ensures Honest(site, id, RecordOf(env, site))
  {
  }

  /** Provenance is honest: an operation called `openapi` has the id, verb and path of the document, one
      called `scan+openapi` the scan's id at the document's address, and any other the scan's own values
      and nothing projected or copied from a document. */
  lemma ProvenanceIsHonest(call: Call, id: string)
    requires id in Emitted(call).operations
    ensures exists i: nat ::
      IsFirst(Endpoints(call), i, id) && Honest(Endpoints(call)[i], id, Emitted(call).operations[id])
  {
    FirstOccurrenceWins(call, id);
    var i: nat :| IsFirst(Endpoints(call), i, id);
    HonestRecord(call.env, Endpoints(call)[i], id);
  }

  lemma StatusFacts(call: Call)
    ensures var c := Emitted(call);
      && Stamped(c.warnings)
      && CountCode(c.warnings, Empty) == (if c.operations == map[] then 1 else 0)
      && (HasError(c.warnings) <==>
            || c.operations == map[]
            || |c.operations| < c.completeness.endpointCount
            || (exists site :: site in Endpoints(call) && !Clean(site))
            || (exists i | 0 <= i < |call.scan.prefixCandidates| ::
               IsUnreflected(c.operations, call.scan.prefixCandidates[i])))
  {
    StartFacts(Target(call), call.openapi);
    RunBalances(call.env, Endpoints(call), Start(Target(call), call.openapi));
    FinishFacts(EndState(call), call.scan.prefixCandidates, Empty, "");
    if Target(call).None? {
      assert Endpoints(call) == [];
    }
  }

  /** `complete` means complete: there is an operation, every endpoint became one, none of them was
      reconciled as drift or missing nor kept an unresolved synthesized id, and every path is under
      every prefix the scan found. */
  lemma CompleteMeansComplete(call: Call)
    ensures var c := Emitted(call);
      c.completeness.status == Complete <==>
        && c.operations != map[]
        && |c.operations| == c.completeness.endpointCount
        && (forall site :: site in Endpoints(call) ==> Clean(site))
        && (forall i | 0 <= i < |call.scan.prefixCandidates| ::
           !IsUnreflected(c.operations, call.scan.prefixCandidates[i]))
  {
    StatusFacts(call);
    EndpointsAreConserved(call);
  }

  /** `blocked` is the same as having the warning that says so; and since every severity is stamped
      from the table, a verdict that rereads the table agrees with one that trusts the stamps. */
  lemma BlockedMeansEmpty(call: Call, names: Naming, waivers: seq<Waiver>, now: int)
    ensures var c := Emitted(call);
      && (c.completeness.status == Blocked <==> CountCode(c.warnings, Empty) > 0)
      && EvaluateResolution(names, c.(warnings := Restamped(c.warnings)), waivers, now) ==
         EvaluateResolution(names, c, waivers, now)
      && EvaluateResolution(names, c, waivers, now).status == c.completeness.status
  {
    StatusFacts(call);
    StampAgreesWithTableIff(names, Emitted(call), waivers, now);
  }
}
