/**
  Which warnings an emitted contract holds (contracts/emit.mjs), code by code and in order, with the subjects
  that their waivers are recorded under.
 */
module EmittedLog {
  import opened Prelude
  import opened ContractModel
  import opened WarningCodes
  import opened Completeness
  import opened Emit
  import opened EmitProperties
  import opened EmittedRecords

  /** The subjects of the warnings with one code, in order. */
  function Subjects(warnings: seq<Warning>, c: Code): seq<Option<string>> {
    if warnings == [] then []
    else
      var n := |warnings| - 1;
      Subjects(warnings[..n], c) + if warnings[n].code == c then [warnings[n].subject] else []
  }

  /** At most one subject. */
  function If(condition: bool, subject: Option<string>): seq<Option<string>> {
    if condition then [subject] else []
  }

  // ------------------------------------------------------------------ what an endpoint is warned about

  /** Some endpoint before this one asks for the id, or every object inherits it. */
  ghost predicate IsGone(env: Env, sites: seq<Site>, i: nat, id: string)
    requires i <= |sites|
  {
    id in env.inherited || exists j | 0 <= j < i :: RequestedId(sites[j]) == Some(id)
  }

  /** The endpoint becomes an operation. */
  ghost predicate Becomes(env: Env, sites: seq<Site>, i: nat)
    requires i < |sites|
  {
    RequestedId(sites[i]).Some? && !IsGone(env, sites, i, RequestedId(sites[i]).value)
  }

  /** What the scan calls the endpoint. */
  function ScanLabel(site: Site): Option<string> {
    Some(site.ep.verb + " " + site.ep.path)
  }

  /** What the contract calls it: by the document's address where it was matched or adopted. */
  function RecordLabel(site: Site): Option<string> {
    match site.resolution
    case Some(Matched(verb, path, _)) => Some(verb + " " + path)
    case Some(Adopted(_, verb, path, _)) => Some(verb + " " + path)
    case _ => ScanLabel(site)
  }

  function Brought(site: Site): Enrichment {
    match site.resolution
    case Some(Matched(_, _, e)) => e
    case Some(Adopted(_, _, _, e)) => e
    case _ => NO_ENRICHMENT
  }

  /** What its entry of the reconciliation is warned about by itself. */
  function ByResolution(site: Site, c: Code): seq<Option<string>> {
    match c
    case OpenapiDerivedOperationId =>
      (match site.resolution case Some(Adopted(operationId, _, _, _)) => [Some(operationId)] case _ => [])
    case OpenapiDrift => If(site.resolution == Some(Drift), site.ep.operationId)
    case OpenapiMissingOperation =>
      If(site.resolution == Some(Missing) ||
        (site.resolution == Some(Unresolved) && site.ep.synthesized), site.ep.operationId)
    case OpenapiAmbiguous => If(site.resolution == Some(Ambiguous), ScanLabel(site))
    case _ => []
  }

  predicate Says(reason: Option<string>) {
    reason != None && reason != Some("")
  }

  /** A reason to warn about one of the operation's schemas or copied fields. */
  predicate ReasonFor(e: Enrichment, c: Code) {
    match c
    case OpenapiSchemaUnresolved => Says(e.schemaReason)
    case OpenapiResponseSchemaUnresolved => Says(e.responseReason)
    case OpenapiErrorSchemaUnresolved => Says(e.errorReason)
    case OpenapiParametersUnresolved => e.parametersUnresolved
    case OpenapiSecurityUnresolved => Says(e.securityReason)
    case OpenapiRequestMediaTypeUnresolved => Says(e.mediaTypesReason)
    case OpenapiDescriptionUnresolved => Says(e.descriptionReason)
    case _ => false
  }

  /** What the operation is warned about that the endpoint becomes. */
  ghost function ByRecord(env: Env, site: Site, c: Code): seq<Option<string>> {
    if c == BodyUnknown then If(Answer(env, site).None?, RecordLabel(site))
    else If(ReasonFor(Brought(site), c), RequestedId(site))
  }

  /** How an endpoint is reported that becomes none; an ambiguous one has been reported already. */
  function ByLoss(site: Site, c: Code): seq<Option<string>> {
    if site.resolution == Some(Ambiguous) then []
    else if RequestedId(site).None? then If(c == UnmatchedEndpoint, ScanLabel(site))
    else If(c == DuplicateOperationId, RequestedId(site))
  }

  /** The subjects under which the i-th endpoint is warned about with code c. */
  ghost function Told(env: Env, sites: seq<Site>, i: nat, c: Code): seq<Option<string>>
    requires i < |sites|
  {
    ByResolution(sites[i], c) + if Becomes(env, sites, i) then ByRecord(env, sites[i], c) else ByLoss(sites[i], c)
  }

  /** The same for all endpoints, one by one. */
  ghost function ToldEach(env: Env, sites: seq<Site>, c: Code): seq<seq<Option<string>>> {
    seq(|sites|, i requires 0 <= i < |sites| => Told(env, sites, i, c))
  }

  function Concat<T>(parts: seq<seq<T>>): seq<T> {
    if parts == [] then [] else Concat(parts[..|parts| - 1]) + parts[|parts| - 1]
  }

  // ------------------------------------------------------------------ one step

  lemma WarnedSubjects(ws: seq<Warning>, condition: bool, code: Code, subject: Option<string>, c: Code)
    ensures Subjects(Warned(ws, condition, code, subject), c) == Subjects(ws, c) + If(condition && code == c, subject)
  {
    if condition {
      assert (ws + [MakeWarning(code, subject)])[..|ws|] == ws;
    }
  }

  lemma ProjectingSubjects(a: Address, ws: seq<Warning>, c: Code)
    ensures Subjects(AfterProjecting(a, ws), c) == Subjects(ws, c) + If(SchemaReason(a.enrichment, c), a.operationId)
  {
    var e := a.enrichment;
    var w1 := Warned(ws, Given(e.schemaReason), OpenapiSchemaUnresolved, a.operationId);
    var w2 := Warned(w1, Given(e.responseReason), OpenapiResponseSchemaUnresolved, a.operationId);
    WarnedSubjects(ws, Given(e.schemaReason), OpenapiSchemaUnresolved, a.operationId, c);
    WarnedSubjects(w1, Given(e.responseReason), OpenapiResponseSchemaUnresolved, a.operationId, c);
    WarnedSubjects(w2, Given(e.errorReason), OpenapiErrorSchemaUnresolved, a.operationId, c);
  }

  lemma TwoMore(ws: seq<Warning>, p: bool, first: Code, q: bool, second: Code, subject: Option<string>, c: Code)
    requires first != second
    ensures Subjects(Warned(Warned(ws, p, first, subject), q, second, subject), c) ==
      Subjects(ws, c) + If((p && first == c) || (q && second == c), subject)
  {
    WarnedSubjects(ws, p, first, subject, c);
    WarnedSubjects(Warned(ws, p, first, subject), q, second, subject, c);
  }

  lemma ParameterSubjects(a: Address, ws: seq<Warning>, c: Code)
    ensures Subjects(AfterParameters(a, ws), c) == Subjects(ws, c) + If(ParameterReason(a.enrichment, c), a.operationId)
  {
    var e := a.enrichment;
    TwoMore(ws, e.parametersUnresolved, OpenapiParametersUnresolved, Given(e.securityReason), OpenapiSecurityUnresolved,
      a.operationId, c);
  }

  predicate TextReason(e: Enrichment, c: Code) {
    || (Given(e.mediaTypesReason) && OpenapiRequestMediaTypeUnresolved == c)
    || (Given(e.descriptionReason) && OpenapiDescriptionUnresolved == c)
  }

  lemma CopyingSubjects(a: Address, ws: seq<Warning>, c: Code)
    ensures Subjects(AfterCopying(a, ws), c) ==
      Subjects(ws, c) + If(ParameterReason(a.enrichment, c), a.operationId) +
        If(TextReason(a.enrichment, c), a.operationId)
  {
    var e := a.enrichment;
    ParameterSubjects(a, ws, c);
    TwoMore(AfterParameters(a, ws), Given(e.mediaTypesReason), OpenapiRequestMediaTypeUnresolved,
      Given(e.descriptionReason), OpenapiDescriptionUnresolved, a.operationId, c);
  }

  lemma ReasonsAre(e: Enrichment, c: Code, subject: Option<string>)
    ensures If(SchemaReason(e, c), subject) + If(ParameterReason(e, c), subject) + If(TextReason(e, c), subject) ==
      If(ReasonFor(e, c), subject)
  {
    assert ReasonFor(e, c) <==> SchemaReason(e, c) || ParameterReason(e, c) || TextReason(e, c);
    assert !(SchemaReason(e, c) && ParameterReason(e, c)) && !(SchemaReason(e, c) && TextReason(e, c));
    assert !(ParameterReason(e, c) && TextReason(e, c));
  }

  lemma RecordedAs(env: Env, site: Site)
    ensures var a := AddressOf(site);
      && Some(a.verb + " " + a.route) == RecordLabel(site) && a.enrichment == Brought(site)
      && (DetectRequestBody(env, site.file, site.ep.handler).None? <==> Answer(env, site).None?)
  {
  }

  lemma Regroup<T>(ws: seq<T>, a: seq<T>, b: seq<T>, c: seq<T>, d: seq<T>)
    ensures ws + a + b + c + d == ws + (a + (b + c + d))
  {
  }

  lemma RecordingSubjects(env: Env, site: Site, ws: seq<Warning>, c: Code)
    requires RequestedId(site).Some?
    ensures Subjects(AfterRecording(env, site, ws), c) == Subjects(ws, c) + ByRecord(env, site, c)
  {
    var a, e := AddressOf(site), AddressOf(site).enrichment;
    var unknown := Answer(env, site).None?;
    var w := Warned(ws, unknown, BodyUnknown, RecordLabel(site));
    RecordedAs(env, site);
    WarnedSubjects(ws, unknown, BodyUnknown, RecordLabel(site), c);
    ProjectingSubjects(a, w, c);
    CopyingSubjects(a, AfterProjecting(a, w), c);
    ReasonsAre(e, c, a.operationId);
    Regroup(Subjects(ws, c), If(unknown && BodyUnknown == c, RecordLabel(site)), If(SchemaReason(e, c), a.operationId),
      If(ParameterReason(e, c), a.operationId), If(TextReason(e, c), a.operationId));
  }

  /** The one warning of a resolution. */
  lemma ResolutionIs(
    site: Site, ws: seq<Warning>, c: Code) returns (condition: bool, code: Code, subject: Option<string>)
    ensures AfterResolution(site, ws) == Warned(ws, condition, code, subject)
    ensures ByResolution(site, c) == If(condition && code == c, subject)
  {
    code, subject, condition := OpenapiDrift, None, false;
    match site.resolution {
      case Some(Adopted(operationId, _, _, _)) => code, subject, condition := OpenapiDerivedOperationId,
        Some(operationId), true;
      case Some(Drift) => subject, condition := site.ep.operationId, true;
      case Some(Missing) => code, subject, condition := OpenapiMissingOperation, site.ep.operationId, true;
      case Some(Ambiguous) => code, subject, condition := OpenapiAmbiguous, ScanLabel(site), true;
      case Some(Unresolved) => code, subject, condition := OpenapiMissingOperation, site.ep.operationId,
        site.ep.synthesized;
      case _ =>
    }
  }

  lemma ResolutionSubjects(site: Site, ws: seq<Warning>, c: Code)
    ensures Subjects(AfterResolution(site, ws), c) == Subjects(ws, c) + ByResolution(site, c)
  {
    var condition, code, subject := ResolutionIs(site, ws, c);
    WarnedSubjects(ws, condition, code, subject, c);
  }

  lemma LossSubjects(env: Env, site: Site, st: State, c: Code)
    requires !Recorded(env, site, st)
    ensures Subjects(Step(env, site, st).warnings, c) ==
      Subjects(AfterResolution(site, st.warnings), c) + ByLoss(site, c)
  {
    var w, addressed := AfterResolution(site, st.warnings), AddressOf(site).operationId;
    if site.resolution != Some(Ambiguous) {
      if Given(addressed) {
        assert Step(env, site, st).warnings == Warned(w, true, DuplicateOperationId, addressed);
        WarnedSubjects(w, true, DuplicateOperationId, addressed, c);
      } else {
        assert Step(env, site, st).warnings == Warned(w, true, UnmatchedEndpoint, ScanLabel(site));
        WarnedSubjects(w, true, UnmatchedEndpoint, ScanLabel(site), c);
      }
    }
  }

  lemma Together<T>(a: seq<T>, b: seq<T>, c: seq<T>)
    ensures a + b + c == a + (b + c)
  {
  }

  lemma StepSubjects(env: Env, site: Site, st: State, c: Code)
    ensures Subjects(Step(env, site, st).warnings, c) == Subjects(st.warnings, c) +
      (ByResolution(site, c) + if Recorded(env, site, st) then ByRecord(env, site, c) else ByLoss(site, c))
  {
    ResolutionSubjects(site, st.warnings, c);
    if Recorded(env, site, st) {
      RecordingSubjects(env, site, AfterResolution(site, st.warnings), c);
      assert Step(env, site, st).warnings == AfterRecording(env, site, AfterResolution(site, st.warnings));
      Together(Subjects(st.warnings, c), ByResolution(site, c), ByRecord(env, site, c));
    } else {
      LossSubjects(env, site, st, c);
      Together(Subjects(st.warnings, c), ByResolution(site, c), ByLoss(site, c));
    }
  }

  // ------------------------------------------------------------------ the whole log

  lemma RecordedIff(env: Env, sites: seq<Site>, i: nat, start: State)
    requires i < |sites| && Fresh(start)
    ensures Recorded(env, sites[i], Run(env, sites[..i], start)) <==> Becomes(env, sites, i)
  {
    var st := Run(env, sites[..i], start);
    if RequestedId(sites[i]).Some? {
      var id := RequestedId(sites[i]).value;
      RunKeepsFirst(env, sites[..i], start, id);
      FirstExists(sites[..i], id);
      if j :| 0 <= j < i && RequestedId(sites[j]) == Some(id) {
        if Occurrences(sites[..i], id) == 0 {
          NotRequested(sites[..i], id, j);
        }
      }
    }
  }

  lemma RunNext(env: Env, sites: seq<Site>, i: nat, start: State)
    requires i < |sites|
    ensures Run(env, sites[..i + 1], start) == Step(env, sites[i], Run(env, sites[..i], start))
  {
    assert sites[..i + 1] == sites[..i] + [sites[i]];
    RunOneMore(env, sites[..i], sites[i], start);
  }

  /** One step, told by whether the endpoint becomes an operation. */
  lemma StepIsTold(env: Env, sites: seq<Site>, i: nat, st: State, c: Code)
    requires i < |sites| && (Recorded(env, sites[i], st) <==> Becomes(env, sites, i))
    ensures Subjects(Step(env, sites[i], st).warnings, c) == Subjects(st.warnings, c) + Told(env, sites, i, c)
  {
    StepSubjects(env, sites[i], st, c);
  }

  lemma NextIsTold(env: Env, sites: seq<Site>, i: nat, start: State, c: Code)
    requires i < |sites| && Fresh(start)
    ensures Subjects(Run(env, sites[..i + 1], start).warnings, c) ==
      Subjects(Run(env, sites[..i], start).warnings, c) + Told(env, sites, i, c)
  {
    RecordedIff(env, sites, i, start);
    RunNext(env, sites, i, start);
    StepIsTold(env, sites, i, Run(env, sites[..i], start), c);
  }

  /** The next part makes the log longer. */
  ghost predicate GrowsBy<T>(log: nat -> seq<T>, parts: seq<seq<T>>, i: nat) {
    i < |parts| && log(i + 1) == log(i) + parts[i]
  }

  /** A log that grows part by part is all the parts together. */
  lemma {:induction false} GrowsPartByPart<T>(log: nat -> seq<T>, parts: seq<seq<T>>, n: nat)
    requires n <= |parts| && forall i: nat | i < n :: GrowsBy(log, parts, i)
    ensures log(n) == log(0) + Concat(parts[..n])
  {
    if n > 0 {
      GrowsPartByPart(log, parts, n - 1);
      assert GrowsBy(log, parts, n - 1);
      assert parts[..n][..n - 1] == parts[..n - 1];
      Together(log(0), Concat(parts[..n - 1]), parts[n - 1]);
    }
  }


  lemma GrowsToTheEnd<T>(log: nat -> seq<T>, parts: seq<seq<T>>)
    requires forall i: nat | i < |parts| :: GrowsBy(log, parts, i)
    ensures log(|parts|) == log(0) + Concat(parts)
  {
    GrowsPartByPart(log, parts, |parts|);
    assert parts[..|parts|] == parts;
  }
  /** The log under one code after the first n endpoints. */
  function RunLog(env: Env, sites: seq<Site>, start: State, c: Code): nat -> seq<Option<string>> {
    (n: nat) => if n <= |sites| then Subjects(Run(env, sites[..n], start).warnings, c) else []
  }

  lemma RunGrows(env: Env, sites: seq<Site>, start: State, c: Code, i: nat)
    requires Fresh(start) && i < |sites|
    ensures GrowsBy(RunLog(env, sites, start, c), ToldEach(env, sites, c), i)
  {
    NextIsTold(env, sites, i, start, c);
  }

  lemma RunLogEnds(env: Env, sites: seq<Site>, start: State, c: Code)
    ensures RunLog(env, sites, start, c)(0) == Subjects(start.warnings, c)
    ensures RunLog(env, sites, start, c)(|sites|) == Subjects(Run(env, sites, start).warnings, c)
  {
    assert sites[..0] == [] && sites[..|sites|] == sites;
  }

  lemma RunIsTold(env: Env, sites: seq<Site>, start: State, c: Code)
    requires Fresh(start)
    ensures Subjects(Run(env, sites, start).warnings, c) ==
      Subjects(start.warnings, c) + Concat(ToldEach(env, sites, c))
  {
    forall i: nat | i < |sites| ensures GrowsBy(RunLog(env, sites, start, c), ToldEach(env, sites, c), i) {
      RunGrows(env, sites, start, c, i);
    }
    GrowsToTheEnd(RunLog(env, sites, start, c), ToldEach(env, sites, c));
    RunLogEnds(env, sites, start, c);
  }

  function Somes(texts: seq<string>): seq<Option<string>> {
    seq(|texts|, i requires 0 <= i < |texts| => Some(texts[i]))
  }

  lemma SomesGrow(texts: seq<string>, n: nat)
    requires n < |texts|
    ensures Somes(texts[..n + 1]) == Somes(texts[..n]) + [Some(texts[n])]
  {
  }

  lemma OneMoreAnnotation(annotations: seq<string>, n: nat, c: Code)
    requires n < |annotations|
    ensures Subjects(Annotated(annotations, n + 1), c) ==
      Subjects(Annotated(annotations, n), c) + If(OpenapiUnsupportedAnnotationPresent == c, Some(annotations[n]))
  {
    var before, last := Annotated(annotations, n), Some(annotations[n]);
    WarnedSubjects(before, true, OpenapiUnsupportedAnnotationPresent, last, c);
    assert Annotated(annotations, n + 1) == Warned(before, true, OpenapiUnsupportedAnnotationPresent, last);
  }

  /** Each unsupported keyword of the document, under the code for that. */
  function AnnotationsTold(annotations: seq<string>, c: Code): seq<seq<Option<string>>> {
    seq(|annotations|, i requires 0 <= i < |annotations| =>
      If(OpenapiUnsupportedAnnotationPresent == c, Some(annotations[i])))
  }

  /** What is warned about before the first endpoint. */
  function StartTold(target: Option<Module>, openapi: Option<Reconciliation>, c: Code): seq<Option<string>> {
    Concat(AnnotationsTold(if openapi.Some? then openapi.value.unsupportedAnnotations else [], c))
    + If(target.None? && NoModule == c, None)
  }

  function AnnotationLog(annotations: seq<string>, c: Code): nat -> seq<Option<string>> {
    (n: nat) => if n <= |annotations| then Subjects(Annotated(annotations, n), c) else []
  }

  lemma AnnotationsGrow(annotations: seq<string>, c: Code, i: nat)
    requires i < |annotations|
    ensures GrowsBy(AnnotationLog(annotations, c), AnnotationsTold(annotations, c), i)
  {
    OneMoreAnnotation(annotations, i, c);
  }

  lemma AnnotationLogEnds(annotations: seq<string>, c: Code)
    ensures AnnotationLog(annotations, c)(0) == []
    ensures AnnotationLog(annotations, c)(|annotations|) == Subjects(Annotated(annotations, |annotations|), c)
  {
  }

  lemma AnnotationSubjects(annotations: seq<string>, c: Code)
    ensures Subjects(Annotated(annotations, |annotations|), c) == Concat(AnnotationsTold(annotations, c))
  {
    forall i: nat | i < |annotations|
      ensures GrowsBy(AnnotationLog(annotations, c), AnnotationsTold(annotations, c), i) {
      AnnotationsGrow(annotations, c, i);
    }
    GrowsToTheEnd(AnnotationLog(annotations, c), AnnotationsTold(annotations, c));
    AnnotationLogEnds(annotations, c);
  }

  lemma StartSubjects(target: Option<Module>, openapi: Option<Reconciliation>, c: Code)
    ensures Subjects(Start(target, openapi).warnings, c) == StartTold(target, openapi, c)
  {
    var annotations := Annotations(openapi);
    AnnotationSubjects(annotations, c);
    WarnedSubjects(Annotated(annotations, |annotations|), target.None?, NoModule, None, c);
  }

  /** The path neither is the prefix nor continues it behind a slash. */
  ghost predicate Outside(path: string, prefix: string) {
    path != prefix && forall rest :: path != prefix + "/" + rest
  }

  lemma OutsideIff(path: string, prefix: string)
    ensures Outside(path, prefix) <==> !Under(path, prefix)
  {
    if prefix + "/" <= path {
      assert path == prefix + "/" + path[|prefix| + 1..];
    }
  }

  /** Some operation lies outside the prefix. */
  ghost predicate Escapes(operations: map<string, Operation>, prefix: string) {
    exists id | id in operations :: Outside(operations[id].path, prefix)
  }

  lemma EscapesIff(operations: map<string, Operation>, prefix: string)
    ensures Escapes(operations, prefix) <==> IsUnreflected(operations, prefix)
  {
    forall id | id in operations ensures Outside(operations[id].path, prefix) <==> !Under(operations[id].path, prefix) {
      OutsideIff(operations[id].path, prefix);
    }
  }

  /** The prefixes reported, under the code for that. */
  ghost function UnreflectedSubjects(
    operations: map<string, Operation>, prefixes: seq<string>, c: Code): seq<Option<string>> {
    if c == UnreflectedPathPrefix then Somes(Filter((p: string) => Escapes(operations, p), prefixes)) else []
  }

  lemma OneMorePrefix(operations: map<string, Operation>, prefixes: seq<string>, c: Code)
    requires prefixes != []
    ensures var n := |prefixes| - 1;
      UnreflectedSubjects(operations, prefixes, c) == UnreflectedSubjects(operations, prefixes[..n], c) +
        If(Escapes(operations, prefixes[n]) && UnreflectedPathPrefix == c, Some(prefixes[n]))
  {
    var n, p := |prefixes| - 1, (p: string) => Escapes(operations, p);
    var before := Filter(p, prefixes[..n]);
    if Escapes(operations, prefixes[n]) {
      assert Filter(p, prefixes) == before + [prefixes[n]];
      SomesGrow(before + [prefixes[n]], |before|);
      assert (before + [prefixes[n]])[..|before|] == before &&
        (before + [prefixes[n]])[..|before| + 1] == before + [prefixes[n]];
    }
  }

  lemma {:induction false} PrefixSubjects(
    operations: map<string, Operation>, prefixes: seq<string>, ws: seq<Warning>, c: Code)
    ensures Subjects(AfterPrefixes(operations, prefixes, ws), c) ==
      Subjects(ws, c) + UnreflectedSubjects(operations, prefixes, c)
  {
    if prefixes != [] {
      var n := |prefixes| - 1;
      var before := AfterPrefixes(operations, prefixes[..n], ws);
      PrefixSubjects(operations, prefixes[..n], ws, c);
      EscapesIff(operations, prefixes[n]);
      WarnedSubjects(before, Escapes(operations, prefixes[n]), UnreflectedPathPrefix, Some(prefixes[n]), c);
      OneMorePrefix(operations, prefixes, c);
    }
  }

  /** The subjects expected under one code: the document's unsupported keywords, the missing module, what the
      endpoints are warned about, the empty contract, and the prefixes that some operation lies outside of. */
  ghost function Expected(call: Call, c: Code): seq<Option<string>> {
    StartTold(Target(call), call.openapi, c) + Concat(ToldEach(call.env, Endpoints(call), c))
    + If(Emitted(call).operations == map[] && Empty == c, None)
    + UnreflectedSubjects(Emitted(call).operations, call.scan.prefixCandidates, c)
  }

  lemma FinishSubjects(st: State, prefixes: seq<string>, c: Code)
    ensures Subjects(Finish(st, prefixes), c) == Subjects(st.warnings, c) +
      If(|st.operations| == 0 && Empty == c, None) + UnreflectedSubjects(st.operations, prefixes, c)
  {
    WarnedSubjects(st.warnings, |st.operations| == 0, Empty, None, c);
    PrefixSubjects(st.operations, prefixes, Warned(st.warnings, |st.operations| == 0, Empty, None), c);
  }

  lemma EndIsTold(call: Call, c: Code)
    ensures Subjects(EndState(call).warnings, c) == Subjects(Start(Target(call), call.openapi).warnings, c) +
      Concat(ToldEach(call.env, Endpoints(call), c))
  {
    StartFacts(Target(call), call.openapi);
    RunIsTold(call.env, Endpoints(call), Start(Target(call), call.openapi), c);
  }

  /** The four parts of the log under one code. */
  lemma LogParts(call: Call, c: Code)
    ensures Subjects(Emitted(call).warnings, c) ==
      Subjects(Start(Target(call), call.openapi).warnings, c) + Concat(ToldEach(call.env, Endpoints(call), c))
      + If(Emitted(call).operations == map[] && Empty == c, None)
      + UnreflectedSubjects(Emitted(call).operations, call.scan.prefixCandidates, c)
  {
    EndIsTold(call, c);
    FinishSubjects(EndState(call), call.scan.prefixCandidates, c);
  }

  /** Whatever the scan and the reconciliation: under each code the emitted contract holds exactly the warnings
      expected, in order, each under its own subject. */
  lemma LogIsTold(call: Call, c: Code)
    ensures Subjects(Emitted(call).warnings, c) == Expected(call, c)
  {
    LogParts(call, c);
    StartSubjects(Target(call), call.openapi, c);
  }
}
