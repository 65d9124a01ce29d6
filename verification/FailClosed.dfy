/** A reconciliation that confirms nothing changes nothing (contracts/emit.mjs). */
module FailClosed {
  import opened Prelude
  import opened ContractModel
  import opened Emit
  import opened EmitProperties

  /** The resolutions that leave the scan's own values in place. */
  predicate KeepsScan(resolution: Option<Resolution>) {
    match resolution
    case None => true
    case Some(r) => r.Drift? || r.Missing? || r.Unresolved? || r.OtherKind?
  }

  function Forget(site: Site): Site {
    site.(resolution := None)
  }

  function ForgetAll(sites: seq<Site>): (r: seq<Site>)
    ensures |r| == |sites| && forall i | 0 <= i < |sites| :: r[i] == Forget(sites[i])
  {
    seq(|sites|, i requires 0 <= i < |sites| => Forget(sites[i]))
  }

  lemma {:induction false} ForgetController(
    controllers: seq<Controller>, openapi: Option<Reconciliation>, ci: nat, n: nat)
    requires ci < |controllers| && n <= |controllers[ci].endpoints|
    ensures ForgetAll(ControllerSites(controllers, openapi, ci, n)) == ControllerSites(controllers, None, ci, n)
  {
    if n > 0 {
      ForgetController(controllers, openapi, ci, n - 1);
    }
  }

  lemma {:induction false} ForgetSites(controllers: seq<Controller>, openapi: Option<Reconciliation>, n: nat)
    requires n <= |controllers|
    ensures ForgetAll(Sites(controllers, openapi, n)) == Sites(controllers, None, n)
  {
    if n > 0 {
      ForgetSites(controllers, openapi, n - 1);
      var m := |controllers[n - 1].endpoints|;
      ForgetController(controllers, openapi, n - 1, m);
      var a, b := Sites(controllers, openapi, n - 1), ControllerSites(controllers, openapi, n - 1, m);
      assert ForgetAll(a + b) == ForgetAll(a) + ForgetAll(b);
    }
  }

  lemma ForgettingARefusal(env: Env, site: Site)
    requires KeepsScan(site.resolution)
    ensures RequestedId(Forget(site)) == RequestedId(site) && RecordOf(env, Forget(site)) == RecordOf(env, site)
  {
    assert AddressOf(Forget(site)) == AddressOf(site);
  }

  lemma SameOperationsStep(env: Env, site: Site, s: State, t: State, s': State, t': State)
    requires KeepsScan(site.resolution) && s.operations == t.operations
    requires Effect(env, site, s, s', "") && Effect(env, Forget(site), t, t', "")
    ensures s'.operations == t'.operations
  {
    ForgettingARefusal(env, site);
  }

  lemma {:induction false} RunWithoutRefusals(env: Env, sites: seq<Site>, s: State, t: State)
    requires s.operations == t.operations && forall site :: site in sites ==> KeepsScan(site.resolution)
    ensures Run(env, sites, s).operations == Run(env, ForgetAll(sites), t).operations
  {
    if sites != [] {
      var n := |sites| - 1;
      var before, after := Run(env, sites[..n], s), Run(env, ForgetAll(sites[..n]), t);
      RunWithoutRefusals(env, sites[..n], s, t);
      assert ForgetAll(sites)[..n] == ForgetAll(sites[..n]);
      StepEffect(env, sites[n], before, "");
      StepEffect(env, Forget(sites[n]), after, "");
      SameOperationsStep(env, sites[n], before, after, Step(env, sites[n], before), Step(env, Forget(sites[n]), after));
    }
  }

  function Unreconciled(call: Call): Call {
    call.(openapi := None)
  }

  lemma UnreconciledEndpoints(call: Call)
    ensures Endpoints(Unreconciled(call)) == ForgetAll(Endpoints(call))
  {
    if Target(call).Some? {
      var controllers := Target(call).value.controllers;
      ForgetSites(controllers, call.openapi, |controllers|);
    }
  }

  /** Fail closed: if the reconciliation yields nothing but drift, missing and unresolved results,
      the operations are those of the run without any reconciliation. */
  lemma RefusalsChangeNoOperation(call: Call)
    requires forall site :: site in Endpoints(call) ==> KeepsScan(site.resolution)
    ensures Emitted(call).operations == Emitted(Unreconciled(call)).operations
  {
    UnreconciledEndpoints(call);
    RunWithoutRefusals(call.env, Endpoints(call), Start(Target(call), call.openapi), Start(Target(call), None));
  }

  lemma {:induction false} NoResolutionIn(
    controllers: seq<Controller>, openapi: Option<Reconciliation>, ci: nat, n: nat)
    requires ci < |controllers| && n <= |controllers[ci].endpoints| && openapi.Some? &&
      openapi.value.byEndpoint == map[]
    ensures forall site :: site in ControllerSites(controllers, openapi, ci, n) ==> site.resolution == None
  {
    if n > 0 {
      NoResolutionIn(controllers, openapi, ci, n - 1);
    }
  }

  lemma {:induction false} NoResolution(controllers: seq<Controller>, openapi: Option<Reconciliation>, n: nat)
    requires n <= |controllers| && openapi.Some? && openapi.value.byEndpoint == map[]
    ensures forall site :: site in Sites(controllers, openapi, n) ==> site.resolution == None
  {
    if n > 0 {
      NoResolution(controllers, openapi, n - 1);
      NoResolutionIn(controllers, openapi, n - 1, |controllers[n - 1].endpoints|);
    }
  }

  /** An empty reconciliation gives the same contract but for the provenance of its source. */
  lemma EmptyReconciliationIsInvisible(call: Call)
    requires call.openapi.Some? && call.openapi.value == Reconciliation(map[], [], map[])
    ensures var c, d := Emitted(call), Emitted(Unreconciled(call));
      && c.(source := d.source) == d
      && c.source == (if Target(call).None? then d.source else d.source.(provenance := FromScanAndOpenapi))
  {
    UnreconciledEndpoints(call);
    assert forall site :: site in Endpoints(call) ==> site.resolution == None by {
      if Target(call).Some? {
        var controllers := Target(call).value.controllers;
        NoResolution(controllers, call.openapi, |controllers|);
      }
    }
    assert ForgetAll(Endpoints(call)) == Endpoints(call);
  }
}
