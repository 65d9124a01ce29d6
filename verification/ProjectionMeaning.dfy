/**
  A projected schema accepts what the component graph accepts (contracts/openapi.mjs, inlineSchema).
 */
module ProjectionMeaning {
  import opened Prelude
  import opened JsonSchema
  import opened SchemaVerdicts
  import opened SchemaProjection

  // ------------------------------------------------------------------ the meaning is kept

  predicate AllSat(sat: Oracle, assertions: seq<string>, v: Json) {
    forall i | 0 <= i < |assertions| :: sat(assertions[i], v)
  }

  /** Rewritten assertions hold of the same values. */
  ghost predicate KeepsAssertions(rules: Rules, sat: Oracle) {
    forall a, v :: rules.rewrite(a).Some? ==> (AllSat(sat, rules.rewrite(a).value, v) <==> AllSat(sat, a, v))
  }

  /** `d` holds definitions that are walks of components, and all that they refer to. */
  ghost predicate Linked(rules: Rules, g: Components, d: Defs) {
    forall x | x in d :: x in g && Walk(rules, g, g[x], {x}) == Some(d[x]) && RefsWithin(d[x], d.Keys)
  }

  /** t is the walk of n, and the definitions hold what it refers to. */
  ghost predicate Projects(rules: Rules, g: Components, d: Defs, n: Schema, visiting: set<string>, t: Schema) {
    Walk(rules, g, n, visiting) == Some(t) && RefsWithin(t, d.Keys)
  }

  lemma BareRef(sat: Oracle, defs: Defs, s: Schema, v: Json, fuel: nat)
    requires IsBare(s) && s.ref.value in defs
    ensures Settled(defs, s, v, fuel) <==> fuel > 0 && Settled(defs, defs[s.ref.value], v, fuel - 1)
    ensures Accepts(sat, defs, s, v, fuel) <==> fuel > 0 && Accepts(sat, defs, defs[s.ref.value], v, fuel - 1)
  {
    assert SettledBranches(defs, s, v, fuel) && AcceptsBranches(sat, defs, s, v, fuel);
    assert v.Obj? ==> SettledMembers(defs, s, v.fields, fuel) && AcceptsMembers(sat, defs, s, v.fields, fuel);
    assert v.Arr? ==> SettledItems(defs, s, v.items, fuel) && AcceptsItems(sat, defs, s, v.items, fuel);
  }

  lemma ReferenceLeft(rules: Rules, g: Components, d: Defs, n: Schema, visiting: set<string>, t: Schema)
    requires Linked(rules, g, d) && Projects(rules, g, d, n, visiting, t) && n.ref.Some? && n.ref.value in visiting
    ensures var x := n.ref.value; IsBare(n) && t == n && x in g && x in d && Projects(rules, g, d, g[x], {x}, d[x])
  {
  }

  lemma ReferenceInlined(rules: Rules, g: Components, d: Defs, n: Schema, visiting: set<string>, t: Schema)
    requires Projects(rules, g, d, n, visiting, t) && n.ref.Some? && n.ref.value !in visiting
    ensures var x := n.ref.value; IsBare(n) && x in g && Projects(rules, g, d, g[x], visiting + {x}, t)
  {
  }

  lemma MemberProjects(rules: Rules, g: Components, d: Defs, n: Schema, visiting: set<string>, t: Schema, k: string)
    requires Rebuilt(rules, g, n, visiting, t) && RefsWithin(t, d.Keys)
    ensures MemberSchema(n, k).Some? <==> MemberSchema(t, k).Some?
    ensures MemberSchema(n, k).Some? ==>
      Projects(rules, g, d, MemberSchema(n, k).value, visiting, MemberSchema(t, k).value)
  {
  }

  lemma ItemProjects(rules: Rules, g: Components, d: Defs, n: Schema, visiting: set<string>, t: Schema, i: nat)
    requires Rebuilt(rules, g, n, visiting, t) && RefsWithin(t, d.Keys)
    ensures ItemSchema(n, i).Some? <==> ItemSchema(t, i).Some?
    ensures ItemSchema(n, i).Some? ==> Projects(rules, g, d, ItemSchema(n, i).value, visiting, ItemSchema(t, i).value)
  {
  }

  /** A node and its walk, neither of them a reference, agree if their parts do. */
  lemma SamePartsSameVerdict(
    sat: Oracle, rules: Rules, g: Components, d: Defs, n: Schema, visiting: set<string>, t: Schema, v: Json, f: nat)
    requires KeepsAssertions(rules, sat) && Rebuilt(rules, g, n, visiting, t)
    requires v.Obj? ==> AcceptsMembers(sat, g, n, v.fields, f) == AcceptsMembers(sat, d, t, v.fields, f)
    requires v.Arr? ==> AcceptsItems(sat, g, n, v.items, f) == AcceptsItems(sat, d, t, v.items, f)
    requires AcceptsBranches(sat, g, n, v, f) == AcceptsBranches(sat, d, t, v, f)
    ensures Accepts(sat, g, n, v, f) == Accepts(sat, d, t, v, f)
  {
    assert AllSat(sat, n.assertions, v) == AllSat(sat, t.assertions, v);
  }

  /** What the component graph decides with some fuel, the projection decides with it, too, and alike. */
  lemma {:induction false} InliningFollows(
    sat: Oracle, rules: Rules, g: Components, d: Defs, n: Schema, visiting: set<string>, t: Schema, v: Json, f: nat)
    requires KeepsAssertions(rules, sat) && Linked(rules, g, d) && Projects(rules, g, d, n, visiting, t) &&
      Settled(g, n, v, f)
    ensures Settled(d, t, v, f) && Accepts(sat, d, t, v, f) == Accepts(sat, g, n, v, f)
    decreases f, n, 2
  {
    if n.ref.Some? {
      var x := n.ref.value;
      if x in visiting {
        ReferenceLeft(rules, g, d, n, visiting, t);
        BareRef(sat, d, t, v, f);
        BareRef(sat, g, n, v, f);
        InliningFollows(sat, rules, g, d, g[x], {x}, d[x], v, f - 1);
      } else {
        ReferenceInlined(rules, g, d, n, visiting, t);
        BareRef(sat, g, n, v, f);
        InliningFollows(sat, rules, g, d, g[x], visiting + {x}, t, v, f - 1);
        MoreFuel(sat, d, t, v, f - 1, f);
      }
    } else {
      WalkRebuilds(rules, g, n, visiting);
      if v.Obj? { MembersFollow(sat, rules, g, d, n, visiting, t, v.fields, f); }
      if v.Arr? { ItemsFollow(sat, rules, g, d, n, visiting, t, v.items, f); }
      BranchesFollow(sat, rules, g, d, n, visiting, t, v, f);
      SamePartsSameVerdict(sat, rules, g, d, n, visiting, t, v, f);
    }
  }

  lemma {:induction false} MembersFollow(
    sat: Oracle, rules: Rules, g: Components, d: Defs, n: Schema, visiting: set<string>, t: Schema,
    fields: map<string, Json>, f: nat)
    requires KeepsAssertions(rules, sat) && Linked(rules, g, d) && Rebuilt(rules, g, n, visiting, t) &&
      RefsWithin(t, d.Keys)
    requires SettledMembers(g, n, fields, f)
    ensures SettledMembers(d, t, fields, f) &&
      AcceptsMembers(sat, d, t, fields, f) == AcceptsMembers(sat, g, n, fields, f)
    decreases f, n, 1
  {
    forall k | k in fields
      ensures MemberSchema(n, k).Some? <==> MemberSchema(t, k).Some?
      ensures MemberSchema(n, k).Some? ==>
        && Settled(d, MemberSchema(t, k).value, fields[k], f)
        && Accepts(sat, d, MemberSchema(t, k).value, fields[k], f) ==
           Accepts(sat, g, MemberSchema(n, k).value, fields[k], f)
    {
      MemberProjects(rules, g, d, n, visiting, t, k);
      if MemberSchema(n, k).Some? {
        InliningFollows(sat, rules, g, d, MemberSchema(n, k).value, visiting, MemberSchema(t, k).value, fields[k], f);
      }
    }
    forall k | k in fields && n.names.Some?
      ensures Settled(d, t.names.value, Str(k), f) &&
        Accepts(sat, d, t.names.value, Str(k), f) == Accepts(sat, g, n.names.value, Str(k), f)
    {
      InliningFollows(sat, rules, g, d, n.names.value, visiting, t.names.value, Str(k), f);
    }
  }

  lemma {:induction false} ItemsFollow(
    sat: Oracle, rules: Rules, g: Components, d: Defs, n: Schema, visiting: set<string>, t: Schema, items: seq<Json>,
    f: nat)
    requires KeepsAssertions(rules, sat) && Linked(rules, g, d) && Rebuilt(rules, g, n, visiting, t) &&
      RefsWithin(t, d.Keys)
    requires SettledItems(g, n, items, f)
    ensures SettledItems(d, t, items, f) && AcceptsItems(sat, d, t, items, f) == AcceptsItems(sat, g, n, items, f)
    decreases f, n, 1
  {
    forall i | 0 <= i < |items|
      ensures ItemSchema(n, i).Some? <==> ItemSchema(t, i).Some?
      ensures ItemSchema(n, i).Some? ==>
        && Settled(d, ItemSchema(t, i).value, items[i], f)
        && Accepts(sat, d, ItemSchema(t, i).value, items[i], f) == Accepts(sat, g, ItemSchema(n, i).value, items[i], f)
    {
      ItemProjects(rules, g, d, n, visiting, t, i);
      if ItemSchema(n, i).Some? {
        InliningFollows(sat, rules, g, d, ItemSchema(n, i).value, visiting, ItemSchema(t, i).value, items[i], f);
      }
    }
  }

  lemma {:induction false} BranchesFollow(
    sat: Oracle, rules: Rules, g: Components, d: Defs, n: Schema, visiting: set<string>, t: Schema, v: Json, f: nat)
    requires KeepsAssertions(rules, sat) && Linked(rules, g, d) && Rebuilt(rules, g, n, visiting, t) &&
      RefsWithin(t, d.Keys)
    requires SettledBranches(g, n, v, f)
    ensures SettledBranches(d, t, v, f) && AcceptsBranches(sat, d, t, v, f) == AcceptsBranches(sat, g, n, v, f)
    decreases f, n, 1
  {
    forall i | 0 <= i < |n.branches|
      ensures SettledBranch(d, t.branches[i], v, f) && t.branches[i].mode == n.branches[i].mode
      ensures Outcomes(sat, d, t.branches[i], v, f) == Outcomes(sat, g, n.branches[i], v, f)
    {
      BranchFollows(sat, rules, g, d, n.branches[i], visiting, t.branches[i], v, f);
    }
  }

  lemma {:induction false} BranchFollows(
    sat: Oracle, rules: Rules, g: Components, d: Defs, b: Branch, visiting: set<string>, t: Branch, v: Json, f: nat)
    requires KeepsAssertions(rules, sat) && Linked(rules, g, d) && RebuiltBranch(rules, g, b, visiting, t) &&
      BranchRefsWithin(t, d.Keys)
    requires SettledBranch(g, b, v, f)
    ensures SettledBranch(d, t, v, f) && Outcomes(sat, d, t, v, f) == Outcomes(sat, g, b, v, f)
    decreases f, b, 1
  {
    forall j | 0 <= j < |b.schemas|
      ensures Settled(d, t.schemas[j], v, f) &&
        Accepts(sat, d, t.schemas[j], v, f) == Accepts(sat, g, b.schemas[j], v, f)
    {
      InliningFollows(sat, rules, g, d, b.schemas[j], visiting, t.schemas[j], v, f);
    }
  }

  // ------------------------------------------------------------------ and the graph decides no less

  /** Enough fuel for the component graph: each unit spent on the projection pays for inlining every component. */
  function GraphFuel(g: Components, visiting: set<string>, f: nat): nat {
    f * (|g.Keys| + 1) + |g.Keys - visiting|
  }

  lemma InliningCostsOne(g: Components, visiting: set<string>, x: string, f: nat)
    requires x in g && x !in visiting
    ensures GraphFuel(g, visiting, f) == GraphFuel(g, visiting + {x}, f) + 1
  {
    assert g.Keys - (visiting + {x}) == (g.Keys - visiting) - {x};
  }

  lemma ReferringCostsNoMore(g: Components, visiting: set<string>, x: string, f: nat)
    requires x in g && f > 0
    ensures GraphFuel(g, {x}, f - 1) + 1 <= GraphFuel(g, visiting, f)
  {
    assert |g.Keys - {x}| == |g.Keys| - 1;
    assert (f - 1) * (|g.Keys| + 1) + |g.Keys| + 1 == f * (|g.Keys| + 1);
  }

  lemma ReferredSettles(sat: Oracle, d: Defs, t: Schema, v: Json, f: nat)
    requires IsBare(t) && t.ref.value in d && Settled(d, t, v, f)
    ensures f > 0 && Settled(d, d[t.ref.value], v, f - 1)
  {
    BareRef(sat, d, t, v, f);
  }

  lemma ReferenceSettles(sat: Oracle, g: Components, n: Schema, v: Json, f: nat, e: nat)
    requires IsBare(n) && n.ref.value in g && Settled(g, g[n.ref.value], v, f) && f < e
    ensures Settled(g, n, v, e)
  {
    MoreFuel(sat, g, g[n.ref.value], v, f, e - 1);
    BareRef(sat, g, n, v, e);
  }

  lemma SettlesThroughReference(sat: Oracle, g: Components, n: Schema, visiting: set<string>, v: Json, f: nat)
    requires IsBare(n) && n.ref.value in g && f > 0 && Settled(g, g[n.ref.value], v, GraphFuel(g, {n.ref.value}, f - 1))
    ensures Settled(g, n, v, GraphFuel(g, visiting, f))
  {
    ReferringCostsNoMore(g, visiting, n.ref.value, f);
    ReferenceSettles(sat, g, n, v, GraphFuel(g, {n.ref.value}, f - 1), GraphFuel(g, visiting, f));
  }

  lemma SettlesThroughInlining(sat: Oracle, g: Components, n: Schema, visiting: set<string>, v: Json, f: nat)
    requires IsBare(n) && n.ref.value in g && n.ref.value !in visiting
    requires Settled(g, g[n.ref.value], v, GraphFuel(g, visiting + {n.ref.value}, f))
    ensures Settled(g, n, v, GraphFuel(g, visiting, f))
  {
    InliningCostsOne(g, visiting, n.ref.value, f);
    ReferenceSettles(sat, g, n, v, GraphFuel(g, visiting + {n.ref.value}, f), GraphFuel(g, visiting, f));
  }

  lemma {:induction false} GraphFollows(
    sat: Oracle, rules: Rules, g: Components, d: Defs, n: Schema, visiting: set<string>, t: Schema, v: Json, f: nat)
    requires Linked(rules, g, d) && Projects(rules, g, d, n, visiting, t) && Settled(d, t, v, f)
    ensures Settled(g, n, v, GraphFuel(g, visiting, f))
    decreases f, g.Keys - visiting, n, 2
  {
    if n.ref.Some? {
      if n.ref.value in visiting {
        ReferenceLeft(rules, g, d, n, visiting, t);
        GraphFollowsReference(sat, rules, g, d, n, visiting, v, f);
      } else {
        ReferenceInlined(rules, g, d, n, visiting, t);
        GraphFollows(sat, rules, g, d, g[n.ref.value], visiting + {n.ref.value}, t, v, f);
        SettlesThroughInlining(sat, g, n, visiting, v, f);
      }
    } else {
      WalkRebuilds(rules, g, n, visiting);
      if v.Obj? { GraphFollowsMembers(sat, rules, g, d, n, visiting, t, v.fields, f); }
      if v.Arr? { GraphFollowsItems(sat, rules, g, d, n, visiting, t, v.items, f); }
      GraphFollowsBranches(sat, rules, g, d, n, visiting, t, v, f);
    }
  }

  lemma {:induction false} GraphFollowsReference(
    sat: Oracle, rules: Rules, g: Components, d: Defs, n: Schema, visiting: set<string>, v: Json, f: nat)
    requires Linked(rules, g, d) && IsBare(n) && n.ref.value in g && n.ref.value in d
    requires Projects(rules, g, d, g[n.ref.value], {n.ref.value}, d[n.ref.value]) && Settled(d, n, v, f)
    ensures Settled(g, n, v, GraphFuel(g, visiting, f))
    decreases f, g.Keys - visiting, n, 1
  {
    var x := n.ref.value;
    ReferredSettles(sat, d, n, v, f);
    GraphFollows(sat, rules, g, d, g[x], {x}, d[x], v, f - 1);
    SettlesThroughReference(sat, g, n, visiting, v, f);
  }

  lemma {:induction false} GraphFollowsMembers(
    sat: Oracle, rules: Rules, g: Components, d: Defs, n: Schema, visiting: set<string>, t: Schema,
    fields: map<string, Json>, f: nat)
    requires Linked(rules, g, d) && Rebuilt(rules, g, n, visiting, t) && RefsWithin(t, d.Keys) &&
      SettledMembers(d, t, fields, f)
    ensures SettledMembers(g, n, fields, GraphFuel(g, visiting, f))
    decreases f, g.Keys - visiting, n, 1
  {
    forall k | k in fields && MemberSchema(n, k).Some?
      ensures Settled(g, MemberSchema(n, k).value, fields[k], GraphFuel(g, visiting, f))
    {
      MemberProjects(rules, g, d, n, visiting, t, k);
      GraphFollows(sat, rules, g, d, MemberSchema(n, k).value, visiting, MemberSchema(t, k).value, fields[k], f);
    }
    forall k | k in fields && n.names.Some? ensures Settled(g, n.names.value, Str(k), GraphFuel(g, visiting, f)) {
      GraphFollows(sat, rules, g, d, n.names.value, visiting, t.names.value, Str(k), f);
    }
  }

  lemma {:induction false} GraphFollowsItems(
    sat: Oracle, rules: Rules, g: Components, d: Defs, n: Schema, visiting: set<string>, t: Schema, items: seq<Json>,
    f: nat)
    requires Linked(rules, g, d) && Rebuilt(rules, g, n, visiting, t) && RefsWithin(t, d.Keys) &&
      SettledItems(d, t, items, f)
    ensures SettledItems(g, n, items, GraphFuel(g, visiting, f))
    decreases f, g.Keys - visiting, n, 1
  {
    forall i | 0 <= i < |items| && ItemSchema(n, i).Some?
      ensures Settled(g, ItemSchema(n, i).value, items[i], GraphFuel(g, visiting, f))
    {
      ItemProjects(rules, g, d, n, visiting, t, i);
      GraphFollows(sat, rules, g, d, ItemSchema(n, i).value, visiting, ItemSchema(t, i).value, items[i], f);
    }
  }

  lemma {:induction false} GraphFollowsBranches(
    sat: Oracle, rules: Rules, g: Components, d: Defs, n: Schema, visiting: set<string>, t: Schema, v: Json, f: nat)
    requires Linked(rules, g, d) && Rebuilt(rules, g, n, visiting, t) && RefsWithin(t, d.Keys) &&
      SettledBranches(d, t, v, f)
    ensures SettledBranches(g, n, v, GraphFuel(g, visiting, f))
    decreases f, g.Keys - visiting, n, 1
  {
    forall i | 0 <= i < |n.branches| ensures SettledBranch(g, n.branches[i], v, GraphFuel(g, visiting, f)) {
      GraphFollowsBranch(sat, rules, g, d, n.branches[i], visiting, t.branches[i], v, f);
    }
  }

  lemma {:induction false} GraphFollowsBranch(
    sat: Oracle, rules: Rules, g: Components, d: Defs, b: Branch, visiting: set<string>, t: Branch, v: Json, f: nat)
    requires Linked(rules, g, d) && RebuiltBranch(rules, g, b, visiting, t) && BranchRefsWithin(t, d.Keys) &&
      SettledBranch(d, t, v, f)
    ensures SettledBranch(g, b, v, GraphFuel(g, visiting, f))
    decreases f, g.Keys - visiting, b, 1
  {
    forall j | 0 <= j < |b.schemas| ensures Settled(g, b.schemas[j], v, GraphFuel(g, visiting, f)) {
      GraphFollows(sat, rules, g, d, b.schemas[j], visiting, t.schemas[j], v, f);
    }
  }

  lemma GraphAgrees(sat: Oracle, rules: Rules, g: Components, d: Defs, n: Schema, t: Schema, v: Json, f: nat)
    requires KeepsAssertions(rules, sat) && Linked(rules, g, d) && Projects(rules, g, d, n, {}, t) &&
      Settled(d, t, v, f)
    ensures Settled(g, n, v, GraphFuel(g, {}, f)) &&
      Accepts(sat, g, n, v, GraphFuel(g, {}, f)) == Accepts(sat, d, t, v, f)
  {
    GraphFollows(sat, rules, g, d, n, {}, t, v, f);
    InliningFollows(sat, rules, g, d, n, {}, t, v, GraphFuel(g, {}, f));
    assert f <= GraphFuel(g, {}, f);
    MoreFuel(sat, d, t, v, f, GraphFuel(g, {}, f));
  }

  lemma SameDecision(sat: Oracle, rules: Rules, g: Components, d: Defs, n: Schema, t: Schema, v: Json)
    requires KeepsAssertions(rules, sat) && Linked(rules, g, d) && Projects(rules, g, d, n, {}, t)
    ensures Decided(d, t, v) <==> Decided(g, n, v)
  {
    if f: nat :| Settled(d, t, v, f) {
      GraphAgrees(sat, rules, g, d, n, t, v, f);
    }
    if f: nat :| Settled(g, n, v, f) {
      InliningFollows(sat, rules, g, d, n, {}, t, v, f);
    }
  }

  /** A node of the component graph and its walk accept the same values. */
  lemma SameMeaning(sat: Oracle, rules: Rules, g: Components, d: Defs, n: Schema, t: Schema, v: Json)
    requires KeepsAssertions(rules, sat) && Linked(rules, g, d) && Projects(rules, g, d, n, {}, t)
    ensures ValidUnder(sat, d, t, v) <==> ValidUnder(sat, g, n, v)
  {
    if f: nat :| AcceptedUnder(sat, d, t, v, f) {
      GraphAgrees(sat, rules, g, d, n, t, v, f);
      assert AcceptedUnder(sat, g, n, v, GraphFuel(g, {}, f));
    }
    if f: nat :| AcceptedUnder(sat, g, n, v, f) {
      InliningFollows(sat, rules, g, d, n, {}, t, v, f);
      assert AcceptedUnder(sat, d, t, v, f);
    }
  }
}
