/**
  What the projection of an OpenAPI document's schemas promises (contracts/openapi.mjs): it refers to nothing
  it does not define, means what the component graph means, and fits any other projection of the document.
 */
module ProjectionProperties {
  import opened Prelude
  import opened JsonSchema
  import opened SchemaVerdicts
  import opened SchemaProjection
  import opened ProjectionMeaning

  ghost predicate IsProjection(rules: Rules, g: Components, node: Schema, s: Schema) {
    Projection(rules, g, node) == Some(s)
  }

  lemma {:induction false} WalkHasNoDefinitions(rules: Rules, g: Components, n: Schema, visiting: set<string>)
    requires Walk(rules, g, n, visiting).Some?
    ensures Walk(rules, g, n, visiting).value.defs == NoDefs
    decreases g.Keys - visiting
  {
    if n.ref.Some? && n.ref.value !in visiting {
      WalkHasNoDefinitions(rules, g, g[n.ref.value], visiting + {n.ref.value});
    }
  }

  /** The parts of a projection: the walk, and the definitions, which are walks and closed. */
  lemma ProjectionParts(rules: Rules, g: Components, node: Schema, s: Schema)
    requires IsProjection(rules, g, node, s)
    ensures Walk(rules, g, node, {}) == Some(Stripped(s))
    ensures DefsOf(s).Keys == Needed(DefinitionsOf(rules, g), RefsIn(Stripped(s)), g.Keys)
    ensures forall x | x in DefsOf(s) :: DefinitionsOf(rules, g)(x) == Some(DefsOf(s)[x])
  {
    WalkHasNoDefinitions(rules, g, node, {});
  }

  lemma ProjectionIsClosed(rules: Rules, g: Components, node: Schema, s: Schema)
    requires IsProjection(rules, g, node, s)
    ensures RefsIn(Stripped(s)) <= DefsOf(s).Keys
    ensures forall x | x in DefsOf(s) :: RefsIn(DefsOf(s)[x]) <= DefsOf(s).Keys
  {
    ProjectionParts(rules, g, node, s);
    RootRefersToComponents(rules, g, node);
    var table := DefinitionsOf(rules, g);
    forall x | x in g && table(x).Some? ensures RefsIn(table(x).value) <= g.Keys {
      DefinitionsReferToComponents(rules, g, x);
    }
    NeededIsClosed(table, RefsIn(Stripped(s)), g.Keys);
  }

  lemma ProjectionIsLinked(rules: Rules, g: Components, node: Schema, s: Schema)
    requires IsProjection(rules, g, node, s)
    ensures Linked(rules, g, DefsOf(s)) && Projects(rules, g, DefsOf(s), node, {}, Stripped(s))
  {
    var d := DefsOf(s);
    ProjectionParts(rules, g, node, s);
    ProjectionIsClosed(rules, g, node, s);
    RefsWithinIff(Stripped(s), d.Keys);
    forall x | x in d ensures RefsWithin(d[x], d.Keys) {
      RefsWithinIff(d[x], d.Keys);
    }
  }

  lemma NoDefinitionIsSpare(rules: Rules, g: Components, node: Schema, s: Schema, c: set<string>)
    requires IsProjection(rules, g, node, s) && Resolved(DefsOf(s), Stripped(s), c)
    ensures DefsOf(s).Keys <= c
  {
    var d := DefsOf(s);
    ProjectionParts(rules, g, node, s);
    RefsWithinIff(Stripped(s), c);
    forall x | x in c ensures RefsIn(d[x]) <= c {
      RefsWithinIff(d[x], c);
    }
    assert ClosedFrom(DefinitionsOf(rules, g), RefsIn(Stripped(s)), c);
    forall x | x in d ensures x in c {
      assert IsNeeded(DefinitionsOf(rules, g), RefsIn(Stripped(s)), x);
    }
  }

  /** Every reference of a projection resolves, and it carries no definition that it does not need. */
  lemma ProjectionResolves(rules: Rules, g: Components, node: Schema, s: Schema, c: set<string>)
    requires IsProjection(rules, g, node, s)
    ensures Resolved(DefsOf(s), s, c) <==> c == DefsOf(s).Keys
  {
    StrippedRefs(s, c);
    if Resolved(DefsOf(s), s, c) {
      NoDefinitionIsSpare(rules, g, node, s, c);
    }
    ProjectionIsLinked(rules, g, node, s);
  }

  lemma StrippedMeansTheSame(sat: Oracle, defs: Defs, s: Schema, v: Json)
    ensures Decided(defs, Stripped(s), v) <==> Decided(defs, s, v)
    ensures ValidUnder(sat, defs, Stripped(s), v) <==> ValidUnder(sat, defs, s, v)
  {
    forall fuel: nat
      ensures Settled(defs, Stripped(s), v, fuel) == Settled(defs, s, v, fuel)
      ensures AcceptedUnder(sat, defs, Stripped(s), v, fuel) == AcceptedUnder(sat, defs, s, v, fuel)
    {
      DefsKeywordIsInert(sat, defs, s, v, fuel);
    }
  }

  lemma ValidUnderOwn(sat: Oracle, s: Schema, v: Json)
    ensures Valid(sat, s, v) <==> ValidUnder(sat, DefsOf(s), s, v)
  {
    if fuel: nat :| AcceptedUnder(sat, DefsOf(s), s, v, fuel) {
      assert AcceptedWith(sat, s, v, fuel);
    }
    if fuel: nat :| AcceptedWith(sat, s, v, fuel) {
      assert AcceptedUnder(sat, DefsOf(s), s, v, fuel);
    }
  }

  /** The projection of a node accepts what the node accepts with its references resolved among the
      components, and decides what that decides, however the components refer to each other. */
  lemma ProjectionKeepsMeaning(sat: Oracle, rules: Rules, g: Components, node: Schema, s: Schema, v: Json)
    requires KeepsAssertions(rules, sat) && IsProjection(rules, g, node, s)
    ensures Valid(sat, s, v) <==> ValidUnder(sat, g, node, v)
    ensures Decided(DefsOf(s), s, v) <==> Decided(g, node, v)
  {
    ProjectionIsLinked(rules, g, node, s);
    SameMeaning(sat, rules, g, DefsOf(s), node, Stripped(s), v);
    SameDecision(sat, rules, g, DefsOf(s), node, Stripped(s), v);
    StrippedMeansTheSame(sat, DefsOf(s), s, v);
    ValidUnderOwn(sat, s, v);
  }

  /** It decides every value, that is, it is guarded, exactly if the node does among the components. */
  lemma ProjectionGuardedIff(sat: Oracle, rules: Rules, g: Components, node: Schema, s: Schema)
    requires KeepsAssertions(rules, sat) && IsProjection(rules, g, node, s)
    ensures IsGuarded(s) <==> AlwaysDecided(g, node)
  {
    ProjectionResolves(rules, g, node, s, DefsOf(s).Keys);
    DecidesAllIffGuarded(sat, s, DefsOf(s).Keys);
    forall v ensures Decided(g, node, v) <==> Valid(sat, s, v) || Invalid(sat, s, v) {
      ProjectionKeepsMeaning(sat, rules, g, node, s, v);
      DecidedHasVerdict(sat, s, v);
    }
  }

  /** A definition is made from its name and the document alone, so no two projections of one document
      define a name differently. */
  lemma ProjectionsAreCompatible(rules: Rules, g: Components, node: Schema, other: Schema, s: Schema, t: Schema)
    requires IsProjection(rules, g, node, s) && IsProjection(rules, g, other, t)
    ensures Compatible(DefsOf(s), DefsOf(t))
  {
    ProjectionParts(rules, g, node, s);
    ProjectionParts(rules, g, other, t);
  }
}
