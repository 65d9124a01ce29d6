/**
  The schema for an operation's responses (contracts/openapi.mjs, projectResponseSchemas): the documented
  response schemas are projected one by one, told apart by their content, and joined under one `anyOf`.

  Which statuses are documented, and with which media types, is not modelled: the method begins with the schema
  nodes found.
 */
module ResponseUnion {
  import opened Prelude
  import opened JsonSchema
  import opened SchemaVerdicts
  import opened SchemaProjection
  import opened ProjectionMeaning
  import opened ProjectionProperties

  datatype Outcome = Nothing | Unresolved | Joined(schema: Schema, sources: nat)

  ghost predicate AllProject(rules: Rules, g: Components, nodes: seq<Schema>) {
    forall node | node in nodes :: Projection(rules, g, node).Some?
  }

  ghost function Projections(rules: Rules, g: Components, nodes: seq<Schema>): seq<Schema>
    requires AllProject(rules, g, nodes)
  {
    seq(|nodes|, i requires 0 <= i < |nodes| => Projection(rules, g, nodes[i]).value)
  }

  /** Each schema once, in order of first occurrence. */
  function Deduplicated(all: seq<Schema>): (r: seq<Schema>)
    ensures forall s :: s in r <==> s in all
    ensures Distinct(r)
  {
    if all == [] then []
    else
      var before, s := Deduplicated(all[..|all| - 1]), all[|all| - 1];
      assert all == all[..|all| - 1] + [s];
      if s in before then before else before + [s]
  }

  /** The different projections of the nodes. */
  ghost function Shapes(rules: Rules, g: Components, nodes: seq<Schema>): seq<Schema>
    requires AllProject(rules, g, nodes)
  {
    Deduplicated(Projections(rules, g, nodes))
  }

  function Merged(shapes: seq<Schema>): Defs {
    if shapes == [] then map[] else Merged(shapes[..|shapes| - 1]) + DefsOf(shapes[|shapes| - 1])
  }

  function Alternatives(shapes: seq<Schema>): seq<Schema> {
    seq(|shapes|, i requires 0 <= i < |shapes| => Stripped(shapes[i]))
  }

  function Union(shapes: seq<Schema>): Schema {
    if |shapes| == 1 then shapes[0]
    else WithDefinitions(ANYTHING.(branches := [Branch(AnyOf, Alternatives(shapes))]), Merged(shapes))
  }

  ghost predicate IsShape(rules: Rules, g: Components, s: Schema) {
    exists node :: IsProjection(rules, g, node, s)
  }

  /** All are projections of nodes of one document. */
  ghost predicate OneDocument(rules: Rules, g: Components, shapes: seq<Schema>) {
    forall j | 0 <= j < |shapes| :: IsShape(rules, g, shapes[j])
  }

  lemma ShapeDefines(rules: Rules, g: Components, s: Schema)
    requires IsShape(rules, g, s)
    ensures forall x | x in DefsOf(s) :: DefinitionsOf(rules, g)(x) == Some(DefsOf(s)[x])
  {
    var node :| IsProjection(rules, g, node, s);
    ProjectionParts(rules, g, node, s);
  }

  lemma {:induction false} MergedAreDefinitions(rules: Rules, g: Components, shapes: seq<Schema>)
    requires OneDocument(rules, g, shapes)
    ensures forall x | x in Merged(shapes) :: DefinitionsOf(rules, g)(x) == Some(Merged(shapes)[x])
  {
    if shapes != [] {
      MergedAreDefinitions(rules, g, shapes[..|shapes| - 1]);
      ShapeDefines(rules, g, shapes[|shapes| - 1]);
    }
  }

  lemma NextIsCompatible(rules: Rules, g: Components, shapes: seq<Schema>, k: nat)
    requires OneDocument(rules, g, shapes) && k < |shapes|
    ensures Compatible(Merged(shapes[..k]), DefsOf(shapes[k]))
  {
    MergedAreDefinitions(rules, g, shapes[..k]);
    ShapeDefines(rules, g, shapes[k]);
  }

  lemma MergedStep(shapes: seq<Schema>, k: nat)
    requires k < |shapes|
    ensures Merged(shapes[..k + 1]) == Merged(shapes[..k]) + DefsOf(shapes[k])
    ensures Alternatives(shapes[..k + 1]) == Alternatives(shapes[..k]) + [Stripped(shapes[k])]
  {
    assert shapes[..k + 1][..k] == shapes[..k];
  }

  /** The refusal of a name defined twice with different content is never reached: the responses come from one
      document. */
  method JoinShapes(rules: Rules, g: Components, shapes: seq<Schema>) returns (r: Outcome)
    requires OneDocument(rules, g, shapes)
    ensures r == if shapes == [] then Nothing else Joined(Union(shapes), |shapes|)
  {
    if shapes == [] {
      return Nothing;
    }
    if |shapes| == 1 {
      return Joined(shapes[0], 1);
    }
    var merged: Defs, collision, branches := map[], false, [];
    for i := 0 to |shapes|
      invariant merged == Merged(shapes[..i]) && !collision
      invariant branches == Alternatives(shapes[..i])
    {
      NextIsCompatible(rules, g, shapes, i);
      if !Compatible(merged, DefsOf(shapes[i])) {
        collision := true;
      }
      MergedStep(shapes, i);
      merged, branches := merged + DefsOf(shapes[i]), branches + [Stripped(shapes[i])];
    }
    assert shapes[..|shapes|] == shapes;
    if collision {
      return Unresolved;
    }
    return Joined(WithDefinitions(ANYTHING.(branches := [Branch(AnyOf, branches)]), merged), |shapes|);
  }

  lemma DeduplicatedStep(all: seq<Schema>, s: Schema)
    ensures Deduplicated(all + [s]) == if s in Deduplicated(all) then Deduplicated(all) else Deduplicated(all) + [s]
  {
    assert (all + [s])[..|all|] == all;
  }

  lemma ProjectionsStep(rules: Rules, g: Components, nodes: seq<Schema>, k: nat)
    requires k < |nodes| && AllProject(rules, g, nodes[..k]) && Projection(rules, g, nodes[k]).Some?
    ensures AllProject(rules, g, nodes[..k + 1])
    ensures Projections(rules, g, nodes[..k + 1]) ==
      Projections(rules, g, nodes[..k]) + [Projection(rules, g, nodes[k]).value]
  {
    assert nodes[..k + 1] == nodes[..k] + [nodes[k]];
  }

  lemma ShapesStep(rules: Rules, g: Components, nodes: seq<Schema>, k: nat, s: Schema)
    requires k < |nodes| && AllProject(rules, g, nodes[..k]) && Projection(rules, g, nodes[k]) == Some(s)
    ensures AllProject(rules, g, nodes[..k + 1])
    ensures var before := Shapes(rules, g, nodes[..k]);
      Shapes(rules, g, nodes[..k + 1]) == if s in before then before else before + [s]
  {
    ProjectionsStep(rules, g, nodes, k);
    DeduplicatedStep(Projections(rules, g, nodes[..k]), s);
  }

  lemma ShapesAreOfOneDocument(rules: Rules, g: Components, nodes: seq<Schema>)
    requires AllProject(rules, g, nodes)
    ensures OneDocument(rules, g, Shapes(rules, g, nodes))
  {
    var all := Projections(rules, g, nodes);
    forall s | s in all ensures IsShape(rules, g, s) {
      var i :| 0 <= i < |all| && all[i] == s;
      assert IsProjection(rules, g, nodes[i], s);
    }
  }

  lemma SomeDoesNotProject(rules: Rules, g: Components, nodes: seq<Schema>, k: nat)
    requires k < |nodes| && Projection(rules, g, nodes[k]) == None
    ensures !AllProject(rules, g, nodes)
  {
  }

  /** The first schema that cannot be projected leaves the whole union unresolved. */
  method ProjectResponses(rules: Rules, g: Components, nodes: seq<Schema>) returns (r: Outcome)
    ensures AllProject(rules, g, nodes) ==>
      var shapes := Shapes(rules, g, nodes);
      r == if shapes == [] then Nothing else Joined(Union(shapes), |shapes|)
    ensures !AllProject(rules, g, nodes) ==> r == Unresolved
  {
    var shapes: seq<Schema> := [];
    for i := 0 to |nodes|
      invariant AllProject(rules, g, nodes[..i]) && shapes == Shapes(rules, g, nodes[..i])
    {
      var s := InlineSchema(rules, g, nodes[i]);
      if s.None? {
        SomeDoesNotProject(rules, g, nodes, i);
        return Unresolved;
      }
      ShapesStep(rules, g, nodes, i, s.value);
      if s.value !in shapes {
        shapes := shapes + [s.value];
      }
    }
    assert nodes[..|nodes|] == nodes;
    ShapesAreOfOneDocument(rules, g, nodes);
    r := JoinShapes(rules, g, shapes);
  }

  // ------------------------------------------------------------------ what the union accepts

  lemma ShapeIsClosed(rules: Rules, g: Components, s: Schema)
    requires IsShape(rules, g, s)
    ensures RefsWithin(Stripped(s), DefsOf(s).Keys) && forall x | x in DefsOf(s) ::
      RefsWithin(DefsOf(s)[x], DefsOf(s).Keys)
  {
    var node :| IsProjection(rules, g, node, s);
    ProjectionIsLinked(rules, g, node, s);
  }

  lemma {:induction false} MergedNamesAll(shapes: seq<Schema>, j: nat)
    requires j < |shapes|
    ensures DefsOf(shapes[j]).Keys <= Merged(shapes).Keys
  {
    var last := |shapes| - 1;
    if j < last {
      MergedNamesAll(shapes[..last], j);
      assert shapes[..last][j] == shapes[j];
    }
  }

  lemma MergedHoldsEach(rules: Rules, g: Components, shapes: seq<Schema>, j: nat)
    requires OneDocument(rules, g, shapes) && j < |shapes|
    ensures forall x | x in DefsOf(shapes[j]) :: x in Merged(shapes) && Merged(shapes)[x] == DefsOf(shapes[j])[x]
  {
    MergedAreDefinitions(rules, g, shapes);
    ShapeDefines(rules, g, shapes[j]);
    MergedNamesAll(shapes, j);
  }

  /** A shape decides the same inside the union as alone. */
  lemma SameInsideTheUnion(sat: Oracle, rules: Rules, g: Components, shapes: seq<Schema>, j: nat, v: Json, fuel: nat)
    requires OneDocument(rules, g, shapes) && j < |shapes|
    ensures var s, d := shapes[j], Merged(shapes);
      && Settled(d, Stripped(s), v, fuel) == Settled(DefsOf(s), s, v, fuel)
      && Accepts(sat, d, Stripped(s), v, fuel) == Accepts(sat, DefsOf(s), s, v, fuel)
  {
    var s, d := shapes[j], Merged(shapes);
    ShapeIsClosed(rules, g, s);
    MergedHoldsEach(rules, g, shapes, j);
    DefsKeywordIsInert(sat, DefsOf(s), s, v, fuel);
    OnlyReachableDefs(sat, DefsOf(s), d, DefsOf(s).Keys, Stripped(s), v, fuel);
  }

  lemma NoMembersNoItems(sat: Oracle, d: Defs, u: Schema, b: Branch, v: Json, fuel: nat)
    requires Stripped(u) == ANYTHING.(branches := [b])
    ensures v.Obj? ==> SettledMembers(d, u, v.fields, fuel) && AcceptsMembers(sat, d, u, v.fields, fuel)
    ensures v.Arr? ==> SettledItems(d, u, v.items, fuel) && AcceptsItems(sat, d, u, v.items, fuel)
  {
  }

  lemma OneBranch(sat: Oracle, d: Defs, u: Schema, b: Branch, v: Json, fuel: nat)
    requires Stripped(u) == ANYTHING.(branches := [b])
    ensures SettledBranches(d, u, v, fuel) <==> SettledBranch(d, b, v, fuel)
    ensures AcceptsBranches(sat, d, u, v, fuel) <==> Combined(b.mode, Outcomes(sat, d, b, v, fuel))
  {
    assert u.branches[0] == b;
  }

  lemma NothingButABranch(sat: Oracle, d: Defs, u: Schema, b: Branch, v: Json, fuel: nat)
    requires Stripped(u) == ANYTHING.(branches := [b])
    ensures Settled(d, u, v, fuel) <==> SettledBranch(d, b, v, fuel)
    ensures Accepts(sat, d, u, v, fuel) <==> Combined(b.mode, Outcomes(sat, d, b, v, fuel))
  {
    NoMembersNoItems(sat, d, u, b, v, fuel);
    OneBranch(sat, d, u, b, v, fuel);
  }

  lemma UnionHolds(shapes: seq<Schema>)
    requires |shapes| != 1
    ensures DefsOf(Union(shapes)) == Merged(shapes)
    ensures Stripped(Union(shapes)) == ANYTHING.(branches := [Branch(AnyOf, Alternatives(shapes))])
  {
  }

  ghost predicate EachSettles(shapes: seq<Schema>, v: Json, fuel: nat) {
    forall j | 0 <= j < |shapes| :: Settled(DefsOf(shapes[j]), shapes[j], v, fuel)
  }

  ghost predicate SomeAccepts(sat: Oracle, shapes: seq<Schema>, v: Json, fuel: nat) {
    exists j | 0 <= j < |shapes| :: Accepts(sat, DefsOf(shapes[j]), shapes[j], v, fuel)
  }

  lemma SettledAlternatives(sat: Oracle, rules: Rules, g: Components, shapes: seq<Schema>, v: Json, fuel: nat)
    requires OneDocument(rules, g, shapes)
    ensures SettledBranch(Merged(shapes), Branch(AnyOf, Alternatives(shapes)), v, fuel) <==>
      EachSettles(shapes, v, fuel)
  {
    var all := Alternatives(shapes);
    forall j | 0 <= j < |shapes| ensures Settled(Merged(shapes), all[j], v, fuel) ==
      Settled(DefsOf(shapes[j]), shapes[j], v, fuel) {
      SameInsideTheUnion(sat, rules, g, shapes, j, v, fuel);
    }
  }

  lemma AcceptedAlternatives(sat: Oracle, rules: Rules, g: Components, shapes: seq<Schema>, v: Json, fuel: nat)
    requires OneDocument(rules, g, shapes)
    ensures Combined(AnyOf, Outcomes(sat, Merged(shapes), Branch(AnyOf, Alternatives(shapes)), v, fuel)) <==>
      SomeAccepts(sat, shapes, v, fuel)
  {
    var outcomes := Outcomes(sat, Merged(shapes), Branch(AnyOf, Alternatives(shapes)), v, fuel);
    forall j | 0 <= j < |shapes| ensures outcomes[j] == Accepts(sat, DefsOf(shapes[j]), shapes[j], v, fuel) {
      SameInsideTheUnion(sat, rules, g, shapes, j, v, fuel);
    }
  }

  lemma AloneIsTheUnion(sat: Oracle, s: Schema, v: Json, fuel: nat)
    ensures Settled(DefsOf(s), s, v, fuel) <==> EachSettles([s], v, fuel)
    ensures Accepts(sat, DefsOf(s), s, v, fuel) <==> SomeAccepts(sat, [s], v, fuel)
  {
    assert [s][0] == s;
  }

  /** The union settles a value with some fuel if all the shapes do, and then accepts it if one does. */
  lemma UnionStep(sat: Oracle, rules: Rules, g: Components, shapes: seq<Schema>, v: Json, fuel: nat)
    requires OneDocument(rules, g, shapes)
    ensures Settled(DefsOf(Union(shapes)), Union(shapes), v, fuel) <==> EachSettles(shapes, v, fuel)
    ensures Accepts(sat, DefsOf(Union(shapes)), Union(shapes), v, fuel) <==> SomeAccepts(sat, shapes, v, fuel)
  {
    if |shapes| != 1 {
      UnionHolds(shapes);
      NothingButABranch(sat, Merged(shapes), Union(shapes), Branch(AnyOf, Alternatives(shapes)), v, fuel);
      SettledAlternatives(sat, rules, g, shapes, v, fuel);
      AcceptedAlternatives(sat, rules, g, shapes, v, fuel);
    } else {
      assert Union(shapes) == shapes[0] && shapes == [shapes[0]];
      AloneIsTheUnion(sat, shapes[0], v, fuel);
    }
  }

  ghost predicate EachDecides(shapes: seq<Schema>, v: Json) {
    forall s | s in shapes :: Decided(DefsOf(s), s, v)
  }

  lemma EachSettlesMore(sat: Oracle, shapes: seq<Schema>, v: Json, n: nat, m: nat)
    requires EachSettles(shapes, v, n) && n <= m
    ensures EachSettles(shapes, v, m)
  {
    forall j | 0 <= j < |shapes| ensures Settled(DefsOf(shapes[j]), shapes[j], v, m) {
      MoreFuel(sat, DefsOf(shapes[j]), shapes[j], v, n, m);
    }
  }

  lemma {:induction false} CommonFuel(sat: Oracle, shapes: seq<Schema>, v: Json) returns (fuel: nat)
    requires EachDecides(shapes, v)
    ensures EachSettles(shapes, v, fuel)
  {
    if shapes == [] {
      fuel := 0;
    } else {
      var last := |shapes| - 1;
      var n := CommonFuel(sat, shapes[..last], v);
      assert Decided(DefsOf(shapes[last]), shapes[last], v);
      var m: nat :| Settled(DefsOf(shapes[last]), shapes[last], v, m);
      fuel := n + m;
      EachSettlesMore(sat, shapes[..last], v, n, fuel);
      MoreFuel(sat, DefsOf(shapes[last]), shapes[last], v, m, fuel);
      forall j | 0 <= j < last ensures Settled(DefsOf(shapes[j]), shapes[j], v, fuel) {
        assert shapes[..last][j] == shapes[j];
      }
    }
  }

  lemma UnionAcceptsOnly(sat: Oracle, rules: Rules, g: Components, shapes: seq<Schema>, v: Json)
    requires OneDocument(rules, g, shapes) && Valid(sat, Union(shapes), v)
    ensures EachDecides(shapes, v) && exists s | s in shapes :: Valid(sat, s, v)
  {
    var fuel: nat :| AcceptedWith(sat, Union(shapes), v, fuel);
    UnionStep(sat, rules, g, shapes, v, fuel);
    assert EachDecides(shapes, v) by {
      forall s | s in shapes ensures Decided(DefsOf(s), s, v) {
        assert Settled(DefsOf(s), s, v, fuel);
      }
    }
    var j :| 0 <= j < |shapes| && Accepts(sat, DefsOf(shapes[j]), shapes[j], v, fuel);
    assert AcceptedWith(sat, shapes[j], v, fuel);
    assert Valid(sat, shapes[j], v);
  }

  lemma OneOfThemAccepts(sat: Oracle, shapes: seq<Schema>, s: Schema, v: Json, fuel: nat)
    requires s in shapes && AcceptedWith(sat, s, v, fuel)
    ensures SomeAccepts(sat, shapes, v, fuel)
  {
    var j :| 0 <= j < |shapes| && shapes[j] == s;
    assert Accepts(sat, DefsOf(shapes[j]), shapes[j], v, fuel);
  }

  lemma SomeStillAccepts(sat: Oracle, shapes: seq<Schema>, s: Schema, v: Json, n: nat, m: nat)
    requires s in shapes && AcceptedWith(sat, s, v, n) && n <= m
    ensures SomeAccepts(sat, shapes, v, m)
  {
    AcceptedUnderMore(sat, DefsOf(s), s, v, n, m);
    OneOfThemAccepts(sat, shapes, s, v, m);
  }

  lemma UnionAcceptsWith(sat: Oracle, rules: Rules, g: Components, shapes: seq<Schema>, v: Json, fuel: nat)
    requires OneDocument(rules, g, shapes) && EachSettles(shapes, v, fuel) && SomeAccepts(sat, shapes, v, fuel)
    ensures Valid(sat, Union(shapes), v)
  {
    UnionStep(sat, rules, g, shapes, v, fuel);
    assert AcceptedWith(sat, Union(shapes), v, fuel);
  }

  lemma UnionAcceptsAt(
    sat: Oracle, rules: Rules, g: Components, shapes: seq<Schema>, s: Schema, v: Json, n: nat, m: nat)
    requires OneDocument(rules, g, shapes) && EachSettles(shapes, v, n) && s in shapes && AcceptedWith(sat, s, v, m)
    ensures Valid(sat, Union(shapes), v)
  {
    var fuel := n + m;
    EachSettlesMore(sat, shapes, v, n, fuel);
    SomeStillAccepts(sat, shapes, s, v, m, fuel);
    UnionAcceptsWith(sat, rules, g, shapes, v, fuel);
  }

  lemma UnionAcceptsAll(sat: Oracle, rules: Rules, g: Components, shapes: seq<Schema>, s: Schema, v: Json)
    requires OneDocument(rules, g, shapes) && EachDecides(shapes, v) && s in shapes && Valid(sat, s, v)
    ensures Valid(sat, Union(shapes), v)
  {
    var n := CommonFuel(sat, shapes, v);
    var m: nat :| AcceptedWith(sat, s, v, m);
    UnionAcceptsAt(sat, rules, g, shapes, s, v, n, m);
  }

  lemma NodeOfShape(rules: Rules, g: Components, nodes: seq<Schema>, s: Schema) returns (node: Schema)
    requires AllProject(rules, g, nodes) && s in Shapes(rules, g, nodes)
    ensures node in nodes && IsProjection(rules, g, node, s)
  {
    var all := Projections(rules, g, nodes);
    var i :| 0 <= i < |all| && all[i] == s;
    node := nodes[i];
  }

  lemma ShapeOfNode(rules: Rules, g: Components, nodes: seq<Schema>, node: Schema) returns (s: Schema)
    requires AllProject(rules, g, nodes) && node in nodes
    ensures s in Shapes(rules, g, nodes) && IsProjection(rules, g, node, s)
  {
    var i :| 0 <= i < |nodes| && nodes[i] == node;
    s := Projections(rules, g, nodes)[i];
  }

  lemma EachDecidesIff(sat: Oracle, rules: Rules, g: Components, nodes: seq<Schema>, v: Json)
    requires AllProject(rules, g, nodes) && KeepsAssertions(rules, sat)
    ensures EachDecides(Shapes(rules, g, nodes), v) <==> forall node | node in nodes :: Decided(g, node, v)
  {
    var shapes := Shapes(rules, g, nodes);
    forall node | node in nodes && EachDecides(shapes, v) ensures Decided(g, node, v) {
      var s := ShapeOfNode(rules, g, nodes, node);
      ProjectionKeepsMeaning(sat, rules, g, node, s, v);
    }
    forall s | s in shapes && forall node | node in nodes :: Decided(g, node, v) ensures Decided(DefsOf(s), s, v) {
      var node := NodeOfShape(rules, g, nodes, s);
      ProjectionKeepsMeaning(sat, rules, g, node, s, v);
    }
  }

  /** The union accepts what some documented response accepts among the components, unless one of the
      documented responses has no verdict. */
  lemma UnionAcceptsIff(sat: Oracle, rules: Rules, g: Components, nodes: seq<Schema>, v: Json)
    requires AllProject(rules, g, nodes) && KeepsAssertions(rules, sat)
    ensures Valid(sat, Union(Shapes(rules, g, nodes)), v) <==>
      (forall node | node in nodes :: Decided(g, node, v)) && exists node | node in nodes :: ValidUnder(sat, g, node, v)
  {
    var shapes := Shapes(rules, g, nodes);
    ShapesAreOfOneDocument(rules, g, nodes);
    EachDecidesIff(sat, rules, g, nodes, v);
    if Valid(sat, Union(shapes), v) {
      UnionAcceptsOnly(sat, rules, g, shapes, v);
      var s :| s in shapes && Valid(sat, s, v);
      var node := NodeOfShape(rules, g, nodes, s);
      ProjectionKeepsMeaning(sat, rules, g, node, s, v);
    }
    if EachDecides(shapes, v) && exists node | node in nodes :: ValidUnder(sat, g, node, v) {
      var node :| node in nodes && ValidUnder(sat, g, node, v);
      var s := ShapeOfNode(rules, g, nodes, node);
      ProjectionKeepsMeaning(sat, rules, g, node, s, v);
      UnionAcceptsAll(sat, rules, g, shapes, s, v);
    }
  }
}
