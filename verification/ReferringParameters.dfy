/**
  Sourced path-parameter schemas with references, as the builder emits them: under `properties`, where
  their own `$defs` are not resolvable (contracts/emit.mjs and contracts/validate.mjs together).
 */
module ReferringParameters {
  import opened Prelude
  import opened JsonSchema
  import opened SchemaVerdicts
  import opened SchemaProjection
  import opened ProjectionProperties
  import opened ContractModel
  import opened RouteParams
  import opened Emit
  import opened EmitProperties
  import opened Validate
  import opened EndToEnd

  function Named(name: string, definition: Schema): Schema {
    ANYTHING.(defs := Definitions(map[name := definition]), ref := Some(name))
  }

  /** A list of lists, and so on: what a component that is a list of itself is projected to, inlined once
      and with a reference at the cyclic edge. */
  const NODES: Schema := ANYTHING.(
    defs := Definitions(map["Node" := ANYTHING.(items := Some(Reference("Node")))]),
    items := Some(Reference("Node")))

  function Node(): Schema {
    ANYTHING.(items := Some(Reference("Node")))
  }

  lemma NodeRefers(ok: string -> bool, rank: map<string, nat>)
    requires rank == map["Node" := 0]
    ensures WellFormed(ok, Node()) && RefsWithin(Node(), {"Node"}) && !RefFree(Node())
    ensures ReachesWithin(Node(), {"Node"}, {"Node"}) && InPlaceBelow(Node(), rank, 0)
  {
    assert WellFormed(ok, Reference("Node")) && RefsWithin(Reference("Node"), {"Node"}) &&
      !RefsWithin(Reference("Node"), {});
    assert ReachesWithin(Reference("Node"), {"Node"}, {"Node"});
  }

  lemma WithDefs(ok: string -> bool, s: Schema, defs: Definitions)
    requires s.defs.NoDefs?
    ensures forall c :: RefsWithin(s.(defs := defs), c) == RefsWithin(s, c)
    ensures WellFormed(ok, s) && (defs.Definitions? ==> forall k | k in defs.named :: WellFormed(ok, defs.named[k]))
      ==> WellFormed(ok, s.(defs := defs))
    ensures forall any, named :: ReachesWithin(s.(defs := defs), any, named) == ReachesWithin(s, any, named)
  {
  }

  lemma NodesResolve(root: Schema, rank: map<string, nat>, node: Schema)
    requires rank == map["Node" := 0] && DefsOf(root) == map["Node" := node]
    requires RefsWithin(root, {"Node"}) && RefsWithin(node, {"Node"}) && InPlaceBelow(node, rank, 0)
    requires ReachesWithin(root, {"Node"}, {"Node"}) && ReachesWithin(node, {"Node"}, {"Node"})
    ensures Resolved(DefsOf(root), root, {"Node"}) && IsGuarded(root)
  {
    assert rank.Keys == {"Node"};
    assert Guarded(root, rank, {"Node"});
  }

  lemma NodesCompile(ok: string -> bool)
    ensures Compiles(ok, NODES) && !RefFree(NODES) && IsGuarded(NODES)
  {
    var rank: map<string, nat> := map["Node" := 0];
    var defs := Definitions(map["Node" := Node()]);
    NodeRefers(ok, rank);
    WithDefs(ok, Node(), defs);
    assert NODES == Node().(defs := defs);
    NodesResolve(NODES, rank, Node());
  }

  ghost predicate AdmitsNodes(rules: Rules) {
    rules.admits(Node()) && rules.admits(Reference("Node")) && rules.rewrite([]) == Some([])
  }

  lemma NodeWalksToItself(rules: Rules, g: Components)
    requires AdmitsNodes(rules) && g == map["Node" := Node()]
    ensures Walk(rules, g, Node(), {"Node"}) == Some(Node())
    ensures Walk(rules, g, Reference("Node"), {}) == Some(Node())
  {
    assert Walk(rules, g, Reference("Node"), {"Node"}) == Some(Reference("Node"));
    assert Walk(rules, g, Node(), {"Node"}).Some?;
    WalkRebuilds(rules, g, Node(), {"Node"});
    WalkHasNoDefinitions(rules, g, Node(), {"Node"});
    assert Walk(rules, g, Node(), {"Node"}) == Some(Node());
    assert {} + {"Node"} == {"Node"};
  }

  lemma NodeIsNeeded(rules: Rules, g: Components)
    requires AdmitsNodes(rules) && g == map["Node" := Node()]
    ensures Needed(DefinitionsOf(rules, g), RefsIn(Node()), g.Keys) == {"Node"}
  {
    assert "Node" in RefsIn(Node()) by {
      assert "Node" in RefsIn(Reference("Node"));
    }
  }

  lemma OneDefinition(table: Table, d: Schema)
    requires table("Node") == Some(d) && !HoldsNothing(d)
    ensures Defined(table, {"Node"}) == Some(map["Node" := d])
  {
    var defs := map["Node" := d];
    AllIsDefined(table, defs);
    assert defs.Keys == {"Node"};
  }

  lemma ProjectionFromParts(rules: Rules, g: Components, node: Schema, t: Schema, defs: Defs)
    requires Walk(rules, g, node, {}) == Some(t)
    requires Defined(DefinitionsOf(rules, g), Needed(DefinitionsOf(rules, g), RefsIn(t), g.Keys)) == Some(defs)
    ensures IsProjection(rules, g, node, WithDefinitions(t, defs))
  {
  }

  /** NODES is the projection of a component that is a list of itself. */
  lemma NodesAreProjected(rules: Rules, g: Components)
    requires AdmitsNodes(rules) && g == map["Node" := Node()]
    ensures IsProjection(rules, g, Reference("Node"), NODES)
  {
    NodeWalksToItself(rules, g);
    NodeIsNeeded(rules, g);
    assert Node().items.Some?;
    OneDefinition(DefinitionsOf(rules, g), Node());
    ProjectionFromParts(rules, g, Reference("Node"), Node(), map["Node" := Node()]);
    assert WithDefinitions(Node(), map["Node" := Node()]) == NODES;
  }

  const ROUTE := "/{id}"

  lemma RouteHasId()
    ensures Scan(ROUTE) == ["id"]
  {
    ScanBraced("id", "");
    assert "{" + "id" + "}" + "" == "{id}";
    ScanLiteral("/", "{id}");
    assert "/" + "{id}" == ROUTE;
    assert Scan("") == [];
  }

  /** A scan with one DELETE endpoint without a body, matched in a document that gives `id` a schema. */
  function DeleteById(sourced: Schema): Call {
    var enrichment := NO_ENRICHMENT.(pathParamSchemas := map["id" := sourced]);
    var ep := Endpoint("DELETE", ROUTE, Some("remove"), false, Some("remove"), None);
    Call(
      Env((file, handler) => Some(false), {}), "feature", "uid",
      ScanReport(None, [Module("items", [Controller(Some("Items.java"), [ep], [])])], []), "",
      Some(Reconciliation(map[EndpointKey(0, 0) := Matched("DELETE", ROUTE, enrichment)], [], map[])))
  }

  lemma OnlyEndpoint(sourced: Schema) returns (site: Site)
    ensures Endpoints(DeleteById(sourced)) == [site]
    ensures RequestedId(site) == Some("remove") && RecordOf(DeleteById(sourced).env, site).body == Absent
    ensures AddressOf(site).route == ROUTE && AddressOf(site).enrichment.pathParamSchemas == map["id" := sourced]
  {
    var call := DeleteById(sourced);
    var controllers := Target(call).value.controllers;
    site := SiteAt(controllers, call.openapi, 0, 0);
    assert ControllerSites(controllers, call.openapi, 0, 0) == [];
    assert ControllerSites(controllers, call.openapi, 0, 1) == [site];
    assert Sites(controllers, call.openapi, 0) == [];
    assert Endpoints(call) == [site];
  }

  /** A recursive parameter schema compiles and is decided alone, and yet the operation that is emitted
      for its endpoint refuses every request. */
  lemma RecursivePathParameterBreaksRequests(ajv: Compiler, ok: string -> bool, sat: Oracle, envelope: Envelope)
    requires Faithful(ajv, ok, sat) && envelope.direction == Request && envelope.operationId == "remove"
    ensures Compiles(ok, NODES) && IsGuarded(NODES)
    ensures "remove" in Emitted(DeleteById(NODES)).operations
    ensures UncompilableSchema in Problems(ajv, envelope, Emitted(DeleteById(NODES)))
  {
    var call := DeleteById(NODES);
    NodesCompile(ok);
    RouteHasId();
    var site := OnlyEndpoint(NODES);
    assert IsFirst(Endpoints(call), 0, "remove");
    FirstOccurrenceWins(call, "remove");
    ReferringParameterRefusesRequests(ajv, ok, sat, call, envelope, 0, "id");
  }

  // ------------------------------------------------------------------ colliding names

  const TEXT: Schema := Named("Key", ANYTHING.(types := [StringType]))
  const NUMBER: Schema := Named("Key", ANYTHING.(types := [NumberType]))

  lemma NoSubschemas(sat: Oracle, defs: Defs, s: Schema, v: Json, fuel: nat)
    requires s == ANYTHING.(types := s.types, ref := s.ref, defs := s.defs)
    ensures SettledBranches(defs, s, v, fuel) && AcceptsBranches(sat, defs, s, v, fuel)
    ensures v.Obj? ==> SettledMembers(defs, s, v.fields, fuel) && AcceptsMembers(sat, defs, s, v.fields, fuel)
    ensures v.Arr? ==> SettledItems(defs, s, v.items, fuel) && AcceptsItems(sat, defs, s, v.items, fuel)
  {
  }

  /** A schema with no keyword but one type. */
  lemma TypeVerdict(sat: Oracle, defs: Defs, t: JsonType, v: Json, fuel: nat)
    ensures Settled(defs, ANYTHING.(types := [t]), v, fuel)
    ensures Accepts(sat, defs, ANYTHING.(types := [t]), v, fuel) <==> TypeOf(v) == t
  {
    var s := ANYTHING.(types := [t]);
    assert s.types[0] == t;
    NoSubschemas(sat, defs, s, v, fuel);
  }

  lemma NothingButARef(sat: Oracle, defs: Defs, s: Schema, v: Json, fuel: nat)
    requires s == ANYTHING.(ref := s.ref, defs := s.defs) && s.ref.Some? && s.ref.value in defs && fuel > 0
    ensures Settled(defs, s, v, fuel) <==> Settled(defs, defs[s.ref.value], v, fuel - 1)
    ensures Accepts(sat, defs, s, v, fuel) <==> Accepts(sat, defs, defs[s.ref.value], v, fuel - 1)
  {
    NoSubschemas(sat, defs, s, v, fuel);
  }

  lemma NamedVerdict(sat: Oracle, defs: Defs, s: Schema, t: JsonType, v: Json)
    requires s == TEXT || s == NUMBER
    requires "Key" in defs && defs["Key"] == ANYTHING.(types := [t])
    ensures Settled(defs, s, v, 1)
    ensures Accepts(sat, defs, s, v, 1) <==> TypeOf(v) == t
  {
    TypeVerdict(sat, defs, t, v, 0);
    NothingButARef(sat, defs, s, v, 1);
  }

  lemma NumberCompiles(ok: string -> bool)
    ensures Compiles(ok, NUMBER) && Resolved(DefsOf(NUMBER), NUMBER, {"Key"})
  {
    assert WellFormed(ok, ANYTHING.(types := [NumberType]));
    assert RefsWithin(ANYTHING.(types := [NumberType]), {"Key"});
    assert Resolved(DefsOf(NUMBER), NUMBER, {"Key"});
  }

  lemma TextIsWellFormed(ok: string -> bool)
    ensures WellFormed(ok, TEXT) && RefsWithin(TEXT, {"Key"})
  {
    assert WellFormed(ok, ANYTHING.(types := [StringType]));
  }

  lemma OneParameterWellFormed(ok: string -> bool, s: Schema)
    requires WellFormed(ok, s)
    ensures WellFormed(ok, ParamsSchema(["id"], map["id" := s]))
  {
    var p := ParamsSchema(["id"], map["id" := s]);
    assert forall name | name in p.properties :: p.properties[name] == s;
  }

  lemma CollisionCompiles(ok: string -> bool)
    ensures Compiles(ok, RequestWrapper(ParamsSchema(["id"], map["id" := TEXT]), NUMBER, Expected))
  {
    var p := ParamsSchema(["id"], map["id" := TEXT]);
    NumberCompiles(ok);
    TextIsWellFormed(ok);
    OneParameterWellFormed(ok, TEXT);
    ParamsRefsWithinIff(["id"], map["id" := TEXT], {"Key"});
    BodiedWellFormedIff(ok, p, NUMBER, Expected);
    BodiedResolvedIff(p, NUMBER, Expected, {"Key"});
  }

  lemma CollisionVerdict(sat: Oracle, id: Json)
    ensures var p := ParamsSchema(["id"], map["id" := TEXT]);
      var v := Obj(map["pathParams" := Obj(map["id" := id]), "body" := Number(1)]);
      Valid(sat, RequestWrapper(p, NUMBER, Expected), v) <==> TypeOf(id) == NumberType
  {
    var p := ParamsSchema(["id"], map["id" := TEXT]);
    var given := Obj(map["id" := id]);
    var v := Obj(map["pathParams" := given, "body" := Number(1)]);
    RequestWrapperIsExact(sat, p, NUMBER, Expected, v);
    ParamsValidIff(sat, DefsOf(NUMBER), ["id"], map["id" := TEXT], given);
    NamedVerdict(sat, DefsOf(NUMBER), NUMBER, NumberType, Number(1));
    NamedVerdict(sat, DefsOf(NUMBER), TEXT, NumberType, id);
    assert AcceptedWith(sat, NUMBER, Number(1), 1);
    assert v.fields.Keys == {"pathParams", "body"} && given.fields.Keys == {"id"};
    assert "id" in ["id"] && (set name | name in ["id"]) == {"id"};
    if fuel: nat :| AcceptedUnder(sat, DefsOf(NUMBER), TEXT, id, fuel) {
      if fuel > 1 {
        MoreFuel(sat, DefsOf(NUMBER), TEXT, id, 1, fuel);
      }
    }
    assert TypeOf(id) == NumberType ==> AcceptedUnder(sat, DefsOf(NUMBER), TEXT, id, 1);
  }

  /** With a body the wrapper may compile and still misread the parameter: if both schemas define the
      same name differently, the body's definition is the one that counts. */
  lemma CollidingDefinitionMisleads(ok: string -> bool, sat: Oracle)
    ensures var p := ParamsSchema(["id"], map["id" := TEXT]);
      var good := Obj(map["pathParams" := Obj(map["id" := Str("a")]), "body" := Number(1)]);
      var bad := Obj(map["pathParams" := Obj(map["id" := Number(2)]), "body" := Number(1)]);
      && Compiles(ok, RequestWrapper(p, NUMBER, Expected))
      && Valid(sat, TEXT, Str("a")) && !Valid(sat, RequestWrapper(p, NUMBER, Expected), good)
      && Invalid(sat, TEXT, Number(2)) && Valid(sat, RequestWrapper(p, NUMBER, Expected), bad)
  {
    var p := ParamsSchema(["id"], map["id" := TEXT]);
    var good := Obj(map["pathParams" := Obj(map["id" := Str("a")]), "body" := Number(1)]);
    var bad := Obj(map["pathParams" := Obj(map["id" := Number(2)]), "body" := Number(1)]);
    CollisionCompiles(ok);
    NamedVerdict(sat, DefsOf(TEXT), TEXT, StringType, Str("a"));
    NamedVerdict(sat, DefsOf(TEXT), TEXT, StringType, Number(2));
    assert AcceptedWith(sat, TEXT, Str("a"), 1);
    assert RejectedWith(sat, TEXT, Number(2), 1);
    CollisionVerdict(sat, Str("a"));
    CollisionVerdict(sat, Number(2));
  }
}
