/**
  Projecting one schema of an OpenAPI document into a self-contained JSON Schema (contracts/openapi.mjs,
  inlineSchema and walkSchemaNode): references to components are inlined, except where a component leads
  back to itself; there a reference into `$defs` remains, and the definitions needed are collected.

  A component table is a table of schemas whose `$ref` names a component. Messages, documentation keywords
  and the budgets for depth and node count, which only refuse more, are not modelled.
 */
module SchemaProjection {
  import opened Prelude
  import opened JsonSchema
  import opened SchemaVerdicts

  type Components = map<string, Schema>

  /** What is checked of each node by itself: `admits` stands for the keyword, name and pattern checks,
      `rewrite` for what becomes of its assertions (None where one of them is not supported). */
  datatype Rules = Rules(admits: Schema -> bool, rewrite: seq<string> -> Option<seq<string>>)

  function Reference(name: string): Schema {
    ANYTHING.(ref := Some(name))
  }

  predicate IsBare(s: Schema) {
    s.ref.Some? && s == Reference(s.ref.value)
  }

  // ------------------------------------------------------------------ the walk

  /** `visiting` holds the components being inlined around this node. */
  function Walk(rules: Rules, g: Components, node: Schema, visiting: set<string>): (r: Option<Schema>)
    decreases g.Keys - visiting, node
  {
    if !rules.admits(node) then None
    else if node.ref.Some? then
      var name := node.ref.value;
      if !IsBare(node) then None
      else if name in visiting then Some(Reference(name))
      else if name !in g then None
      else Walk(rules, g, g[name], visiting + {name})
    else if node.defs.Definitions? || rules.rewrite(node.assertions).None? ||
      !WalksInside(rules, g, node, visiting) then None
    else Some(Schema(
      NoDefs, None, node.types, rules.rewrite(node.assertions).value,
      map k | k in node.properties :: Walk(rules, g, node.properties[k], visiting).value,
      node.required,
      if node.additional.Constrained? then Constrained(Walk(rules, g, node.additional.schema, visiting).value)
        else node.additional,
      if node.names.Some? then Walk(rules, g, node.names.value, visiting) else None,
      seq(|node.prefix|, i requires 0 <= i < |node.prefix| => Walk(rules, g, node.prefix[i], visiting).value),
      if node.items.Some? then Walk(rules, g, node.items.value, visiting) else None,
      seq(|node.branches|, i requires 0 <= i < |node.branches| => WalkBranch(rules, g, node.branches[i], visiting))))
  }

  /** No schema inside the node is refused. */
  predicate WalksInside(rules: Rules, g: Components, node: Schema, visiting: set<string>)
    decreases g.Keys - visiting, node, 0
  {
    && (forall k | k in node.properties :: Walk(rules, g, node.properties[k], visiting).Some?)
    && (node.additional.Constrained? ==> Walk(rules, g, node.additional.schema, visiting).Some?)
    && (node.names.Some? ==> Walk(rules, g, node.names.value, visiting).Some?)
    && (forall i | 0 <= i < |node.prefix| :: Walk(rules, g, node.prefix[i], visiting).Some?)
    && (node.items.Some? ==> Walk(rules, g, node.items.value, visiting).Some?)
    && forall i | 0 <= i < |node.branches| :: BranchWalks(rules, g, node.branches[i], visiting)
  }

  predicate BranchWalks(rules: Rules, g: Components, b: Branch, visiting: set<string>)
    decreases g.Keys - visiting, b, 0
  {
    b.schemas != [] && forall j | 0 <= j < |b.schemas| :: Walk(rules, g, b.schemas[j], visiting).Some?
  }

  function WalkBranch(rules: Rules, g: Components, b: Branch, visiting: set<string>): Branch
    requires BranchWalks(rules, g, b, visiting)
    decreases g.Keys - visiting, b, 1
  {
    Branch(b.mode, seq(|b.schemas|, j requires 0 <= j < |b.schemas| => Walk(rules, g, b.schemas[j], visiting).value))
  }

  ghost predicate RebuiltBranch(rules: Rules, g: Components, b: Branch, visiting: set<string>, t: Branch) {
    && t.mode == b.mode && |t.schemas| == |b.schemas|
    && forall j | 0 <= j < |b.schemas| :: Walk(rules, g, b.schemas[j], visiting) == Some(t.schemas[j])
  }

  /** What `Walk` says of a node that is no reference. */
  ghost predicate Rebuilt(rules: Rules, g: Components, n: Schema, visiting: set<string>, t: Schema) {
    && n.ref.None? && t.ref.None? && t.types == n.types && t.required == n.required
    && rules.rewrite(n.assertions) == Some(t.assertions)
    && t.properties.Keys == n.properties.Keys
    && (forall k | k in n.properties :: Walk(rules, g, n.properties[k], visiting) == Some(t.properties[k]))
    && (n.additional.Constrained? <==> t.additional.Constrained?)
    && (n.additional.Constrained? ==> Walk(rules, g, n.additional.schema, visiting) == Some(t.additional.schema))
    && (!n.additional.Constrained? ==> t.additional == n.additional)
    && (n.names.Some? <==> t.names.Some?) &&
       (n.names.Some? ==> Walk(rules, g, n.names.value, visiting) == Some(t.names.value))
    && |t.prefix| == |n.prefix| && (forall i | 0 <= i < |n.prefix| ::
       Walk(rules, g, n.prefix[i], visiting) == Some(t.prefix[i]))
    && (n.items.Some? <==> t.items.Some?) &&
       (n.items.Some? ==> Walk(rules, g, n.items.value, visiting) == Some(t.items.value))
    && |t.branches| == |n.branches| &&
       (forall i | 0 <= i < |n.branches| :: RebuiltBranch(rules, g, n.branches[i], visiting, t.branches[i]))
  }

  lemma BranchRebuilds(rules: Rules, g: Components, b: Branch, visiting: set<string>)
    requires BranchWalks(rules, g, b, visiting)
    ensures RebuiltBranch(rules, g, b, visiting, WalkBranch(rules, g, b, visiting))
  {
  }

  lemma WalkRebuilds(rules: Rules, g: Components, n: Schema, visiting: set<string>)
    requires n.ref.None? && Walk(rules, g, n, visiting).Some?
    ensures Rebuilt(rules, g, n, visiting, Walk(rules, g, n, visiting).value)
  {
    forall i | 0 <= i < |n.branches|
      ensures RebuiltBranch(rules, g, n.branches[i], visiting, WalkBranch(rules, g, n.branches[i], visiting)) {
      BranchRebuilds(rules, g, n.branches[i], visiting);
    }
  }

  // ------------------------------------------------------------------ what the result still refers to

  function RefsIn(s: Schema): set<string>
    decreases s, 1
  {
    (if s.ref.Some? then {s.ref.value} else {}) + PropertyRefs(s) + AdditionalRefs(s) + OptionRefs(s.names)
    + SeqRefs(s.prefix) + OptionRefs(s.items) + BranchesRefs(s)
  }

  function AdditionalRefs(s: Schema): set<string>
    decreases s, 0
  {
    if s.additional.Constrained? then RefsIn(s.additional.schema) else {}
  }

  function OptionRefs(s: Option<Schema>): set<string> {
    if s.Some? then RefsIn(s.value) else {}
  }

  function PropertyRefs(s: Schema): set<string>
    decreases s, 0
  {
    set k, x | k in s.properties && x in RefsIn(s.properties[k]) :: x
  }

  function SeqRefs(schemas: seq<Schema>): set<string> {
    set i, x | 0 <= i < |schemas| && x in RefsIn(schemas[i]) :: x
  }

  function BranchesRefs(s: Schema): set<string>
    decreases s, 0
  {
    set i, x | 0 <= i < |s.branches| && x in SeqRefs(s.branches[i].schemas) :: x
  }

  lemma {:induction false} RefsWithinIff(s: Schema, c: set<string>)
    ensures RefsWithin(s, c) <==> RefsIn(s) <= c
    decreases s, 1
  {
    PropertyRefsIff(s, c);
    AdditionalRefsIff(s, c);
    OptionRefsIff(s.names, c);
    SeqRefsIff(s.prefix, c);
    OptionRefsIff(s.items, c);
    BranchesRefsIff(s, c);
  }

  lemma {:induction false} AdditionalRefsIff(s: Schema, c: set<string>)
    ensures (s.additional.Constrained? ==> RefsWithin(s.additional.schema, c)) <==> AdditionalRefs(s) <= c
    decreases s, 0
  {
    if s.additional.Constrained? { RefsWithinIff(s.additional.schema, c); }
  }

  lemma {:induction false} OptionRefsIff(s: Option<Schema>, c: set<string>)
    ensures (s.Some? ==> RefsWithin(s.value, c)) <==> OptionRefs(s) <= c
    decreases s, 0
  {
    if s.Some? { RefsWithinIff(s.value, c); }
  }

  lemma {:induction false} PropertyRefsIff(s: Schema, c: set<string>)
    ensures (forall k | k in s.properties :: RefsWithin(s.properties[k], c)) <==> PropertyRefs(s) <= c
    decreases s, 0
  {
    forall k | k in s.properties ensures RefsWithin(s.properties[k], c) <==> RefsIn(s.properties[k]) <= c {
      RefsWithinIff(s.properties[k], c);
    }
  }

  lemma {:induction false} SeqRefsIff(schemas: seq<Schema>, c: set<string>)
    ensures (forall i | 0 <= i < |schemas| :: RefsWithin(schemas[i], c)) <==> SeqRefs(schemas) <= c
    decreases schemas, 0
  {
    forall i | 0 <= i < |schemas| ensures RefsWithin(schemas[i], c) <==> RefsIn(schemas[i]) <= c {
      RefsWithinIff(schemas[i], c);
    }
  }

  lemma {:induction false} BranchesRefsIff(s: Schema, c: set<string>)
    ensures (forall i | 0 <= i < |s.branches| :: BranchRefsWithin(s.branches[i], c)) <==> BranchesRefs(s) <= c
    decreases s, 0
  {
    forall i | 0 <= i < |s.branches| ensures BranchRefsWithin(s.branches[i], c) <==>
      SeqRefs(s.branches[i].schemas) <= c {
      SeqRefsIff(s.branches[i].schemas, c);
    }
  }

  /** Only components are referred to. */
  lemma {:induction false} WalkRefersToComponents(rules: Rules, g: Components, n: Schema, visiting: set<string>)
    requires visiting <= g.Keys && Walk(rules, g, n, visiting).Some?
    ensures RefsWithin(Walk(rules, g, n, visiting).value, g.Keys)
    decreases g.Keys - visiting, n
  {
    if n.ref.Some? {
      if n.ref.value !in visiting {
        WalkRefersToComponents(rules, g, g[n.ref.value], visiting + {n.ref.value});
      }
    } else {
      WalkRebuilds(rules, g, n, visiting);
      var t := Walk(rules, g, n, visiting).value;
      forall k | k in n.properties ensures RefsWithin(t.properties[k],
        g.Keys) { WalkRefersToComponents(rules, g, n.properties[k], visiting); }
      if n.additional.Constrained? { WalkRefersToComponents(rules, g, n.additional.schema, visiting); }
      if n.names.Some? { WalkRefersToComponents(rules, g, n.names.value, visiting); }
      forall i | 0 <= i < |n.prefix|
        ensures RefsWithin(t.prefix[i], g.Keys) { WalkRefersToComponents(rules, g, n.prefix[i], visiting); }
      if n.items.Some? { WalkRefersToComponents(rules, g, n.items.value, visiting); }
      forall i | 0 <= i < |n.branches| ensures BranchRefsWithin(t.branches[i], g.Keys) {
        forall j | 0 <= j < |n.branches[i].schemas| ensures RefsWithin(t.branches[i].schemas[j], g.Keys) {
          WalkRefersToComponents(rules, g, n.branches[i].schemas[j], visiting);
        }
      }
    }
  }

  // ------------------------------------------------------------------ the definitions

  /** What a name becomes as a definition. */
  type Table = string -> Option<Schema>

  function DefinitionsOf(rules: Rules, g: Components): Table {
    x => if x in g then Walk(rules, g, g[x], {x}) else None
  }

  /** Nothing but a reference: real content appears nowhere on the way back. */
  predicate HoldsNothing(s: Schema) {
    s.(ref := None) == ANYTHING
  }

  predicate Usable(table: Table, x: string) {
    table(x).Some? && !HoldsNothing(table(x).value)
  }

  /** c holds the names in `start` and what the definitions of its names refer to. */
  ghost predicate ClosedFrom(table: Table, start: set<string>, c: set<string>) {
    start <= c && forall x | x in c && table(x).Some? :: RefsIn(table(x).value) <= c
  }

  ghost predicate IsNeeded(table: Table, start: set<string>, x: string) {
    forall c | ClosedFrom(table, start, c) :: x in c
  }

  /** The names in reach of `start`, and no others. */
  ghost function Needed(table: Table, start: set<string>, names: set<string>): set<string> {
    set x | x in names && IsNeeded(table, start, x)
  }

  function WithDefinitions(t: Schema, defs: Defs): Schema {
    if defs == map[] then t else t.(defs := Definitions(defs))
  }

  ghost function Defined(table: Table, c: set<string>): Option<Defs> {
    if forall x | x in c :: Usable(table, x) then Some(map x | x in c :: table(x).value) else None
  }

  /** The projection of a node: its walk, with all the definitions needed and no others. */
  ghost function Projection(rules: Rules, g: Components, node: Schema): Option<Schema> {
    match Walk(rules, g, node, {})
    case None => None
    case Some(t) =>
      match Defined(DefinitionsOf(rules, g), Needed(DefinitionsOf(rules, g), RefsIn(t), g.Keys))
      case None => None
      case Some(defs) => Some(WithDefinitions(t, defs))
  }

  /** What the drain keeps: the definitions so far are usable, and what they refer to is needed. */
  ghost predicate Draining(table: Table, start: set<string>, names: set<string>, defs: Defs, needed: set<string>) {
    && start <= needed <= Needed(table, start, names) && defs.Keys <= needed
    && forall x | x in defs :: Usable(table, x) && defs[x] == table(x).value && RefsIn(defs[x]) <= needed
  }

  lemma ReferredIsNeeded(table: Table, start: set<string>, x: string, y: string)
    requires IsNeeded(table, start, x) && table(x).Some? && y in RefsIn(table(x).value)
    ensures IsNeeded(table, start, y)
  {
    forall c | ClosedFrom(table, start, c) ensures y in c {
      assert x in c;
    }
  }

  lemma DrainGoesOn(table: Table, start: set<string>, names: set<string>, defs: Defs, needed: set<string>, x: string)
    requires Draining(table, start, names, defs, needed) && x in needed && Usable(table, x) &&
      RefsIn(table(x).value) <= names
    ensures Draining(table, start, names, defs[x := table(x).value], needed + RefsIn(table(x).value))
  {
    forall y | y in RefsIn(table(x).value) ensures y in Needed(table, start, names) {
      ReferredIsNeeded(table, start, x, y);
    }
  }

  lemma AllIsDefined(table: Table, defs: Defs)
    requires forall x | x in defs :: Usable(table, x) && table(x).value == defs[x]
    ensures Defined(table, defs.Keys) == Some(defs)
  {
    var all := map x | x in defs.Keys :: table(x).value;
    assert all.Keys == defs.Keys;
    assert forall x | x in defs :: all[x] == defs[x];
    assert all == defs;
  }

  lemma AllIsNeeded(table: Table, start: set<string>, names: set<string>, defs: Defs)
    requires Draining(table, start, names, defs, defs.Keys)
    ensures Needed(table, start, names) == defs.Keys
  {
    assert ClosedFrom(table, start, defs.Keys);
    forall x | x in Needed(table, start, names) ensures x in defs {
      assert IsNeeded(table, start, x);
    }
  }

  lemma DrainFails(table: Table, start: set<string>, names: set<string>, defs: Defs, needed: set<string>, x: string)
    requires Draining(table, start, names, defs, needed) && x in needed && !Usable(table, x)
    ensures Defined(table, Needed(table, start, names)) == None
  {
  }

  lemma NeededIsClosed(table: Table, start: set<string>, names: set<string>)
    requires start <= names && forall x | x in names && table(x).Some? :: RefsIn(table(x).value) <= names
    ensures ClosedFrom(table, start, Needed(table, start, names))
  {
    forall x, y | x in Needed(table, start, names) && table(x).Some? && y in RefsIn(table(x).value)
      ensures y in Needed(table, start, names)
    {
      ReferredIsNeeded(table, start, x, y);
    }
  }

  lemma DefinitionsReferToComponents(rules: Rules, g: Components, x: string)
    requires DefinitionsOf(rules, g)(x).Some?
    ensures RefsIn(DefinitionsOf(rules, g)(x).value) <= g.Keys
  {
    WalkRefersToComponents(rules, g, g[x], {x});
    RefsWithinIff(DefinitionsOf(rules, g)(x).value, g.Keys);
  }

  lemma RootRefersToComponents(rules: Rules, g: Components, node: Schema)
    requires Walk(rules, g, node, {}).Some?
    ensures RefsIn(Walk(rules, g, node, {}).value) <= g.Keys
  {
    WalkRefersToComponents(rules, g, node, {});
    RefsWithinIff(Walk(rules, g, node, {}).value, g.Keys);
  }

  method Drain(rules: Rules, g: Components, start: set<string>) returns (r: Option<Defs>)
    requires start <= g.Keys
    ensures r == Defined(DefinitionsOf(rules, g), Needed(DefinitionsOf(rules, g), start, g.Keys))
  {
    var table := DefinitionsOf(rules, g);
    var defs: Defs, needed := map[], start;
    while needed - defs.Keys != {}
      invariant Draining(table, start, g.Keys, defs, needed)
      decreases g.Keys - defs.Keys
    {
      var pending := needed - defs.Keys;
      ghost var before := defs.Keys;
      while pending != {}
        invariant Draining(table, start, g.Keys, defs, needed)
        invariant pending <= needed && pending !! defs.Keys && before <= defs.Keys
        invariant pending == {} ==> before < defs.Keys
        decreases pending
      {
        var name :| name in pending;
        if !Usable(table, name) {
          DrainFails(table, start, g.Keys, defs, needed, name);
          return None;
        }
        DefinitionsReferToComponents(rules, g, name);
        DrainGoesOn(table, start, g.Keys, defs, needed, name);
        defs, needed, pending := defs[name := table(name).value], needed + RefsIn(table(name).value), pending - {name};
      }
    }
    forall x | x in needed ensures x in defs {
      assert x !in needed - defs.Keys;
    }
    assert needed == defs.Keys;
    AllIsNeeded(table, start, g.Keys, defs);
    AllIsDefined(table, defs);
    return Some(defs);
  }

  /** The walk, then rounds over the names still without a definition, until none is left. */
  method InlineSchema(rules: Rules, g: Components, node: Schema) returns (r: Option<Schema>)
    ensures r == Projection(rules, g, node)
  {
    var schema := Walk(rules, g, node, {});
    if schema.None? {
      return None;
    }
    RootRefersToComponents(rules, g, node);
    var drained := Drain(rules, g, RefsIn(schema.value));
    return if drained.None? then None else Some(WithDefinitions(schema.value, drained.value));
  }
}
