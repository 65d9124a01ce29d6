/**
  Which components the projection inlines, defines and refuses (contracts/openapi.mjs), told by the component
  graph alone: the names each schema refers to, and what leads back to itself.
 */
module ComponentCycles {
  import opened Prelude
  import opened JsonSchema
  import opened SchemaProjection
  import opened SchemaVerdicts
  import opened ProjectionMeaning
  import opened ProjectionProperties

  // ------------------------------------------------------------------ one node

  /** Nothing in the node itself is refused. */
  ghost predicate Supported(rules: Rules, n: Schema) {
    && rules.admits(n) && (n.ref.Some? ==> IsBare(n))
    && (n.ref.None? ==> n.defs.NoDefs? && rules.rewrite(n.assertions).Some?)
    && (forall k | k in n.properties :: Supported(rules, n.properties[k]))
    && (n.additional.Constrained? ==> Supported(rules, n.additional.schema))
    && (n.names.Some? ==> Supported(rules, n.names.value))
    && (forall i | 0 <= i < |n.prefix| :: Supported(rules, n.prefix[i]))
    && (n.items.Some? ==> Supported(rules, n.items.value))
    && forall i | 0 <= i < |n.branches| :: SupportedBranch(rules, n.branches[i])
  }

  ghost predicate SupportedBranch(rules: Rules, b: Branch) {
    b.schemas != [] && forall j | 0 <= j < |b.schemas| :: Supported(rules, b.schemas[j])
  }

  /** The walk succeeds and leaves references to names in c only. */
  ghost predicate WalksWithin(rules: Rules, g: Components, n: Schema, visiting: set<string>, c: set<string>) {
    Walk(rules, g, n, visiting).Some? && RefsWithin(Walk(rules, g, n, visiting).value, c)
  }

  /** The names that a reference inside such a node may have. */
  ghost function Passing(rules: Rules, g: Components, visiting: set<string>, c: set<string>): set<string> {
    set x | x in g && if x in visiting then x in c else WalksWithin(rules, g, g[x], visiting + {x}, c)
  }

  lemma ReferenceWalksWithinIff(rules: Rules, g: Components, n: Schema, visiting: set<string>, c: set<string>)
    requires visiting <= g.Keys && n.ref.Some?
    ensures WalksWithin(rules, g, n, visiting, c) <==>
      Supported(rules, n) && RefsWithin(n, Passing(rules, g, visiting, c))
  {
  }

  ghost predicate BranchWalksWithin(rules: Rules, g: Components, b: Branch, visiting: set<string>, c: set<string>) {
    b.schemas != [] && forall j | 0 <= j < |b.schemas| :: WalksWithin(rules, g, b.schemas[j], visiting, c)
  }

  /** Each part of a node that is no reference walks. */
  ghost predicate PartsWalk(rules: Rules, g: Components, n: Schema, visiting: set<string>, c: set<string>) {
    && rules.admits(n) && n.defs.NoDefs? && rules.rewrite(n.assertions).Some?
    && (forall k | k in n.properties :: WalksWithin(rules, g, n.properties[k], visiting, c))
    && (n.additional.Constrained? ==> WalksWithin(rules, g, n.additional.schema, visiting, c))
    && (n.names.Some? ==> WalksWithin(rules, g, n.names.value, visiting, c))
    && (forall i | 0 <= i < |n.prefix| :: WalksWithin(rules, g, n.prefix[i], visiting, c))
    && (n.items.Some? ==> WalksWithin(rules, g, n.items.value, visiting, c))
    && forall i | 0 <= i < |n.branches| :: BranchWalksWithin(rules, g, n.branches[i], visiting, c)
  }

  lemma BranchOfAWalk(rules: Rules, g: Components, n: Schema, visiting: set<string>, c: set<string>, i: nat)
    requires n.ref.None? && WalksWithin(rules, g, n, visiting, c) && i < |n.branches|
    ensures BranchWalksWithin(rules, g, n.branches[i], visiting, c)
  {
    var t := Walk(rules, g, n, visiting).value;
    assert BranchWalks(rules, g, n.branches[i], visiting) by { assert WalksInside(rules, g, n, visiting); }
    WalkRebuilds(rules, g, n, visiting);
    assert BranchRefsWithin(t.branches[i], c);
  }

  lemma PartsOfAWalk(rules: Rules, g: Components, n: Schema, visiting: set<string>, c: set<string>)
    requires n.ref.None? && WalksWithin(rules, g, n, visiting, c)
    ensures PartsWalk(rules, g, n, visiting, c)
  {
    var t := Walk(rules, g, n, visiting).value;
    WalkRebuilds(rules, g, n, visiting);
    forall i | 0 <= i < |n.branches| ensures BranchWalksWithin(rules, g, n.branches[i], visiting, c) {
      BranchOfAWalk(rules, g, n, visiting, c, i);
    }
  }

  lemma PartsMakeAWalk(rules: Rules, g: Components, n: Schema, visiting: set<string>, c: set<string>)
    requires n.ref.None? && PartsWalk(rules, g, n, visiting, c)
    ensures WalksWithin(rules, g, n, visiting, c)
  {
    forall i | 0 <= i < |n.branches| ensures BranchWalks(rules, g, n.branches[i], visiting) {
      assert BranchWalksWithin(rules, g, n.branches[i], visiting, c);
    }
    assert WalksInside(rules, g, n, visiting) && rules.admits(n);
    assert Walk(rules, g, n, visiting).Some?;
    WalkRebuilds(rules, g, n, visiting);
    var t := Walk(rules, g, n, visiting).value;
    forall i | 0 <= i < |t.branches| ensures BranchRefsWithin(t.branches[i], c) {
      assert BranchWalksWithin(rules, g, n.branches[i], visiting, c);
    }
  }

  lemma {:induction false} WalksWithinIff(rules: Rules, g: Components, n: Schema, visiting: set<string>, c: set<string>)
    requires visiting <= g.Keys
    ensures WalksWithin(rules, g, n, visiting, c) <==>
      Supported(rules, n) && RefsWithin(n, Passing(rules, g, visiting, c))
    decreases n, 1
  {
    if n.ref.Some? {
      ReferenceWalksWithinIff(rules, g, n, visiting, c);
    } else {
      PartsWalkIff(rules, g, n, visiting, c);
      if WalksWithin(rules, g, n, visiting, c) {
        PartsOfAWalk(rules, g, n, visiting, c);
      } else if PartsWalk(rules, g, n, visiting, c) {
        PartsMakeAWalk(rules, g, n, visiting, c);
      }
    }
  }

  lemma {:induction false} PartsWalkIff(rules: Rules, g: Components, n: Schema, visiting: set<string>, c: set<string>)
    requires visiting <= g.Keys && n.ref.None?
    ensures PartsWalk(rules, g, n, visiting, c) <==>
      Supported(rules, n) && RefsWithin(n, Passing(rules, g, visiting, c))
    decreases n, 0
  {
    var p := Passing(rules, g, visiting, c);
    forall k | k in n.properties
      ensures WalksWithin(rules, g, n.properties[k], visiting, c) <==>
        Supported(rules, n.properties[k]) && RefsWithin(n.properties[k], p)
    {
      WalksWithinIff(rules, g, n.properties[k], visiting, c);
    }
    if n.additional.Constrained? { WalksWithinIff(rules, g, n.additional.schema, visiting, c); }
    if n.names.Some? { WalksWithinIff(rules, g, n.names.value, visiting, c); }
    forall i | 0 <= i < |n.prefix|
      ensures WalksWithin(rules, g, n.prefix[i], visiting, c) <==>
        Supported(rules, n.prefix[i]) && RefsWithin(n.prefix[i], p)
    {
      WalksWithinIff(rules, g, n.prefix[i], visiting, c);
    }
    if n.items.Some? { WalksWithinIff(rules, g, n.items.value, visiting, c); }
    forall i | 0 <= i < |n.branches|
      ensures BranchWalksWithin(rules, g, n.branches[i], visiting, c) <==>
        SupportedBranch(rules, n.branches[i]) && BranchRefsWithin(n.branches[i], p)
    {
      BranchWalksWithinIff(rules, g, n.branches[i], visiting, c);
    }
  }

  lemma {:induction false} BranchWalksWithinIff(
    rules: Rules, g: Components, b: Branch, visiting: set<string>, c: set<string>)
    requires visiting <= g.Keys
    ensures BranchWalksWithin(rules, g, b, visiting, c) <==>
      SupportedBranch(rules, b) && BranchRefsWithin(b, Passing(rules, g, visiting, c))
    decreases b, 0
  {
    forall j | 0 <= j < |b.schemas|
      ensures WalksWithin(rules, g, b.schemas[j], visiting, c) <==>
        Supported(rules, b.schemas[j]) && RefsWithin(b.schemas[j], Passing(rules, g, visiting, c))
    {
      WalksWithinIff(rules, g, b.schemas[j], visiting, c);
    }
  }

  // ------------------------------------------------------------------ the component graph

  /** The components in c refer to each other alone. */
  ghost predicate Closed(g: Components, c: set<string>) {
    c <= g.Keys && forall x | x in c :: RefsIn(g[x]) <= c
  }

  /** Following the references of n leads to x. */
  ghost predicate Reaches(g: Components, n: Schema, x: string) {
    x in g && forall c | Closed(g, c) && RefsIn(n) <= c :: x in c
  }

  /** The component leads back to itself. */
  ghost predicate IsRecursive(g: Components, x: string) {
    x in g && Reaches(g, g[x], x)
  }

  /** Components that are nothing but references among themselves. */
  ghost predicate BareLoop(g: Components, b: set<string>) {
    b <= g.Keys && forall x | x in b :: IsBare(g[x]) && g[x].ref.value in b
  }

  /** All the components in c are supported, and n leads to no others. */
  ghost predicate SupportedWithin(rules: Rules, g: Components, n: Schema, c: set<string>) {
    Closed(g, c) && RefsIn(n) <= c && forall x | x in c :: Supported(rules, g[x])
  }

  /** Everything that n leads to is there and supported. */
  ghost predicate AllSupported(rules: Rules, g: Components, n: Schema) {
    Supported(rules, n) && exists c :: SupportedWithin(rules, g, n, c)
  }

  lemma ReachesOn(g: Components, n: Schema, x: string, y: string)
    requires Reaches(g, n, x) && y in RefsIn(g[x]) && y in g
    ensures Reaches(g, n, y)
  {
  }

  lemma WalksWithinByName(rules: Rules, g: Components, n: Schema, visiting: set<string>, c: set<string>)
    requires visiting <= g.Keys
    ensures WalksWithin(rules, g, n, visiting, c) <==>
      Supported(rules, n) && RefsIn(n) <= Passing(rules, g, visiting, c)
  {
    WalksWithinIff(rules, g, n, visiting, c);
    RefsWithinIff(n, Passing(rules, g, visiting, c));
  }

  /** The component is inlined somewhere, leaving references to names in c. */
  ghost predicate Inlined(rules: Rules, g: Components, x: string, c: set<string>) {
    x in g && exists around: set<string> :: x in around && around <= g.Keys && WalksWithin(rules, g, g[x], around, c)
  }

  /** The components in r are inlined, and they and `start` refer to no others besides those at the rim. */
  ghost predicate Covered(
    rules: Rules, g: Components, start: set<string>, r: set<string>, rim: set<string>, c: set<string>) {
    && start <= r + rim
    && forall x | x in r :: Inlined(rules, g, x, c) && RefsIn(g[x]) <= r + rim
  }

  lemma CoveredTogether(
    rules: Rules, g: Components, start: set<string>, x: string, rest: set<string>, below: set<string>, rim: set<string>,
    wider: set<string>, c: set<string>)
    requires x in start && Inlined(rules, g, x, c) && wider <= rim + {x}
    requires Covered(rules, g, start - {x}, rest, rim, c) && Covered(rules, g, RefsIn(g[x]), below, wider, c)
    ensures Covered(rules, g, start, rest + below + {x}, rim, c)
  {
    var r := rest + below + {x};
    assert rest + rim <= r + rim;
    assert below + wider <= r + rim;
  }

  ghost predicate Apart(r: set<string>, visiting: set<string>) {
    forall x | x in visiting :: x !in r
  }

  lemma ApartTogether(x: string, rest: set<string>, below: set<string>, visiting: set<string>)
    requires x !in visiting && Apart(rest, visiting) && Apart(below, visiting + {x})
    ensures Apart(rest + below + {x}, visiting)
  {
  }

  lemma CoveredAtTheRim(
    rules: Rules, g: Components, start: set<string>, x: string, rest: set<string>, rim: set<string>, c: set<string>)
    requires x in rim && Covered(rules, g, start - {x}, rest, rim, c)
    ensures Covered(rules, g, start, rest, rim, c)
  {
  }

  lemma InlinedHere(rules: Rules, g: Components, x: string, visiting: set<string>, c: set<string>)
    requires visiting <= g.Keys && x in Passing(rules, g, visiting, c) && x !in visiting
    ensures Inlined(rules, g, x, c) && RefsIn(g[x]) <= Passing(rules, g, visiting + {x}, c)
    ensures visiting + {x} <= g.Keys
  {
    WalksWithinByName(rules, g, g[x], visiting + {x}, c);
  }

  /** A walk inlines some components, and what these refer to is again inlined, or is being visited. */
  lemma {:induction false} InlinedNames(
    rules: Rules, g: Components, start: set<string>, visiting: set<string>, c: set<string>)
    returns (r: set<string>)
    requires visiting <= g.Keys && start <= Passing(rules, g, visiting, c)
    ensures Covered(rules, g, start, r, visiting * c, c) && Apart(r, visiting)
    decreases g.Keys - visiting, |start|
  {
    if start == {} {
      r := {};
    } else {
      var x :| x in start;
      var rest := InlinedNames(rules, g, start - {x}, visiting, c);
      if x in visiting {
        r := rest;
        CoveredAtTheRim(rules, g, start, x, r, visiting * c, c);
      } else {
        InlinedHere(rules, g, x, visiting, c);
        var below := InlinedNames(rules, g, RefsIn(g[x]), visiting + {x}, c);
        CoveredTogether(rules, g, start, x, rest, below, visiting * c, (visiting + {x}) * c, c);
        ApartTogether(x, rest, below, visiting);
        r := rest + below + {x};
      }
    }
  }

  lemma CoveredIsClosed(rules: Rules, g: Components, start: set<string>, r: set<string>, c: set<string>)
    requires Covered(rules, g, start, r, {}, c)
    ensures Closed(g, r) && start <= r
  {
  }

  // ------------------------------------------------------------------ what becomes a definition

  /** Visiting happens on the way down: every component being inlined around n leads to what n refers to. */
  ghost predicate OnTheWay(g: Components, node: Schema, n: Schema, visiting: set<string>) {
    && visiting <= g.Keys
    && (forall y, z | y in visiting && z in RefsIn(n) && z in g :: Reaches(g, g[y], z))
    && forall z | z in RefsIn(n) && z in g :: Reaches(g, node, z)
  }

  lemma DeeperOnTheWay(g: Components, node: Schema, n: Schema, visiting: set<string>, x: string)
    requires OnTheWay(g, node, n, visiting) && x in RefsIn(n) && x in g
    ensures OnTheWay(g, node, g[x], visiting + {x})
  {
    forall z | z in RefsIn(g[x]) && z in g ensures Reaches(g, node, z) && Reaches(g, g[x], z) {
      ReachesOn(g, node, x, z);
    }
    forall y, z | y in visiting && z in RefsIn(g[x]) && z in g ensures Reaches(g, g[y], z) {
      ReachesOn(g, g[y], x, z);
    }
  }

  /** The recursive components that node leads to. */
  ghost function Loops(g: Components, node: Schema): set<string> {
    set x | x in g && Reaches(g, node, x) && IsRecursive(g, x)
  }

  /** A walk leaves references to recursive components only. */
  lemma {:induction false} OnlyLoopsAreLeft(rules: Rules, g: Components, node: Schema, n: Schema, visiting: set<string>)
    requires OnTheWay(g, node, n, visiting) && WalksWithin(rules, g, n, visiting, g.Keys)
    ensures WalksWithin(rules, g, n, visiting, Loops(g, node))
    decreases g.Keys - visiting
  {
    WalksWithinByName(rules, g, n, visiting, g.Keys);
    forall x | x in RefsIn(n) ensures x in Passing(rules, g, visiting, Loops(g, node)) {
      assert x in Passing(rules, g, visiting, g.Keys);
      if x !in visiting {
        DeeperOnTheWay(g, node, n, visiting, x);
        OnlyLoopsAreLeft(rules, g, node, g[x], visiting + {x});
      }
    }
    WalksWithinByName(rules, g, n, visiting, Loops(g, node));
  }

  lemma WalkStaysInside(rules: Rules, g: Components, n: Schema, visiting: set<string>)
    requires visiting <= g.Keys && Walk(rules, g, n, visiting).Some?
    ensures WalksWithin(rules, g, n, visiting, g.Keys)
  {
    WalkRefersToComponents(rules, g, n, visiting);
  }

  lemma LeftAtTheRoot(rules: Rules, g: Components, node: Schema)
    requires Walk(rules, g, node, {}).Some?
    ensures RefsIn(Walk(rules, g, node, {}).value) <= Loops(g, node)
  {
    WalkStaysInside(rules, g, node, {});
    OnlyLoopsAreLeft(rules, g, node, node, {});
    RefsWithinIff(Walk(rules, g, node, {}).value, Loops(g, node));
  }

  lemma LeftInADefinition(rules: Rules, g: Components, node: Schema, x: string)
    requires x in g && Reaches(g, node, x) && Walk(rules, g, g[x], {x}).Some?
    ensures RefsIn(Walk(rules, g, g[x], {x}).value) <= Loops(g, node)
  {
    forall z | z in RefsIn(g[x]) && z in g ensures Reaches(g, node, z) {
      ReachesOn(g, node, x, z);
    }
    WalkStaysInside(rules, g, g[x], {x});
    OnlyLoopsAreLeft(rules, g, node, g[x], {x});
    RefsWithinIff(Walk(rules, g, g[x], {x}).value, Loops(g, node));
  }

  lemma NeededAreLoops(rules: Rules, g: Components, node: Schema, x: string)
    requires Walk(rules, g, node, {}).Some?
    requires x in Needed(DefinitionsOf(rules, g), RefsIn(Walk(rules, g, node, {}).value), g.Keys)
    ensures x in Loops(g, node)
  {
    var table, start, c := DefinitionsOf(rules, g), RefsIn(Walk(rules, g, node, {}).value), Loops(g, node);
    LeftAtTheRoot(rules, g, node);
    forall y | y in c && table(y).Some? ensures RefsIn(table(y).value) <= c {
      LeftInADefinition(rules, g, node, y);
    }
    assert ClosedFrom(table, start, c);
  }

  /** A projection defines recursive components only, of those its node leads to. */
  lemma OnlyLoopsAreDefined(rules: Rules, g: Components, node: Schema, s: Schema)
    requires IsProjection(rules, g, node, s)
    ensures DefsOf(s).Keys <= Loops(g, node)
  {
    ProjectionParts(rules, g, node, s);
    forall x | x in DefsOf(s) ensures x in Loops(g, node) {
      NeededAreLoops(rules, g, node, x);
    }
  }

  /** A component inlined without any reference left does not lead back to itself. */
  lemma InlinedWhollyIsNotRecursive(rules: Rules, g: Components, x: string)
    requires Inlined(rules, g, x, {})
    ensures !IsRecursive(g, x)
  {
    var around: set<string> :| x in around && around <= g.Keys && WalksWithin(rules, g, g[x], around, {});
    WalksWithinByName(rules, g, g[x], around, {});
    var r := InlinedNames(rules, g, RefsIn(g[x]), around, {});
    assert around * {} == {};
    CoveredIsClosed(rules, g, RefsIn(g[x]), r, {});
    assert x !in r;
  }

  lemma NoDefsIff(rules: Rules, g: Components, node: Schema, s: Schema)
    requires IsProjection(rules, g, node, s)
    ensures s.defs == NoDefs <==> DefsOf(s) == map[]
  {
    WalkHasNoDefinitions(rules, g, node, {});
  }

  /** Definitions appear exactly if the node leads to some recursive component; otherwise all is inlined. */
  lemma InlinedWhollyIff(rules: Rules, g: Components, node: Schema, s: Schema)
    requires IsProjection(rules, g, node, s)
    ensures s.defs == NoDefs <==> forall x | Reaches(g, node, x) :: !IsRecursive(g, x)
  {
    ProjectionParts(rules, g, node, s);
    ProjectionIsClosed(rules, g, node, s);
    NoDefsIff(rules, g, node, s);
    if s.defs == NoDefs {
      RefsWithinIff(Stripped(s), {});
      WalksWithinByName(rules, g, node, {}, {});
      var none: set<string> := {};
      var r := InlinedNames(rules, g, RefsIn(node), none, none);
      assert none * none == none;
      CoveredIsClosed(rules, g, RefsIn(node), r, {});
      forall x | Reaches(g, node, x) ensures !IsRecursive(g, x) {
        InlinedWhollyIsNotRecursive(rules, g, x);
      }
    } else {
      OnlyLoopsAreDefined(rules, g, node, s);
      var x :| x in DefsOf(s);
      assert x in Loops(g, node);
    }
  }

  // ------------------------------------------------------------------ what is refused

  lemma {:induction false} SupportedWalks(rules: Rules, g: Components, n: Schema, visiting: set<string>, c: set<string>)
    requires visiting <= g.Keys && Supported(rules, n)
    requires SupportedWithin(rules, g, n, c)
    ensures WalksWithin(rules, g, n, visiting, g.Keys)
    decreases g.Keys - visiting
  {
    forall x | x in RefsIn(n) ensures x in Passing(rules, g, visiting, g.Keys) {
      if x !in visiting {
        SupportedWalks(rules, g, g[x], visiting + {x}, c);
      }
    }
    WalksWithinByName(rules, g, n, visiting, g.Keys);
  }

  lemma InlinedIsSupported(rules: Rules, g: Components, x: string, c: set<string>)
    requires Inlined(rules, g, x, c)
    ensures Supported(rules, g[x])
  {
    var around: set<string> :| x in around && around <= g.Keys && WalksWithin(rules, g, g[x], around, c);
    WalksWithinByName(rules, g, g[x], around, c);
  }

  /** The walk succeeds exactly if everything the node leads to is there and supported. */
  lemma WalkSucceedsIff(rules: Rules, g: Components, node: Schema)
    ensures Walk(rules, g, node, {}).Some? <==> AllSupported(rules, g, node)
  {
    if Walk(rules, g, node, {}).Some? {
      WalkStaysInside(rules, g, node, {});
      WalksWithinByName(rules, g, node, {}, g.Keys);
      var r := InlinedNames(rules, g, RefsIn(node), {}, g.Keys);
      assert {} * g.Keys == {};
      CoveredIsClosed(rules, g, RefsIn(node), r, g.Keys);
      forall x | x in r ensures Supported(rules, g[x]) {
        InlinedIsSupported(rules, g, x, g.Keys);
      }
      assert SupportedWithin(rules, g, node, r);
    }
    if AllSupported(rules, g, node) {
      var c :| SupportedWithin(rules, g, node, c);
      SupportedWalks(rules, g, node, {}, c);
    }
  }

  /** Walking a bare loop ends in a reference to one of its own. */
  lemma {:induction false} LoopWalksToItself(
    rules: Rules, g: Components, b: set<string>, x: string, visiting: set<string>)
    requires BareLoop(g, b) && x in b && visiting <= g.Keys && Walk(rules, g, g[x], visiting).Some?
    ensures exists y | y in b :: Walk(rules, g, g[x], visiting) == Some(Reference(y))
    decreases g.Keys - visiting
  {
    var y := g[x].ref.value;
    if y !in visiting {
      LoopWalksToItself(rules, g, b, y, visiting + {y});
    }
  }

  lemma OnlyReferencesBecomeReferences(rules: Rules, g: Components, n: Schema, visiting: set<string>, y: string)
    requires Walk(rules, g, n, visiting) == Some(Reference(y))
    ensures n.ref.Some? && IsBare(n)
  {
    if n.ref.None? {
      WalkRebuilds(rules, g, n, visiting);
    }
  }

  /** And only that does. */
  lemma {:induction false} BareWalkLoops(rules: Rules, g: Components, n: Schema, visiting: set<string>, y: string)
    returns (b: set<string>)
    requires visiting <= g.Keys && n.ref.Some? && Walk(rules, g, n, visiting) == Some(Reference(y))
    requires forall z | z in visiting :: IsBare(g[z]) && g[z].ref.value in visiting + {n.ref.value}
    ensures visiting <= b && BareLoop(g, b)
    decreases g.Keys - visiting
  {
    var x := n.ref.value;
    if x in visiting {
      b := visiting;
    } else {
      OnlyReferencesBecomeReferences(rules, g, g[x], visiting + {x}, y);
      b := BareWalkLoops(rules, g, g[x], visiting + {x}, y);
    }
  }

  ghost predicate BareLoopAt(g: Components, node: Schema, b: set<string>, x: string) {
    BareLoop(g, b) && x in b && Reaches(g, node, x)
  }

  /** Some components that the node leads to are nothing but references among themselves. */
  ghost predicate LeadsToBareLoop(g: Components, node: Schema) {
    exists b, x :: BareLoopAt(g, node, b, x)
  }

  /** A definition that is needed but holds nothing belongs to a bare loop. */
  lemma EmptyDefinitionLoops(rules: Rules, g: Components, x: string) returns (b: set<string>)
    requires IsRecursive(g, x) && Walk(rules, g, g[x], {x}).Some? && HoldsNothing(Walk(rules, g, g[x], {x}).value)
    ensures BareLoop(g, b) && x in b
  {
    var t := Walk(rules, g, g[x], {x}).value;
    WalkHasNoDefinitions(rules, g, g[x], {x});
    if t.ref.None? {
      assert RefsWithin(t, {});
      assert Inlined(rules, g, x, {}) by {
        assert WalksWithin(rules, g, g[x], {x}, {});
      }
      InlinedWhollyIsNotRecursive(rules, g, x);
    } else {
      var y := t.ref.value;
      OnlyReferencesBecomeReferences(rules, g, g[x], {x}, y);
      b := BareWalkLoops(rules, g, g[x], {x}, y);
    }
  }

  lemma UnusableIsABareLoop(rules: Rules, g: Components, node: Schema, x: string)
    requires AllSupported(rules, g, node) && x in Loops(g, node) && !Usable(DefinitionsOf(rules, g), x)
    ensures LeadsToBareLoop(g, node)
  {
    var c :| SupportedWithin(rules, g, node, c);
    SupportedWalks(rules, g, g[x], {x}, c);
    var b := EmptyDefinitionLoops(rules, g, x);
    assert BareLoopAt(g, node, b, x);
  }

  lemma ReachedIsInlined(rules: Rules, g: Components, node: Schema, s: Schema, x: string)
    requires IsProjection(rules, g, node, s) && Reaches(g, node, x)
    ensures Inlined(rules, g, x, DefsOf(s).Keys)
  {
    var none: set<string>, d := {}, DefsOf(s).Keys;
    ProjectionIsLinked(rules, g, node, s);
    WalksWithinByName(rules, g, node, none, d);
    var r := InlinedNames(rules, g, RefsIn(node), none, d);
    assert none * d == none;
    CoveredIsClosed(rules, g, RefsIn(node), r, d);
  }

  lemma LoopIsUnusable(rules: Rules, g: Components, b: set<string>, x: string)
    requires BareLoop(g, b) && x in b
    ensures !Usable(DefinitionsOf(rules, g), x)
  {
    if Walk(rules, g, g[x], {x}).Some? {
      LoopWalksToItself(rules, g, b, x, {x});
    }
  }

  lemma InlinedLoopIsLeft(rules: Rules, g: Components, b: set<string>, x: string, c: set<string>) returns (y: string)
    requires BareLoop(g, b) && x in b && Inlined(rules, g, x, c)
    ensures y in b && y in c
  {
    var around: set<string> :| x in around && around <= g.Keys && WalksWithin(rules, g, g[x], around, c);
    LoopWalksToItself(rules, g, b, x, around);
    y :| y in b && Walk(rules, g, g[x], around) == Some(Reference(y));
  }

  lemma ProjectionAvoidsBareLoops(rules: Rules, g: Components, node: Schema, s: Schema, b: set<string>, x: string)
    requires IsProjection(rules, g, node, s) && BareLoop(g, b) && x in b
    ensures !Reaches(g, node, x)
  {
    if Reaches(g, node, x) {
      ReachedIsInlined(rules, g, node, s, x);
      var y := InlinedLoopIsLeft(rules, g, b, x, DefsOf(s).Keys);
      LoopIsUnusable(rules, g, b, y);
      ProjectionParts(rules, g, node, s);
    }
  }

  lemma SomeUnusable(table: Table, c: set<string>) returns (x: string)
    requires Defined(table, c) == None
    ensures x in c && !Usable(table, x)
  {
    x :| x in c && !Usable(table, x);
  }

  /** The projection refuses a schema exactly if something that it leads to is missing or not supported, or it
      leads to components that are nothing but references among themselves. */
  lemma RefusedIff(rules: Rules, g: Components, node: Schema)
    ensures Projection(rules, g, node) == None <==> !AllSupported(rules, g, node) || LeadsToBareLoop(g, node)
  {
    WalkSucceedsIff(rules, g, node);
    match Projection(rules, g, node)
    case Some(s) =>
      if LeadsToBareLoop(g, node) {
        var b, x :| BareLoopAt(g, node, b, x);
        ProjectionAvoidsBareLoops(rules, g, node, s, b, x);
      }
    case None =>
      if AllSupported(rules, g, node) {
        var start := RefsIn(Walk(rules, g, node, {}).value);
        var x := SomeUnusable(DefinitionsOf(rules, g), Needed(DefinitionsOf(rules, g), start, g.Keys));
        NeededAreLoops(rules, g, node, x);
        UnusableIsABareLoop(rules, g, node, x);
      }
  }

  ghost predicate IsAnyOfLoop(g: Components, back: Schema, loop: Schema) {
    back == Reference("A") && loop == ANYTHING.(branches := [Branch(AnyOf, [back])]) && g == map["A" := loop]
  }

  lemma LoopRefersToItself(back: Schema, loop: Schema)
    requires back == Reference("A") && loop == ANYTHING.(branches := [Branch(AnyOf, [back])])
    ensures RefsIn(back) <= {"A"} && RefsIn(loop) <= {"A"}
  {
    assert RefsWithin(back, {"A"});
    assert BranchRefsWithin(loop.branches[0], {"A"});
    assert RefsWithin(loop, {"A"});
    RefsWithinIff(back, {"A"});
    RefsWithinIff(loop, {"A"});
  }

  lemma LoopIsSupported(rules: Rules, g: Components, back: Schema, loop: Schema)
    requires IsAnyOfLoop(g, back, loop) && rules.admits(back) && rules.admits(loop) && rules.rewrite([]).Some?
    ensures AllSupported(rules, g, back)
  {
    LoopRefersToItself(back, loop);
    assert Supported(rules, back);
    assert SupportedBranch(rules, loop.branches[0]);
    assert SupportedWithin(rules, g, back, {"A"});
  }

  lemma LoopIsNotBare(g: Components, back: Schema, loop: Schema)
    requires IsAnyOfLoop(g, back, loop)
    ensures !LeadsToBareLoop(g, back)
  {
    assert loop.ref == None;
    assert forall x | x in g :: !IsBare(g[x]);
  }

  lemma LoopIsUndecided(sat: Oracle, g: Components, back: Schema, loop: Schema, v: Json)
    requires IsAnyOfLoop(g, back, loop)
    ensures !Decided(g, back, v)
  {
    forall fuel: nat ensures !Settled(g, back, v, fuel) {
      BareRef(sat, g, back, v, fuel);
      if fuel > 0 {
        LoopNeverSettles(g, loop, back, v, fuel - 1);
      }
    }
  }

  /** What that check lets pass may still have no verdict: a component whose `anyOf` goes straight back to
      itself is projected, although it decides no value. */
  lemma UndecidedLoopIsProjected(
    sat: Oracle, rules: Rules, g: Components, back: Schema, loop: Schema) returns (s: Schema)
    requires IsAnyOfLoop(g, back, loop)
    requires rules.admits(back) && rules.admits(loop) && rules.rewrite([]).Some? && KeepsAssertions(rules, sat)
    ensures IsProjection(rules, g, back, s) && !IsGuarded(s)
    ensures forall v :: !Valid(sat, s, v) && !Invalid(sat, s, v)
  {
    LoopIsSupported(rules, g, back, loop);
    LoopIsNotBare(g, back, loop);
    RefusedIff(rules, g, back);
    s := Projection(rules, g, back).value;
    ProjectionGuardedIff(sat, rules, g, back, s);
    LoopIsUndecided(sat, g, back, loop, Null);
    forall v ensures !Valid(sat, s, v) && !Invalid(sat, s, v) {
      LoopIsUndecided(sat, g, back, loop, v);
      ProjectionKeepsMeaning(sat, rules, g, back, s, v);
      DecidedHasVerdict(sat, s, v);
    }
  }
}
