/**
  The Django route-table oracle (adapters/http-wave-a/python-scope/oracle.py): a nested table of URL
  patterns is flattened into rows, with the routes a framework owns counted in groups instead.
 */
module DjangoRoutes {
  import opened Prelude

  /** What a leaf's callback and pattern say about it. */
  datatype Endpoint = Endpoint(name: Option<string>, view: string, callbackModule: string, actions: set<string>)

  datatype Pattern =
    | Leaf(text: string, isRegex: bool, appName: Option<string>, endpoint: Endpoint)
    | Resolver(text: string, isRegex: bool, appName: Option<string>, children: seq<Pattern>)

  datatype Row = Row(path: string, regex: bool, name: Option<string>, actions: Option<set<string>>, view: string)

  /** The two collections the oracle fills. */
  datatype Table = Table(rows: seq<Row>, groups: map<string, seq<string>>)

  const ADMIN := "django.contrib.admin"
  const ADMIN_APP := "admin"

  // ------------------------------------------------------------------ owned modules

  /** `module == m or module.startswith(m + ".")` */
  predicate Within(name: string, m: string) {
    name == m || m + "." <= name
  }

  /** The first of the framework's own modules that the callback's module lies in. */
  function GeneratedGroup(modules: seq<string>, callbackModule: string): (group: Option<string>)
    ensures group.Some? ==> group.value in modules && Within(callbackModule, group.value)
    ensures group.None? ==> forall m | m in modules :: !Within(callbackModule, m)
  {
    if modules == [] then None
    else if Within(callbackModule, modules[0]) then Some(modules[0])
    else GeneratedGroup(modules[1..], callbackModule)
  }

  /** The dotted segments of a module name. */
  function Segments(name: string): (parts: seq<string>)
    ensures parts != []
  {
    var dot := IndexOf(name, '.', 0);
    if dot.None? then [name] else [name[..dot.value]] + Segments(name[dot.value + 1..])
  }

  lemma {:induction false} JoinSegments(name: string)
    ensures Join(Segments(name), ".") == name
  {
    var dot := IndexOf(name, '.', 0);
    if dot.Some? {
      var head, tail := name[..dot.value], name[dot.value + 1..];
      JoinSegments(tail);
      assert Segments(name)[1..] == Segments(tail);
      assert name == head + "." + tail;
    }
  }

  lemma FirstSegment(head: string, rest: string)
    requires '.' !in head
    ensures Segments(head + "." + rest) == [head] + Segments(rest)
  {
    var whole := head + "." + rest;
    SeparatorAt(head, rest, '.');
    assert whole == head + ['.'] + rest;
    assert whole[..|head|] == head && whole[|head| + 1..] == rest;
  }

  lemma AtFirstDot(name: string) returns (head: string, tail: string)
    requires '.' in name
    ensures '.' !in head && name == head + "." + tail
  {
    var dot := IndexOf(name, '.', 0).value;
    head, tail := name[..dot], name[dot + 1..];
  }

  lemma Reassociate(head: string, tail: string, b: string)
    ensures head + "." + tail + "." + b == head + "." + (tail + "." + b)
  {
  }

  lemma {:induction false} SegmentsOfJoin(a: string, b: string)
    ensures Segments(a + "." + b) == Segments(a) + Segments(b)
    decreases |a|
  {
    if '.' in a {
      var head, tail := AtFirstDot(a);
      SegmentsOfJoin(tail, b);
      FirstSegment(head, tail);
      FirstSegment(head, tail + "." + b);
      Reassociate(head, tail, b);
      assert [head] + Segments(tail) + Segments(b) == [head] + (Segments(tail) + Segments(b));
    } else {
      FirstSegment(a, b);
    }
  }

  lemma {:induction false} JoinOfConcat(a: seq<string>, b: seq<string>)
    requires a != [] && b != []
    ensures Join(a + b, ".") == Join(a, ".") + "." + Join(b, ".")
    decreases |a|
  {
    if |a| == 1 {
      assert (a + b)[1..] == b;
    } else {
      JoinOfConcat(a[1..], b);
      assert (a + b)[1..] == a[1..] + b;
      assert Join(a + b, ".") == a[0] + "." + (Join(a[1..], ".") + "." + Join(b, "."));
    }
  }

  /** The text test respects segment boundaries: a module is inside m iff m's segments begin its own. */
  lemma WithinIffSegmentPrefix(name: string, m: string)
    ensures Within(name, m) <==> Segments(m) <= Segments(name)
  {
    if m + "." <= name {
      var rest := name[|m| + 1..];
      assert name == m + "." + rest;
      SegmentsOfJoin(m, rest);
    }
    if Segments(m) <= Segments(name) {
      JoinSegments(m);
      JoinSegments(name);
      var rest := Segments(name)[|Segments(m)|..];
      assert Segments(name) == Segments(m) + rest;
      if rest == [] {
        assert Segments(name) == Segments(m);
      } else {
        JoinOfConcat(Segments(m), rest);
        assert name == m + "." + Join(rest, ".");
      }
    }
  }

  const STATICFILES := "django.contrib.staticfiles"
  const STATIC_VIEWS := "django.views.static"
  const REST_FRAMEWORK := "rest_framework"

  /** The modules whose routes count as Django's own. */
  const DJANGO_MODULES: seq<string> := [ADMIN, STATICFILES, STATIC_VIEWS, REST_FRAMEWORK]

  lemma BothBegin(name: string, m: string, n: string, k: nat)
    requires Within(name, m) && Within(name, n) && k < |m| && k < |n|
    ensures m[k] == n[k]
  {
    assert m[k] == name[k] && n[k] == name[k];
  }

  /** No module lies in two of them, so the order in which they are tried does not matter. */
  lemma DjangoModulesAreDisjoint(name: string, i: nat, j: nat)
    requires i < j < |DJANGO_MODULES|
    ensures !(Within(name, DJANGO_MODULES[i]) && Within(name, DJANGO_MODULES[j]))
  {
    var m, n := DJANGO_MODULES[i], DJANGO_MODULES[j];
    if Within(name, m) && Within(name, n) {
      BothBegin(name, m, n, 0);
      BothBegin(name, m, n, 7);
      if j == 1 {
        BothBegin(name, m, n, 15);
      }
      assert false;
    }
  }

  lemma DjangoModulesDiffer(i: nat, j: nat)
    requires i < |DJANGO_MODULES| && j < |DJANGO_MODULES| && i != j
    ensures DJANGO_MODULES[i] != DJANGO_MODULES[j]
  {
    if DJANGO_MODULES[i] == DJANGO_MODULES[j] {
      if i < j {
        DjangoModulesAreDisjoint(DJANGO_MODULES[i], i, j);
      } else {
        DjangoModulesAreDisjoint(DJANGO_MODULES[i], j, i);
      }
      assert false;
    }
  }

  /** The group found is the only one the module lies in. */
  lemma DjangoGroupIff(name: string, i: nat)
    requires i < |DJANGO_MODULES|
    ensures GeneratedGroup(DJANGO_MODULES, name) == Some(DJANGO_MODULES[i]) <==> Within(name, DJANGO_MODULES[i])
  {
    var found := GeneratedGroup(DJANGO_MODULES, name);
    assert DJANGO_MODULES[i] in DJANGO_MODULES;
    if found.Some? {
      var j :| 0 <= j < |DJANGO_MODULES| && DJANGO_MODULES[j] == found.value;
      if i < j {
        DjangoModulesAreDisjoint(name, i, j);
      } else if j < i {
        DjangoModulesAreDisjoint(name, j, i);
      }
      if i != j {
        assert !Within(name, DJANGO_MODULES[i]);
        DjangoModulesDiffer(i, j);
      }
    }
  }

  // ------------------------------------------------------------------ one leaf, from its chain of patterns

  /** The texts along a chain, from the root table to the leaf, put together. */
  function TextOf(chain: seq<Pattern>): string {
    if chain == [] then "" else TextOf(chain[..|chain| - 1]) + chain[|chain| - 1].text
  }

  predicate AnyRegex(chain: seq<Pattern>) {
    exists i | 0 <= i < |chain| :: chain[i].isRegex
  }

  predicate AnyAdmin(chain: seq<Pattern>) {
    exists i | 0 <= i < |chain| :: chain[i].appName == Some(ADMIN_APP)
  }

  function OwnerOf(chain: seq<Pattern>): Option<string> {
    if AnyAdmin(chain) then Some(ADMIN) else None
  }

  predicate IsChain(chain: seq<Pattern>) {
    chain != [] && chain[|chain| - 1].Leaf?
  }

  function PathOf(chain: seq<Pattern>): string {
    "/" + TextOf(chain)
  }

  function GroupOf(modules: seq<string>, chain: seq<Pattern>): Option<string>
    requires IsChain(chain)
  {
    if AnyAdmin(chain) then Some(ADMIN) else GeneratedGroup(modules, chain[|chain| - 1].endpoint.callbackModule)
  }

  function RowOf(chain: seq<Pattern>): Row
    requires IsChain(chain)
  {
    var e := chain[|chain| - 1].endpoint;
    Row(PathOf(chain), AnyRegex(chain), e.name, if e.actions == {} then None else Some(e.actions), e.view)
  }

  function PathsIn(groups: map<string, seq<string>>, group: string): seq<string> {
    if group in groups then groups[group] else []
  }

  /** `groups.setdefault(group, []).append(path)` */
  function Added(groups: map<string, seq<string>>, group: string, path: string): map<string, seq<string>> {
    groups[group := PathsIn(groups, group) + [path]]
  }

  function Filed(t: Table, group: Option<string>, row: Row): Table {
    match group
    case None => Table(t.rows + [row], t.groups)
    case Some(name) => Table(t.rows, Added(t.groups, name, row.path))
  }

  function Record(modules: seq<string>, t: Table, chain: seq<Pattern>): Table
    requires IsChain(chain)
  {
    Filed(t, GroupOf(modules, chain), RowOf(chain))
  }

  predicate AreChains(chains: seq<seq<Pattern>>) {
    forall i | 0 <= i < |chains| :: IsChain(chains[i])
  }

  /** The table after recording the chains one after the other. */
  function RecordAll(modules: seq<string>, t: Table, chains: seq<seq<Pattern>>): Table
    requires AreChains(chains)
  {
    if chains == [] then t
    else Record(modules, RecordAll(modules, t, chains[..|chains| - 1]), chains[|chains| - 1])
  }

  // ------------------------------------------------------------------ all the leaves

  /** Every chain that continues `above` into `patterns`, in document order. */
  function ChainsFrom(patterns: seq<Pattern>, above: seq<Pattern>): (chains: seq<seq<Pattern>>)
    ensures AreChains(chains)
    decreases patterns
  {
    if patterns == [] then []
    else
      var here := above + [patterns[0]];
      (if patterns[0].Leaf? then [here] else ChainsFrom(patterns[0].children, here)) + ChainsFrom(patterns[1..], above)
  }

  function LeafCount(patterns: seq<Pattern>): nat
    decreases patterns
  {
    if patterns == [] then 0
    else (if patterns[0].Leaf? then 1 else LeafCount(patterns[0].children)) + LeafCount(patterns[1..])
  }

  lemma {:induction false} RecordAllJoin(modules: seq<string>, t: Table, a: seq<seq<Pattern>>, b: seq<seq<Pattern>>)
    requires AreChains(a) && AreChains(b)
    ensures RecordAll(modules, t, a + b) == RecordAll(modules, RecordAll(modules, t, a), b)
    decreases |b|
  {
    if b == [] {
      assert a + b == a;
    } else {
      RecordAllJoin(modules, t, a, b[..|b| - 1]);
      assert (a + b)[..|a + b| - 1] == a + b[..|b| - 1];
    }
  }

  lemma Deeper(above: seq<Pattern>, item: Pattern)
    ensures TextOf(above + [item]) == TextOf(above) + item.text
    ensures AnyRegex(above + [item]) <==> AnyRegex(above) || item.isRegex
    ensures AnyAdmin(above + [item]) <==> AnyAdmin(above) || item.appName == Some(ADMIN_APP)
  {
    var here := above + [item];
    assert here[..|here| - 1] == above;
    assert here[|above|] == item;
    assert forall i | 0 <= i < |above| :: here[i] == above[i];
  }

  lemma NextItem(modules: seq<string>, t: Table, patterns: seq<Pattern>, above: seq<Pattern>, i: nat)
    requires i < |patterns|
    ensures RecordAll(modules, t, ChainsFrom(patterns[i..], above)) ==
            RecordAll(modules,
                      if patterns[i].Leaf? then Record(modules, t, above + [patterns[i]])
                      else RecordAll(modules, t, ChainsFrom(patterns[i].children, above + [patterns[i]])),
                      ChainsFrom(patterns[i + 1..], above))
  {
    var item, here := patterns[i], above + [patterns[i]];
    var inside := if item.Leaf? then [here] else ChainsFrom(item.children, here);
    assert patterns[i..][1..] == patterns[i + 1..];
    RecordAllJoin(modules, t, inside, ChainsFrom(patterns[i + 1..], above));
    if item.Leaf? {
      assert [here][..0] == [];
    }
  }

  /** The two lists `walk` closes over. */
  class RouteTable {
    const modules: seq<string>
    var rows: seq<Row>
    var groups: map<string, seq<string>>

    constructor (modules: seq<string>)
      ensures this.modules == modules && Contents() == Table([], map[])
    {
      this.modules := modules;
      rows, groups := [], map[];
    }

    function Contents(): Table
      reads this
    {
      Table(rows, groups)
    }

    /** The prefix, regex flag and owner passed down are those of the chain `above` the patterns. */
    method Walk(patterns: seq<Pattern>, prefix: string, regex: bool, owner: Option<string>, ghost above: seq<Pattern>)
      requires prefix == TextOf(above) && regex == AnyRegex(above) && owner == OwnerOf(above)
      modifies this`rows, this`groups
      ensures Contents() == RecordAll(modules, old(Contents()), ChainsFrom(patterns, above))
      decreases patterns
    {
      var i := 0;
      assert patterns[0..] == patterns;
      while i < |patterns|
        invariant i <= |patterns|
        invariant RecordAll(modules, Contents(), ChainsFrom(patterns[i..], above)) ==
                  RecordAll(modules, old(Contents()), ChainsFrom(patterns, above))
      {
        NextItem(modules, Contents(), patterns, above, i);
        Enter(patterns[i], prefix, regex, owner, above);
        i := i + 1;
      }
    }

    /** The body of the loop. */
    method Enter(item: Pattern, prefix: string, regex: bool, owner: Option<string>, ghost above: seq<Pattern>)
      requires prefix == TextOf(above) && regex == AnyRegex(above) && owner == OwnerOf(above)
      modifies this`rows, this`groups
      ensures Contents() ==
              if item.Leaf? then Record(modules, old(Contents()), above + [item])
              else RecordAll(modules, old(Contents()), ChainsFrom(item.children, above + [item]))
      decreases item
    {
      Deeper(above, item);
      var text := prefix + item.text;
      var isRegex := regex || item.isRegex;
      var group := if owner.Some? then owner else if item.appName == Some(ADMIN_APP) then Some(ADMIN) else None;
      if item.Resolver? {
        Walk(item.children, text, isRegex, group, above + [item]);
        return;
      }
      var e := item.endpoint;
      if group.None? {
        group := GeneratedGroup(modules, e.callbackModule);
      }
      if group.Some? {
        groups := groups[group.value := (if group.value in groups then groups[group.value] else []) + ["/" + text]];
        return;
      }
      rows := rows + [Row("/" + text, isRegex, e.name, if e.actions == {} then None else Some(e.actions), e.view)];
    }
  }

  method DjangoRows(modules: seq<string>, patterns: seq<Pattern>) returns (table: Table)
    ensures table == RecordAll(modules, Table([], map[]), ChainsFrom(patterns, []))
  {
    var routes := new RouteTable(modules);
    routes.Walk(patterns, "", false, None, []);
    table := routes.Contents();
  }

  // ------------------------------------------------------------------ what the flattened table says

  /** `chain` continues `above` by a walk down `patterns` that ends at a leaf. */
  ghost predicate LeadsToLeaf(patterns: seq<Pattern>, chain: seq<Pattern>)
    decreases |chain|
  {
    && chain != []
    && chain[0] in patterns
    && if |chain| == 1 then chain[0].Leaf? else chain[0].Resolver? && LeadsToLeaf(chain[0].children, chain[1..])
  }

  /** The chains through the first pattern, and those through the others. */
  lemma FirstOrLater(patterns: seq<Pattern>, above: seq<Pattern>, chain: seq<Pattern>)
    requires patterns != []
    ensures var here := above + [patterns[0]];
            chain in ChainsFrom(patterns, above) <==>
            || (if patterns[0].Leaf? then chain == here else chain in ChainsFrom(patterns[0].children, here))
            || chain in ChainsFrom(patterns[1..], above)
  {
  }

  lemma StepDown(item: Pattern, above: seq<Pattern>, chain: seq<Pattern>)
    requires above + [item] <= chain
    ensures above < chain && chain[|above|] == item && chain[|above|..] == [item] + chain[|above| + 1..]
  {
    assert chain[|above|] == (above + [item])[|above|];
  }

  lemma {:induction false} ChainsContinue(patterns: seq<Pattern>, above: seq<Pattern>, chain: seq<Pattern>)
    requires chain in ChainsFrom(patterns, above)
    ensures above < chain && LeadsToLeaf(patterns, chain[|above|..])
    decreases patterns
  {
    var item, here := patterns[0], above + [patterns[0]];
    FirstOrLater(patterns, above, chain);
    if chain in ChainsFrom(patterns[1..], above) {
      ChainsContinue(patterns[1..], above, chain);
      assert forall p | p in patterns[1..] :: p in patterns;
    } else {
      if item.Resolver? {
        ChainsContinue(item.children, here, chain);
      }
      StepDown(item, above, chain);
    }
  }

  lemma StepInto(item: Pattern, above: seq<Pattern>, below: seq<Pattern>)
    requires below != [] && below[0] == item
    ensures above + below == above + [item] + below[1..]
  {
    assert below == [item] + below[1..];
  }

  lemma StepPast(patterns: seq<Pattern>, below: seq<Pattern>)
    requires LeadsToLeaf(patterns, below) && below[0] != patterns[0]
    ensures LeadsToLeaf(patterns[1..], below)
  {
    assert patterns == [patterns[0]] + patterns[1..];
  }

  lemma {:induction false} EveryLeafHasItsChain(patterns: seq<Pattern>, above: seq<Pattern>, below: seq<Pattern>)
    requires LeadsToLeaf(patterns, below)
    ensures above + below in ChainsFrom(patterns, above)
    decreases patterns
  {
    var item, here, later := patterns[0], above + [patterns[0]], patterns[1..];
    FirstOrLater(patterns, above, above + below);
    if below[0] == item {
      StepInto(item, above, below);
      if |below| > 1 {
        EveryLeafHasItsChain(item.children, here, below[1..]);
      }
    } else {
      StepPast(patterns, below);
      EveryLeafHasItsChain(later, above, below);
    }
  }

  lemma {:induction false} OneChainPerLeaf(patterns: seq<Pattern>, above: seq<Pattern>)
    ensures |ChainsFrom(patterns, above)| == LeafCount(patterns)
    decreases patterns
  {
    if patterns != [] {
      OneChainPerLeaf(patterns[1..], above);
      if patterns[0].Resolver? {
        OneChainPerLeaf(patterns[0].children, above + [patterns[0]]);
      }
    }
  }

  /** The chains recorded are exactly the ways down the tree to a leaf, one for every leaf. */
  lemma ChainsAreTheLeaves(patterns: seq<Pattern>)
    ensures forall chain :: chain in ChainsFrom(patterns, []) <==> LeadsToLeaf(patterns, chain)
    ensures |ChainsFrom(patterns, [])| == LeafCount(patterns)
  {
    forall chain ensures chain in ChainsFrom(patterns, []) <==> LeadsToLeaf(patterns, chain) {
      if chain in ChainsFrom(patterns, []) {
        ChainsContinue(patterns, [], chain);
        assert chain[0..] == chain;
      }
      if LeadsToLeaf(patterns, chain) {
        EveryLeafHasItsChain(patterns, [], chain);
        assert [] + chain == chain;
      }
    }
    OneChainPerLeaf(patterns, []);
  }

  /** The rows of the chains that no framework owns. */
  function RowsOf(modules: seq<string>, chains: seq<seq<Pattern>>): seq<Row>
    requires AreChains(chains)
  {
    if chains == [] then []
    else
      var last := chains[|chains| - 1];
      RowsOf(modules, chains[..|chains| - 1]) + if GroupOf(modules, last).None? then [RowOf(last)] else []
  }

  /** The paths of the chains that belong to one group. */
  function PathsOf(modules: seq<string>, chains: seq<seq<Pattern>>, group: string): seq<string>
    requires AreChains(chains)
  {
    if chains == [] then []
    else
      var last := chains[|chains| - 1];
      PathsOf(modules, chains[..|chains| - 1], group) +
        if GroupOf(modules, last) == Some(group) then [PathOf(last)] else []
  }

  /** How many paths the listed groups hold together. */
  function SumOfCounts(names: seq<string>, groups: map<string, seq<string>>): nat {
    if names == [] then 0 else |PathsIn(groups, names[0])| + SumOfCounts(names[1..], groups)
  }

  lemma {:induction false} AddingCounts(
    names: seq<string>, groups: map<string, seq<string>>, group: string, path: string)
    requires Distinct(names)
    ensures SumOfCounts(names, Added(groups, group, path)) == SumOfCounts(names, groups) +
      if group in names then 1 else 0
  {
    if names != [] {
      AddingCounts(names[1..], groups, group, path);
      assert group in names <==> names[0] == group || group in names[1..];
    }
  }

  ghost predicate OnlyKnownGroups(modules: seq<string>, t: Table) {
    forall g | g in t.groups :: g in modules && t.groups[g] != []
  }

  /** Each chain recorded so far is a row or counted in one group. */
  ghost predicate Tallied(modules: seq<string>, chains: seq<seq<Pattern>>, t: Table)
    requires AreChains(chains)
  {
    && t.rows == RowsOf(modules, chains)
    && (forall g :: PathsIn(t.groups, g) == PathsOf(modules, chains, g))
    && OnlyKnownGroups(modules, t)
    && |t.rows| + SumOfCounts(modules, t.groups) == |chains|
  }

  /** Filing one entry adds it in one place, and adds one to the tally. */
  lemma FiledOnce(modules: seq<string>, t: Table, group: Option<string>, row: Row)
    requires Distinct(modules) && OnlyKnownGroups(modules, t) && (group.Some? ==> group.value in modules)
    ensures var after := Filed(t, group, row);
            && after.rows == t.rows + (if group.None? then [row] else [])
            && (forall g :: PathsIn(after.groups, g) == PathsIn(t.groups, g) +
                 if group == Some(g) then [row.path] else [])
            && OnlyKnownGroups(modules, after)
            && |after.rows| + SumOfCounts(modules, after.groups) == |t.rows| + SumOfCounts(modules, t.groups) + 1
  {
    if group.Some? {
      AddingCounts(modules, t.groups, group.value, row.path);
    }
  }

  lemma GroupIsKnown(modules: seq<string>, chain: seq<Pattern>)
    requires IsChain(chain) && ADMIN in modules
    ensures GroupOf(modules, chain).Some? ==> GroupOf(modules, chain).value in modules
  {
  }

  lemma {:induction false} NoCounts(names: seq<string>)
    ensures SumOfCounts(names, map[]) == 0
  {
    if names != [] {
      NoCounts(names[1..]);
    }
  }

  lemma {:induction false} RecordedOnce(modules: seq<string>, chains: seq<seq<Pattern>>)
    requires AreChains(chains) && Distinct(modules) && ADMIN in modules
    ensures Tallied(modules, chains, RecordAll(modules, Table([], map[]), chains))
    decreases |chains|
  {
    if chains == [] {
      NoCounts(modules);
    } else {
      var before, last := chains[..|chains| - 1], chains[|chains| - 1];
      RecordedOnce(modules, before);
      GroupIsKnown(modules, last);
      FiledOnce(modules, RecordAll(modules, Table([], map[]), before), GroupOf(modules, last), RowOf(last));
    }
  }

  /**
    Flattening conserves leaves: every leaf is a row or counted in exactly one group, rows and groups
    keep document order, and the row count plus the group counts is the number of leaves. A group that
    appears is one of the framework's own and is not empty.
   */
  lemma FlatteningConservesLeaves(modules: seq<string>, patterns: seq<Pattern>)
    requires Distinct(modules) && ADMIN in modules
    ensures var chains := ChainsFrom(patterns, []);
            var t := RecordAll(modules, Table([], map[]), chains);
            && Tallied(modules, chains, t)
            && |t.rows| + SumOfCounts(modules, t.groups) == LeafCount(patterns)
  {
    RecordedOnce(modules, ChainsFrom(patterns, []));
    OneChainPerLeaf(patterns, []);
  }

  /** A leaf is a row iff no table around it is admin's and its module is in no owned one, segment for segment. */
  lemma RowIff(modules: seq<string>, chain: seq<Pattern>)
    requires IsChain(chain)
    ensures GroupOf(modules, chain).None? <==>
            && (forall i | 0 <= i < |chain| :: chain[i].appName != Some(ADMIN_APP))
            && (forall m | m in modules :: !(Segments(m) <= Segments(chain[|chain| - 1].endpoint.callbackModule)))
  {
    forall m {
      WithinIffSegmentPrefix(chain[|chain| - 1].endpoint.callbackModule, m);
    }
  }

  lemma DjangoModulesAreDistinct()
    ensures Distinct(DJANGO_MODULES) && ADMIN in DJANGO_MODULES
  {
    forall i: nat, j: nat | i < j < |DJANGO_MODULES| ensures DJANGO_MODULES[i] != DJANGO_MODULES[j] {
      DjangoModulesDiffer(i, j);
    }
    assert ADMIN == DJANGO_MODULES[0];
  }

  /** For Django's own module list the count is unconditional. */
  lemma DjangoConservesLeaves(patterns: seq<Pattern>)
    ensures var t := RecordAll(DJANGO_MODULES, Table([], map[]), ChainsFrom(patterns, []));
            |t.rows| + SumOfCounts(DJANGO_MODULES, t.groups) == LeafCount(patterns)
  {
    DjangoModulesAreDistinct();
    FlatteningConservesLeaves(DJANGO_MODULES, patterns);
  }

  // ------------------------------------------------------------------ rows and groups, told by the leaves

  function Texts(chain: seq<Pattern>): seq<string> {
    seq(|chain|, i requires 0 <= i < |chain| => chain[i].text)
  }

  /** The pieces put together, with nothing between them. */
  function Glued(texts: seq<string>): string {
    if texts == [] then "" else texts[0] + Glued(texts[1..])
  }

  lemma {:induction false} GluedAtTheEnd(texts: seq<string>, last: string)
    ensures Glued(texts + [last]) == Glued(texts) + last
  {
    if texts == [] {
      assert [last][1..] == [] && texts + [last] == [last];
    } else {
      GluedAtTheEnd(texts[1..], last);
      assert (texts + [last])[1..] == texts[1..] + [last];
    }
  }

  lemma {:induction false} TextIsGlued(chain: seq<Pattern>)
    ensures TextOf(chain) == Glued(Texts(chain))
  {
    if chain != [] {
      var n := |chain| - 1;
      TextIsGlued(chain[..n]);
      GluedAtTheEnd(Texts(chain[..n]), chain[n].text);
      assert Texts(chain) == Texts(chain[..n]) + [chain[n].text];
    }
  }

  /** The leaf is the admin's, whatever its module, or its module lies in m and no admin table is around it. */
  ghost predicate BelongsTo(chain: seq<Pattern>, m: string)
    requires IsChain(chain)
  {
    if exists i | 0 <= i < |chain| :: chain[i].appName == Some("admin") then m == "django.contrib.admin"
    else Segments(m) <= Segments(chain[|chain| - 1].endpoint.callbackModule)
  }

  /** No part of Django or its REST framework owns the leaf. */
  ghost predicate IsOwn(chain: seq<Pattern>)
    requires IsChain(chain)
  {
    && !BelongsTo(chain, "django.contrib.admin") && !BelongsTo(chain, "django.contrib.staticfiles")
    && !BelongsTo(chain, "django.views.static") && !BelongsTo(chain, "rest_framework")
  }

  /** What a row says of its leaf and of the tables around it. */
  ghost predicate Shows(row: Row, chain: seq<Pattern>)
    requires IsChain(chain)
  {
    var e := chain[|chain| - 1].endpoint;
    && row.path == "/" + Glued(Texts(chain))
    && (row.regex <==> exists i | 0 <= i < |chain| :: chain[i].isRegex)
    && row.name == e.name && row.view == e.view
    && (e.actions == {} ==> row.actions == None) && (e.actions != {} ==> row.actions == Some(e.actions))
  }

  lemma RowIsTold(chain: seq<Pattern>)
    requires IsChain(chain)
    ensures Shows(RowOf(chain), chain) && PathOf(chain) == "/" + Glued(Texts(chain))
  {
    TextIsGlued(chain);
  }

  lemma GroupIsTold(chain: seq<Pattern>, i: nat)
    requires IsChain(chain) && i < |DJANGO_MODULES|
    ensures GroupOf(DJANGO_MODULES, chain) == Some(DJANGO_MODULES[i]) <==> BelongsTo(chain, DJANGO_MODULES[i])
  {
    var name := chain[|chain| - 1].endpoint.callbackModule;
    DjangoGroupIff(name, i);
    WithinIffSegmentPrefix(name, DJANGO_MODULES[i]);
    if i > 0 {
      DjangoModulesDiffer(0, i);
    }
  }

  lemma OwnIffNoGroup(chain: seq<Pattern>)
    requires IsChain(chain)
    ensures GroupOf(DJANGO_MODULES, chain).None? <==> IsOwn(chain)
  {
    GroupIsTold(chain, 0);
    GroupIsTold(chain, 1);
    GroupIsTold(chain, 2);
    GroupIsTold(chain, 3);
    GroupIsKnown(DJANGO_MODULES, chain);
  }

  /** The rows show the leaves that are no part's own, one each and in their order. */
  ghost predicate RowsShow(rows: seq<Row>, chains: seq<seq<Pattern>>)
    requires AreChains(chains)
    decreases |chains|
  {
    if chains == [] then rows == []
    else
      var n, last := |chains| - 1, chains[|chains| - 1];
      if IsOwn(last) then rows != [] && Shows(rows[|rows| - 1], last) && RowsShow(rows[..|rows| - 1], chains[..n])
      else RowsShow(rows, chains[..n])
  }

  lemma {:induction false} RowsAreTold(chains: seq<seq<Pattern>>)
    requires AreChains(chains)
    ensures RowsShow(RowsOf(DJANGO_MODULES, chains), chains)
    decreases |chains|
  {
    if chains != [] {
      var n := |chains| - 1;
      var rows := RowsOf(DJANGO_MODULES, chains);
      RowsAreTold(chains[..n]);
      OwnIffNoGroup(chains[n]);
      RowIsTold(chains[n]);
      if IsOwn(chains[n]) {
        assert rows[..|rows| - 1] == RowsOf(DJANGO_MODULES, chains[..n]);
      } else {
        assert rows == RowsOf(DJANGO_MODULES, chains[..n]);
      }
    }
  }

  /** The paths of the leaves that belong to m, in their order. */
  ghost function PathsInside(chains: seq<seq<Pattern>>, m: string): seq<string>
    requires AreChains(chains)
  {
    if chains == [] then []
    else
      var n := |chains| - 1;
      PathsInside(chains[..n], m) + if BelongsTo(chains[n], m) then ["/" + Glued(Texts(chains[n]))] else []
  }

  lemma {:induction false} PathsAreTold(chains: seq<seq<Pattern>>, i: nat)
    requires AreChains(chains) && i < |DJANGO_MODULES|
    ensures PathsOf(DJANGO_MODULES, chains, DJANGO_MODULES[i]) == PathsInside(chains, DJANGO_MODULES[i])
    decreases |chains|
  {
    if chains != [] {
      var n := |chains| - 1;
      PathsAreTold(chains[..n], i);
      GroupIsTold(chains[n], i);
      RowIsTold(chains[n]);
    }
  }

  /** Django's flattened table: a row for each leaf of the project's own, and for each of the four modules the
      paths of the leaves that belong to it, all in document order. */
  lemma DjangoTableIsTold(patterns: seq<Pattern>, m: string)
    requires m in {"django.contrib.admin", "django.contrib.staticfiles", "django.views.static", "rest_framework"}
    ensures var chains := ChainsFrom(patterns, []);
      var t := RecordAll(DJANGO_MODULES, Table([], map[]), chains);
      RowsShow(t.rows, chains) && PathsIn(t.groups, m) == PathsInside(chains, m)
  {
    var chains := ChainsFrom(patterns, []);
    DjangoModulesAreDistinct();
    RecordedOnce(DJANGO_MODULES, chains);
    RowsAreTold(chains);
    var i := if m == ADMIN then 0 else if m == STATICFILES then 1 else if m == STATIC_VIEWS then 2 else 3;
    assert DJANGO_MODULES[i] == m;
    PathsAreTold(chains, i);
  }
}
