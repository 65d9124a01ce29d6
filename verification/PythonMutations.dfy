/**
  Module-level mutations (scanners/language/python/ast-helper.py): assignments, augmented assignments
  and call statements that no function, class or lambda separates from the module. Those at the top
  level are listed by kind; those inside control flow are found by a walk that does not enter
  functions, classes or lambdas. Whether a statement in a branch is ever executed is not asked, and
  the bodies of classes, which Python executes too, are not looked into here.

  A syntax node is known here by its kind and by its address, the child positions that lead to it;
  the address stands in for the line and column the helper reports.
 */
module PythonMutations {
  import opened Prelude

  datatype Kind = Boundary | Assignment | AugmentedAssignment | CallStatement | ControlFlow | OtherKind

  datatype Node = Node(kind: Kind, children: seq<Node>)

  type Address = seq<nat>

  datatype Mutation = Mutation(kind: Kind, address: Address)

  predicate Mutates(kind: Kind) {
    kind.Assignment? || kind.AugmentedAssignment? || kind.CallStatement?
  }

  function Own(node: Node, at: Address): seq<Mutation> {
    if Mutates(node.kind) then [Mutation(node.kind, at)] else []
  }

  /** What the walk appends for one child. */
  function FoundAt(child: Node, here: Address): seq<Mutation>
    decreases child
  {
    if child.kind.Boundary? then [] else Own(child, here) + FoundAmong(child.children, here, 0)
  }

  /** What it appends for the children from position k on of the node at `at`. */
  function FoundAmong(children: seq<Node>, at: Address, k: nat): seq<Mutation>
    decreases children
  {
    if children == [] then [] else FoundAt(children[0], at + [k]) + FoundAmong(children[1..], at, k + 1)
  }

  lemma OneMore(children: seq<Node>, at: Address, i: nat)
    requires i < |children|
    ensures FoundAmong(children[i..], at, i) ==
      FoundAt(children[i], at + [i]) + FoundAmong(children[i + 1..], at, i + 1)
  {
    assert children[i..][1..] == children[i + 1..];
  }

  /** The walk of `control_flow_mutations`, which appends to one list. */
  class Walker {
    var out: seq<Mutation>

    constructor ()
      ensures out == []
    {
      out := [];
    }

    method Walk(current: Node, at: Address)
      modifies this
      ensures out == old(out) + FoundAmong(current.children, at, 0)
      decreases current
    {
      var i := 0;
      assert current.children[0..] == current.children;
      while i < |current.children|
        invariant i <= |current.children|
        invariant out + FoundAmong(current.children[i..], at, i) == old(out) + FoundAmong(current.children, at, 0)
      {
        var child := current.children[i];
        OneMore(current.children, at, i);
        if !child.kind.Boundary? {
          if Mutates(child.kind) {
            out := out + [Mutation(child.kind, at + [i])];
          }
          Walk(child, at + [i]);
        }
        i := i + 1;
      }
    }
  }

  method ControlFlowMutations(node: Node, at: Address) returns (found: seq<Mutation>)
    ensures found == FoundAmong(node.children, at, 0)
  {
    var walker := new Walker();
    walker.Walk(node, at);
    found := walker.out;
  }

  // ------------------------------------------------------------------ the reference

  /** The node at a path below `node`, if no node on the way there, itself included, is a boundary. */
  function Reached(node: Node, path: Address): Option<Node>
    decreases |path|
  {
    if path == [] then Some(node)
    else if path[0] < |node.children| && !node.children[path[0]].kind.Boundary?
    then Reached(node.children[path[0]], path[1..])
    else None
  }

  /** m is a mutating node strictly below `root` that no boundary separates from it. */
  predicate Unshielded(root: Node, m: Mutation) {
    && m.address != []
    && (m.kind.Assignment? || m.kind.AugmentedAssignment? || m.kind.CallStatement?)
    && Reached(root, m.address).Some?
    && Reached(root, m.address).value.kind == m.kind
  }

  /** Document order: a node comes before what it contains and before its later siblings. */
  predicate Precedes(a: Address, b: Address)
    decreases |a|
  {
    b != [] && (a == [] || a[0] < b[0] || (a[0] == b[0] && Precedes(a[1..], b[1..])))
  }

  ghost predicate InOrder(ms: seq<Mutation>) {
    forall i, j | 0 <= i < j < |ms| :: Precedes(ms[i].address, ms[j].address)
  }

  /** Every address continues `at`, first at a child position from k on. */
  predicate Beneath(a: Address, at: Address, k: nat) {
    at < a && a[|at|] >= k
  }

  lemma {:induction false} PrefixDecides(at: Address, a: Address, b: Address)
    requires at <= a && at <= b
    ensures Precedes(a, b) <==> Precedes(a[|at|..], b[|at|..])
    decreases |at|
  {
    if at != [] {
      PrefixDecides(at[1..], a[1..], b[1..]);
      assert a[1..][|at| - 1..] == a[|at|..] && b[1..][|at| - 1..] == b[|at|..];
    }
  }

  lemma {:induction false} PrecedesIsStrict(a: Address, b: Address)
    requires Precedes(a, b)
    ensures a != b
    decreases |a|
  {
    if a != [] && a[0] == b[0] {
      PrecedesIsStrict(a[1..], b[1..]);
    }
  }

  lemma {:induction false} AllBeneath(children: seq<Node>, at: Address, k: nat)
    ensures forall m | m in FoundAmong(children, at, k) :: Beneath(m.address, at, k)
    decreases children
  {
    if children != [] {
      var child, here := children[0], at + [k];
      AllBeneath(child.children, here, 0);
      AllBeneath(children[1..], at, k + 1);
      assert forall m | m in FoundAmong(child.children, here, 0) :: here < m.address && m.address[|at|] == here[|at|];
    }
  }

  lemma InOrderIsDistinct(ms: seq<Mutation>)
    requires InOrder(ms)
    ensures Distinct(ms)
  {
    forall i, j | 0 <= i < j < |ms| ensures ms[i] != ms[j] {
      PrecedesIsStrict(ms[i].address, ms[j].address);
    }
  }

  lemma InOrderJoin(a: seq<Mutation>, b: seq<Mutation>)
    requires InOrder(a) && InOrder(b)
    requires forall x, y | x in a && y in b :: Precedes(x.address, y.address)
    ensures InOrder(a + b)
  {
  }

  lemma Earlier(at: Address, k: nat, a: Address, b: Address)
    requires at + [k] <= a && Beneath(b, at, k + 1)
    ensures Precedes(a, b)
  {
    PrefixDecides(at, a, b);
    assert a[|at|] == (at + [k])[|at|];
  }

  lemma {:induction false} WalkIsInOrder(children: seq<Node>, at: Address, k: nat)
    ensures InOrder(FoundAmong(children, at, k))
    decreases children
  {
    if children != [] {
      var child, here := children[0], at + [k];
      var inside, rest := FoundAmong(child.children, here, 0), FoundAmong(children[1..], at, k + 1);
      WalkIsInOrder(child.children, here, 0);
      WalkIsInOrder(children[1..], at, k + 1);
      AllBeneath(child.children, here, 0);
      AllBeneath(children[1..], at, k + 1);
      forall x, y | x in Own(child, here) && y in inside ensures Precedes(x.address, y.address) {
        PrefixDecides(here, here, y.address);
      }
      InOrderJoin(Own(child, here), inside);
      forall x, y | x in Own(child, here) + inside && y in rest ensures Precedes(x.address, y.address) {
        Earlier(at, k, x.address, y.address);
      }
      InOrderJoin(Own(child, here) + inside, rest);
    }
  }

  /** A path below the children from position k on, as the walk that starts there sees it. */
  predicate UnshieldedAmong(children: seq<Node>, at: Address, k: nat, m: Mutation) {
    Beneath(m.address, at, k) && Unshielded(Node(OtherKind, children),
      Mutation(m.kind, [m.address[|at|] - k] + m.address[|at| + 1..]))
  }

  lemma FirstChild(children: seq<Node>, at: Address, k: nat, m: Mutation)
    requires children != [] && Beneath(m.address, at, k) && m.address[|at|] == k
    ensures UnshieldedAmong(children, at, k, m) <==>
            !children[0].kind.Boundary? &&
            (m in Own(children[0], at + [k]) || UnshieldedAmong(children[0].children, at + [k], 0, m))
  {
    var child, here := children[0], at + [k];
    var below := m.address[|at| + 1..];
    assert m.address == here + below;
    assert ([0] + below)[1..] == below;
    var path := [0] + below;
    assert Reached(Node(OtherKind, children), path) == if child.kind.Boundary? then None else Reached(child, below);
    if below == [] {
      assert m.address == here;
    } else {
      assert m.address[|here|] == below[0] && [below[0]] + m.address[|here| + 1..] == below;
      assert Reached(child, below) == Reached(Node(OtherKind, child.children), below);
    }
  }

  lemma LaterChild(children: seq<Node>, at: Address, k: nat, m: Mutation)
    requires children != [] && Beneath(m.address, at, k + 1)
    ensures UnshieldedAmong(children, at, k, m) <==> UnshieldedAmong(children[1..], at, k + 1, m)
  {
    var step, below := m.address[|at|] - k, m.address[|at| + 1..];
    assert ([step] + below)[1..] == below == ([step - 1] + below)[1..];
    assert step < |children| ==> children[step] == children[1..][step - 1];
  }

  lemma {:induction false} WalkFindsAll(children: seq<Node>, at: Address, k: nat, m: Mutation)
    ensures m in FoundAmong(children, at, k) <==> UnshieldedAmong(children, at, k, m)
    decreases children
  {
    if children != [] {
      var child, here := children[0], at + [k];
      var inside, rest := FoundAmong(child.children, here, 0), FoundAmong(children[1..], at, k + 1);
      AllBeneath(child.children, here, 0);
      AllBeneath(children[1..], at, k + 1);
      WalkFindsAll(child.children, here, 0, m);
      WalkFindsAll(children[1..], at, k + 1, m);
      if Beneath(m.address, at, k) {
        var step, below := m.address[|at|] - k, m.address[|at| + 1..];
        if step == 0 {
          FirstChild(children, at, k, m);
        } else {
          LaterChild(children, at, k, m);
        }
      }
    }
  }

  /** The walk lists exactly the mutations that no function, class or lambda separates from `node`, each once,
      in document order. */
  lemma WalkIsExact(node: Node)
    ensures forall m :: m in FoundAmong(node.children, [], 0) <==> Unshielded(node, m)
    ensures InOrder(FoundAmong(node.children, [], 0))
    ensures Distinct(FoundAmong(node.children, [], 0))
  {
    var found := FoundAmong(node.children, [], 0);
    WalkIsInOrder(node.children, [], 0);
    forall m ensures m in found <==> Unshielded(node, m) {
      WalkFindsAll(node.children, [], 0, m);
      if m.address != [] {
        assert [m.address[0]] + m.address[1..] == m.address;
      }
    }
    InOrderIsDistinct(found);
  }

  // ------------------------------------------------------------------ the whole module

  datatype Analysis = Analysis(assignments: seq<Mutation>, augmented: seq<Mutation>, calls: seq<Mutation>,
    controlFlow: seq<Mutation>)

  /** The top-level statements of one kind, from position k on. */
  function Tops(kind: Kind, body: seq<Node>, k: nat): seq<Mutation> {
    if body == [] then []
    else (if body[0].kind == kind then [Mutation(kind, [k])] else []) + Tops(kind, body[1..], k + 1)
  }

  /** What the walks of the control-flow statements from position k on find, one after the other. */
  function Nested(body: seq<Node>, k: nat): seq<Mutation> {
    if body == [] then []
    else (if body[0].kind.ControlFlow? then FoundAmong(body[0].children, [k], 0) else []) + Nested(body[1..], k + 1)
  }

  /** The analysis of the statements from position k on. */
  function AnalysisFrom(body: seq<Node>, k: nat): Analysis {
    Analysis(Tops(Assignment, body, k), Tops(AugmentedAssignment, body, k), Tops(CallStatement, body, k),
      Nested(body, k))
  }

  function AnalysisOf(body: seq<Node>): Analysis {
    AnalysisFrom(body, 0)
  }

  /** What one top-level statement contributes. */
  function StatementOf(node: Node, i: nat): Analysis {
    match node.kind
    case Assignment => Analysis([Mutation(Assignment, [i])], [], [], [])
    case AugmentedAssignment => Analysis([], [Mutation(AugmentedAssignment, [i])], [], [])
    case CallStatement => Analysis([], [], [Mutation(CallStatement, [i])], [])
    case ControlFlow => Analysis([], [], [], FoundAmong(node.children, [i], 0))
    case _ => Analysis([], [], [], [])
  }

  function Joined(a: Analysis, b: Analysis): Analysis {
    Analysis(a.assignments + b.assignments, a.augmented + b.augmented, a.calls + b.calls, a.controlFlow + b.controlFlow)
  }

  lemma JoinedRegroups(a: Analysis, b: Analysis, c: Analysis)
    ensures Joined(Joined(a, b), c) == Joined(a, Joined(b, c))
  {
  }

  lemma OneMoreStatement(body: seq<Node>, i: nat)
    requires i < |body|
    ensures AnalysisFrom(body[i..], i) == Joined(StatementOf(body[i], i), AnalysisFrom(body[i + 1..], i + 1))
  {
    assert body[i..][1..] == body[i + 1..];
  }

  method Analyze(tree: Node) returns (analysis: Analysis)
    ensures analysis == AnalysisOf(tree.children)
  {
    var body := tree.children;
    var assignments, augmented, calls, controlFlow := [], [], [], [];
    assert body[0..] == body;
    for i := 0 to |body|
      invariant Joined(Analysis(assignments, augmented, calls, controlFlow), AnalysisFrom(body[i..], i)) ==
        AnalysisOf(body)
    {
      var node := body[i];
      ghost var before := Analysis(assignments, augmented, calls, controlFlow);
      match node.kind {
        case Assignment => assignments := assignments + [Mutation(Assignment, [i])];
        case AugmentedAssignment => augmented := augmented + [Mutation(AugmentedAssignment, [i])];
        case CallStatement => calls := calls + [Mutation(CallStatement, [i])];
        case ControlFlow =>
          var found := ControlFlowMutations(node, [i]);
          controlFlow := controlFlow + found;
        case _ =>
      }
      assert Analysis(assignments, augmented, calls, controlFlow) == Joined(before, StatementOf(node, i));
      OneMoreStatement(body, i);
      JoinedRegroups(before, StatementOf(node, i), AnalysisFrom(body[i + 1..], i + 1));
    }
    analysis := Analysis(assignments, augmented, calls, controlFlow);
    assert body[|body|..] == [];
  }

  lemma {:induction false} TopsAre(kind: Kind, body: seq<Node>, k: nat, m: Mutation)
    ensures m in Tops(kind, body, k) <==>
            |m.address| == 1 && k <= m.address[0] < k + |body| && m.kind == kind == body[m.address[0] - k].kind
  {
    if body != [] {
      TopsAre(kind, body[1..], k + 1, m);
      if |m.address| == 1 && m.address[0] == k {
        assert m.address == [k];
      }
    }
  }

  lemma WalkOfOne(top: Node, k: nat, m: Mutation)
    ensures m in FoundAmong(top.children, [k], 0) <==>
            |m.address| >= 2 && m.address[0] == k && Unshielded(top, Mutation(m.kind, m.address[1..]))
  {
    AllBeneath(top.children, [k], 0);
    WalkFindsAll(top.children, [k], 0, m);
    if |m.address| >= 2 && m.address[0] == k {
      assert m.address == [k] + m.address[1..];
      assert [m.address[1] - 0] + m.address[2..] == m.address[1..];
      assert Reached(top, m.address[1..]) == Reached(Node(OtherKind, top.children), m.address[1..]);
    }
  }

  /** m lies inside the control-flow statement at one of the positions from k on. */
  predicate LiesNested(body: seq<Node>, k: nat, m: Mutation) {
    && |m.address| >= 2 && k <= m.address[0] < k + |body| && body[m.address[0] - k].kind.ControlFlow?
    && Unshielded(body[m.address[0] - k], Mutation(m.kind, m.address[1..]))
  }

  /** m is found by the walk of this control-flow statement. */
  predicate InStatement(top: Node, i: nat, m: Mutation) {
    top.kind.ControlFlow? && m in FoundAmong(top.children, [i], 0)
  }

  predicate InOneOf(body: seq<Node>, k: nat, m: Mutation) {
    m.address != [] && k <= m.address[0] < k + |body| && InStatement(body[m.address[0] - k], m.address[0], m)
  }

  lemma FirstOrLater(body: seq<Node>, k: nat, m: Mutation)
    requires body != [] && (InStatement(body[0], k, m) ==> m.address != [] && m.address[0] == k)
    ensures InOneOf(body, k, m) <==> InStatement(body[0], k, m) || InOneOf(body[1..], k + 1, m)
  {
    if m.address != [] && k < m.address[0] < k + |body| {
      assert body[1..][m.address[0] - (k + 1)] == body[m.address[0] - k];
    }
  }

  lemma {:induction false} NestedByPosition(body: seq<Node>, k: nat, m: Mutation)
    ensures m in Nested(body, k) <==> InOneOf(body, k, m)
  {
    if body != [] {
      NestedByPosition(body[1..], k + 1, m);
      AllBeneath(body[0].children, [k], 0);
      FirstOrLater(body, k, m);
    }
  }

  lemma NestedAre(body: seq<Node>, k: nat, m: Mutation)
    ensures m in Nested(body, k) <==> LiesNested(body, k, m)
  {
    NestedByPosition(body, k, m);
    if m.address != [] && k <= m.address[0] < k + |body| {
      WalkOfOne(body[m.address[0] - k], m.address[0], m);
    }
  }

  predicate Listed(analysis: Analysis, m: Mutation) {
    m in analysis.assignments || m in analysis.augmented || m in analysis.calls || m in analysis.controlFlow
  }

  /** Where the analysis looks: at the top level itself and inside control flow. */
  predicate LooksAt(body: seq<Node>, m: Mutation) {
    m.address != [] && m.address[0] < |body| && (|m.address| == 1 || body[m.address[0]].kind.ControlFlow?)
  }

  lemma ListedIff(body: seq<Node>, m: Mutation)
    ensures Listed(AnalysisOf(body), m) <==> Unshielded(Node(OtherKind, body), m) && LooksAt(body, m)
  {
    TopsAre(Assignment, body, 0, m);
    TopsAre(AugmentedAssignment, body, 0, m);
    TopsAre(CallStatement, body, 0, m);
    NestedAre(body, 0, m);
    if m.address != [] && m.address[0] < |body| {
      assert Reached(Node(OtherKind, body), m.address) ==
             if body[m.address[0]].kind.Boundary? then None else Reached(body[m.address[0]], m.address[1..]);
    }
  }

  /** Every top-level statement that is neither control flow nor a boundary holds no further mutation. */
  ghost predicate NothingBuried(body: seq<Node>) {
    forall i | 0 <= i < |body| && !body[i].kind.ControlFlow? && !body[i].kind.Boundary? ::
      FoundAmong(body[i].children, [], 0) == []
  }

  /**
    The analysis lists no mutation behind a function, class or lambda, and lists every other one
    exactly when the statements it does not look into hold none, as Python's grammar guarantees.
   */
  lemma AnalysisIsCompleteIff(body: seq<Node>)
    ensures forall m :: Listed(AnalysisOf(body), m) ==> Unshielded(Node(OtherKind, body), m)
    ensures (forall m :: Unshielded(Node(OtherKind, body), m) ==> Listed(AnalysisOf(body), m)) <==> NothingBuried(body)
  {
    var root := Node(OtherKind, body);
    forall m ensures Listed(AnalysisOf(body), m) <==> Unshielded(root, m) && LooksAt(body, m) {
      ListedIff(body, m);
    }
    if NothingBuried(body) {
      forall m | Unshielded(root, m) ensures LooksAt(body, m) {
        var top := body[m.address[0]];
        if |m.address| > 1 && !top.kind.ControlFlow? {
          WalkIsExact(top);
          assert Unshielded(top, Mutation(m.kind, m.address[1..]));
        }
      }
    } else {
      var i :| 0 <= i < |body| && !body[i].kind.ControlFlow? && !body[i].kind.Boundary? &&
        FoundAmong(body[i].children, [], 0) != [];
      var buried := FoundAmong(body[i].children, [], 0)[0];
      WalkIsExact(body[i]);
      assert buried in FoundAmong(body[i].children, [], 0) && Unshielded(body[i], buried);
      var m := Mutation(buried.kind, [i] + buried.address);
      assert m.address[1..] == buried.address;
      assert Unshielded(root, m) && !LooksAt(body, m);
    }
  }

  lemma {:induction false} TopsAreInOrder(kind: Kind, body: seq<Node>, k: nat)
    ensures InOrder(Tops(kind, body, k))
  {
    if body != [] {
      TopsAreInOrder(kind, body[1..], k + 1);
      forall m ensures m in Tops(kind, body[1..], k + 1) ==> |m.address| == 1 && m.address[0] > k {
        TopsAre(kind, body[1..], k + 1, m);
      }
    }
  }

  lemma {:induction false} NestedIsInOrder(body: seq<Node>, k: nat)
    ensures InOrder(Nested(body, k))
  {
    if body != [] {
      NestedIsInOrder(body[1..], k + 1);
      WalkIsInOrder(body[0].children, [k], 0);
      AllBeneath(body[0].children, [k], 0);
      forall m ensures m in Nested(body[1..], k + 1) ==> m.address != [] && m.address[0] > k {
        NestedAre(body[1..], k + 1, m);
      }
      if body[0].kind.ControlFlow? {
        InOrderJoin(FoundAmong(body[0].children, [k], 0), Nested(body[1..], k + 1));
      }
    }
  }

  /** Nothing is listed twice: the four lists together repeat no statement. */
  lemma NothingIsListedTwice(body: seq<Node>)
    ensures var a := AnalysisOf(body); Distinct(a.assignments + a.augmented + a.calls + a.controlFlow)
  {
    var a := AnalysisOf(body);
    TopsAreInOrder(Assignment, body, 0);
    TopsAreInOrder(AugmentedAssignment, body, 0);
    TopsAreInOrder(CallStatement, body, 0);
    NestedIsInOrder(body, 0);
    InOrderIsDistinct(a.assignments);
    InOrderIsDistinct(a.augmented);
    InOrderIsDistinct(a.calls);
    InOrderIsDistinct(a.controlFlow);
    forall m
      ensures m in a.assignments ==> m.kind.Assignment? && |m.address| == 1
      ensures m in a.augmented ==> m.kind.AugmentedAssignment? && |m.address| == 1
      ensures m in a.calls ==> m.kind.CallStatement? && |m.address| == 1
      ensures m in a.controlFlow ==> |m.address| >= 2
    {
      TopsAre(Assignment, body, 0, m);
      TopsAre(AugmentedAssignment, body, 0, m);
      TopsAre(CallStatement, body, 0, m);
      NestedAre(body, 0, m);
    }
  }

  /** m is the top-level statement at its address. */
  predicate IsTop(body: seq<Node>, m: Mutation) {
    |m.address| == 1 && m.address[0] < |body| && m.kind == body[m.address[0]].kind
  }

  /** Each kind has its own list: the assignments, augmented assignments and calls among the top-level statements,
      and what lies unshielded inside the control-flow statements; each list is in document order. */
  lemma ListsAreByKind(body: seq<Node>)
    ensures var a := AnalysisOf(body);
      && (forall m :: m in a.assignments <==> IsTop(body, m) && m.kind == Assignment)
      && (forall m :: m in a.augmented <==> IsTop(body, m) && m.kind == AugmentedAssignment)
      && (forall m :: m in a.calls <==> IsTop(body, m) && m.kind == CallStatement)
      && (forall m :: m in a.controlFlow <==>
            && |m.address| >= 2 && m.address[0] < |body| && body[m.address[0]].kind == ControlFlow
            && Unshielded(body[m.address[0]], Mutation(m.kind, m.address[1..])))
      && InOrder(a.assignments) && InOrder(a.augmented) && InOrder(a.calls) && InOrder(a.controlFlow)
  {
    var a := AnalysisOf(body);
    forall m: Mutation
      ensures m in a.assignments <==> IsTop(body, m) && m.kind == Assignment
      ensures m in a.augmented <==> IsTop(body, m) && m.kind == AugmentedAssignment
      ensures m in a.calls <==> IsTop(body, m) && m.kind == CallStatement
      ensures m in a.controlFlow <==> LiesNested(body, 0, m)
    {
      TopsAre(Assignment, body, 0, m);
      TopsAre(AugmentedAssignment, body, 0, m);
      TopsAre(CallStatement, body, 0, m);
      NestedAre(body, 0, m);
    }
    TopsAreInOrder(Assignment, body, 0);
    TopsAreInOrder(AugmentedAssignment, body, 0);
    TopsAreInOrder(CallStatement, body, 0);
    NestedIsInOrder(body, 0);
  }
}
