/**
  Finding one method by its erased parameter types (Main.java of the ast-helper): the overload
  matching loop, what it refuses, and the locator file it is driven by.
 */
module JavaMembers {
  import opened Prelude
  import opened JavaText

  /** `described` is the resolved type as the symbol solver prints it; None when it cannot. */
  datatype Param = Param(name: string, described: Option<string>, written: string)

  /** The offsets stand for the declaration's and the body's ranges, both ends included. */
  datatype MethodDecl = MethodDecl(name: string, params: seq<Param>, declBegin: nat, body: Option<(nat, nat)>)

  datatype Locator = Locator(typeFqn: string, memberKind: string, memberName: string, paramTypes: seq<string>)

  // ------------------------------------------------------------------ erasure

  function EraseGenerics(described: string): string {
    match IndexOf(described, '<', 0)
    case None => described
    case Some(lt) => described[..lt]
  }

  /** Erasure drops exactly the text from the first '<' on. */
  lemma EraseGenericsIs(name: string, arguments: string)
    requires '<' !in name
    ensures EraseGenerics(name) == name
    ensures EraseGenerics(name + "<" + arguments) == name
  {
    SeparatorAt(name, arguments, '<');
    assert name + "<" + arguments == name + ['<'] + arguments;
    assert (name + "<" + arguments)[..|name|] == name;
  }

  function Erased(p: Param): Option<string> {
    match p.described
    case None => None
    case Some(d) => Some(EraseGenerics(d))
  }

  // ------------------------------------------------------------------ matching

  predicate Resolves(p: Param, requested: string) {
    Erased(p) == Some(requested)
  }

  /** The method has the requested parameters: as many, all resolved, all equal after erasure. */
  predicate Matches(m: MethodDecl, paramTypes: seq<string>) {
    |m.params| == |paramTypes| && forall k | 0 <= k < |m.params| :: Resolves(m.params[k], paramTypes[k])
  }

  datatype Selection =
    | NoSuchMethod
    | NearMiss(only: MethodDecl)
    | NoOverload(candidates: nat)
    | Several(matches: nat)
    | Selected(m: MethodDecl)

  function Candidates(members: seq<MethodDecl>, name: string): seq<MethodDecl> {
    Filter((m: MethodDecl) => m.name == name, members)
  }

  function Matching(members: seq<MethodDecl>, loc: Locator): seq<MethodDecl> {
    Filter((m: MethodDecl) => Matches(m, loc.paramTypes), Candidates(members, loc.memberName))
  }

  function Select(members: seq<MethodDecl>, loc: Locator): Selection {
    var candidates := Candidates(members, loc.memberName);
    var matching := Matching(members, loc);
    if candidates == [] then NoSuchMethod
    else if matching == [] then if |candidates| == 1 then NearMiss(candidates[0]) else NoOverload(|candidates|)
    else if |matching| > 1 then Several(|matching|)
    else Selected(matching[0])
  }

  /** The two loops over one candidate's parameters: resolve them all, then compare them in order. */
  method MatchesRequest(m: MethodDecl, paramTypes: seq<string>) returns (matches: bool)
    ensures matches <==> Matches(m, paramTypes)
  {
    if |m.params| != |paramTypes| {
      return false;
    }
    var erased: seq<Option<string>> := [];
    var allResolved := true;
    for k := 0 to |m.params|
      invariant |erased| == k
      invariant forall j | 0 <= j < k :: erased[j] == Erased(m.params[j])
      invariant allResolved <==> forall j | 0 <= j < k :: m.params[j].described.Some?
    {
      if m.params[k].described.Some? {
        erased := erased + [Some(EraseGenerics(m.params[k].described.value))];
      } else {
        erased := erased + [None];
        allResolved := false;
      }
    }
    if !allResolved {
      return false;
    }
    for k := 0 to |erased|
      invariant forall j | 0 <= j < k :: Resolves(m.params[j], paramTypes[j])
    {
      if erased[k] != Some(paramTypes[k]) {
        assert !Resolves(m.params[k], paramTypes[k]);
        return false;
      }
    }
    return true;
  }

  method SelectMethod(members: seq<MethodDecl>, loc: Locator) returns (r: Selection)
    ensures r == Select(members, loc)
  {
    var candidates: seq<MethodDecl> := [];
    for i := 0 to |members|
      invariant candidates == Candidates(members[..i], loc.memberName)
    {
      assert members[..i + 1][..i] == members[..i];
      if members[i].name == loc.memberName {
        candidates := candidates + [members[i]];
      }
    }
    assert members[..|members|] == members;
    if |candidates| == 0 {
      return NoSuchMethod;
    }
    ghost var P := (m: MethodDecl) => Matches(m, loc.paramTypes);
    var matched := candidates[0];
    var matchCount := 0;
    for i := 0 to |candidates|
      invariant matchCount == |Filter(P, candidates[..i])|
      invariant matchCount > 0 ==> matched == Filter(P, candidates[..i])[matchCount - 1]
    {
      assert candidates[..i + 1][..i] == candidates[..i];
      var matches := MatchesRequest(candidates[i], loc.paramTypes);
      if matches {
        matched := candidates[i];
        matchCount := matchCount + 1;
      }
    }
    assert candidates[..|candidates|] == candidates;
    if matchCount == 0 {
      return if |candidates| == 1 then NearMiss(candidates[0]) else NoOverload(|candidates|);
    }
    if matchCount > 1 {
      return Several(matchCount);
    }
    return Selected(matched);
  }

  // ------------------------------------------------------------------ soundness

  lemma {:induction false} FilterSingle<T(!new)>(p: T -> bool, s: seq<T>)
    ensures |Filter(p, s)| <= 1 <==> forall i, j | 0 <= i < j < |s| :: !(p(s[i]) && p(s[j]))
  {
    if s != [] {
      var n := |s| - 1;
      FilterSingle(p, s[..n]);
      if Filter(p, s[..n]) == [] {
        assert forall x :: x in s[..n] ==> !p(x);
        assert forall i :: 0 <= i < n ==> s[i] in s[..n];
      } else {
        var x := Filter(p, s[..n])[0];
        assert x in Filter(p, s[..n]);
        var i :| 0 <= i < n && s[i] == x;
        assert p(s[i]);
      }
    }
  }

  /** A method is selected iff it is a member with the requested name and parameters, and the members
      hold no second one. */
  lemma SelectedIff(members: seq<MethodDecl>, loc: Locator, m: MethodDecl)
    ensures Select(members, loc) == Selected(m) <==>
      && m in members && m.name == loc.memberName && Matches(m, loc.paramTypes)
      && forall i, j | 0 <= i < j < |members| ::
           !(members[i].name == loc.memberName && Matches(members[i], loc.paramTypes)
             && members[j].name == loc.memberName && Matches(members[j], loc.paramTypes))
  {
    var both := (x: MethodDecl) => x.name == loc.memberName && Matches(x, loc.paramTypes);
    FilterTwice((x: MethodDecl) => x.name == loc.memberName, (x: MethodDecl) => Matches(x, loc.paramTypes), both,
      members);
    FilterSingle(both, members);
    if Matching(members, loc) != [] {
      assert Matching(members, loc)[0] in Matching(members, loc);
    }
  }

  lemma {:induction false} FilterMultiset<T(!new)>(p: T -> bool, s: seq<T>, x: T)
    ensures multiset(Filter(p, s))[x] == if p(x) then multiset(s)[x] else 0
  {
    if s != [] {
      FilterMultiset(p, s[..|s| - 1], x);
      assert s == s[..|s| - 1] + [s[|s| - 1]];
    }
  }

  lemma FilterPermutes<T(!new)>(p: T -> bool, s: seq<T>, t: seq<T>)
    requires multiset(s) == multiset(t)
    ensures multiset(Filter(p, s)) == multiset(Filter(p, t))
  {
    forall x ensures multiset(Filter(p, s))[x] == multiset(Filter(p, t))[x] {
      FilterMultiset(p, s, x);
      FilterMultiset(p, t, x);
    }
  }

  lemma SameSingle<T>(s: seq<T>, t: seq<T>)
    requires multiset(s) == multiset(t)
    ensures |s| == |t| && (|s| == 1 ==> s[0] == t[0])
  {
    assert |multiset(s)| == |s| && |multiset(t)| == |t|;
    if |s| == 1 {
      assert s == [s[0]] && t == [t[0]];
      assert s[0] in multiset(s);
      assert s[0] in multiset(t);
    }
  }

  /** The order of the members does not matter: any permutation gives the same selection or the same
      refusal. */
  lemma SelectionIgnoresOrder(members: seq<MethodDecl>, shuffled: seq<MethodDecl>, loc: Locator)
    requires multiset(members) == multiset(shuffled)
    ensures Select(members, loc) == Select(shuffled, loc)
  {
    var named := (m: MethodDecl) => m.name == loc.memberName;
    FilterPermutes(named, members, shuffled);
    var c, d := Candidates(members, loc.memberName), Candidates(shuffled, loc.memberName);
    SameSingle(c, d);
    FilterPermutes((m: MethodDecl) => Matches(m, loc.paramTypes), c, d);
    SameSingle(Matching(members, loc), Matching(shuffled, loc));
  }

  // ------------------------------------------------------------------ told by the descriptions alone

  /** The type is known, and what is asked for is all of its description, or all before its first '<'. */
  predicate AsksFor(requested: string, described: Option<string>) {
    && described.Some? && '<' !in requested
    && (described.value == requested || requested + "<" <= described.value)
  }

  lemma ResolvesIff(p: Param, requested: string)
    ensures Resolves(p, requested) <==> AsksFor(requested, p.described)
  {
    if p.described.Some? {
      var d := p.described.value;
      var lt := IndexOf(d, '<', 0);
      if lt.Some? {
        assert d == d[..lt.value] + "<" + d[lt.value + 1..];
      }
      if AsksFor(requested, p.described) && d != requested {
        EraseGenericsIs(requested, d[|requested| + 1..]);
        assert d == requested + "<" + d[|requested| + 1..];
      }
    }
  }

  /** A method matches iff it has as many parameters as are asked for, each of a known type that is asked for. */
  lemma MatchesIffAskedFor(m: MethodDecl, paramTypes: seq<string>)
    ensures Matches(m, paramTypes) <==>
      |m.params| == |paramTypes| && forall k | 0 <= k < |m.params| :: AsksFor(paramTypes[k], m.params[k].described)
  {
    forall k | 0 <= k < |m.params| && k < |paramTypes|
      ensures Resolves(m.params[k], paramTypes[k]) <==> AsksFor(paramTypes[k], m.params[k].described)
    {
      ResolvesIff(m.params[k], paramTypes[k]);
    }
  }

  /** The positions of the members with the name, and of those of them that match. */
  function Named(members: seq<MethodDecl>, name: string): set<nat> {
    Positions((m: MethodDecl) => m.name == name, members)
  }

  function Hits(members: seq<MethodDecl>, loc: Locator): set<nat> {
    Positions((m: MethodDecl) => m.name == loc.memberName && Matches(m, loc.paramTypes), members)
  }

  lemma CountsAre(members: seq<MethodDecl>, loc: Locator)
    ensures |Candidates(members, loc.memberName)| == |Named(members, loc.memberName)|
    ensures |Matching(members, loc)| == |Hits(members, loc)|
  {
    var named := (m: MethodDecl) => m.name == loc.memberName;
    var both := (m: MethodDecl) => m.name == loc.memberName && Matches(m, loc.paramTypes);
    FilterTwice(named, (m: MethodDecl) => Matches(m, loc.paramTypes), both, members);
    FilterCounts(named, members);
    FilterCounts(both, members);
  }

  lemma HitsAreNamed(members: seq<MethodDecl>, loc: Locator)
    requires Hits(members, loc) != {}
    ensures Named(members, loc.memberName) != {}
  {
    var i :| i in Hits(members, loc);
    assert i in Named(members, loc.memberName);
  }

  /** Each refusal has its reason: no member of the name; one of the name, which does not match; several of the
      name, how many, and none that matches; several that match, and how many. */
  lemma RefusalsAreExact(members: seq<MethodDecl>, loc: Locator, m: MethodDecl, n: nat)
    ensures Select(members, loc) == NoSuchMethod <==> Named(members, loc.memberName) == {}
    ensures Select(members, loc) == NearMiss(m) <==>
      |Named(members, loc.memberName)| == 1 && Hits(members, loc) == {} && m in members && m.name == loc.memberName
    ensures Select(members, loc) == NoOverload(n) <==>
      n > 1 && |Named(members, loc.memberName)| == n && Hits(members, loc) == {}
    ensures Select(members, loc) == Several(n) <==> n > 1 && |Hits(members, loc)| == n
  {
    CountsAre(members, loc);
    var candidates := Candidates(members, loc.memberName);
    if |candidates| == 1 {
      assert candidates[0] in candidates;
      assert forall x :: x in candidates ==> x == candidates[0];
    }
    if Hits(members, loc) != {} {
      HitsAreNamed(members, loc);
    }
  }

  // ------------------------------------------------------------------ the located text

  datatype Located = Refused | Found(signature: seq<Unit>, region: seq<Unit>)

  lemma SelectedIsMember(members: seq<MethodDecl>, loc: Locator, m: MethodDecl)
    requires Select(members, loc) == Selected(m)
    ensures m in members && m.name == loc.memberName && Matches(m, loc.paramTypes)
  {
    SelectedIff(members, loc, m);
  }

  /** What is reported for the selected method; a method without a body is refused, too. */
  function Locate(text: seq<Unit>, members: seq<MethodDecl>, loc: Locator): Located
    requires forall m :: m in members && m.body.Some? ==>
      m.body.value.0 <= |text| && m.body.value.1 <= |text| && m.declBegin <= |text|
  {
    match Select(members, loc)
    case Selected(m) =>
      SelectedIsMember(members, loc, m);
      if m.body.None? then Refused
      else
        var begin, end := PositionOf(text, m.body.value.0), PositionOf(text, m.body.value.1);
        match (SliceByRange(text, PositionOf(text, m.declBegin), SignatureEnd(begin)), SliceByRange(text, begin, end)) {
          case (Some(signature), Some(region)) => Found(signature, region)
          case _ => Refused
        }
    case _ => Refused
  }

  /** What is located is the one matching method, and its two texts are its declaration in the source. */
  lemma LocatedTextIsTheDeclaration(text: seq<Unit>, members: seq<MethodDecl>, loc: Locator)
    requires forall m :: m in members && m.body.Some? ==> m.declBegin <= m.body.value.0 <= m.body.value.1 < |text|
    ensures Locate(text, members, loc).Found? <==>
      exists m :: m in members && Select(members, loc) == Selected(m) && m.body.Some?
    ensures forall m :: m in members && Select(members, loc) == Selected(m) && m.body.Some? ==>
      var found := Locate(text, members, loc);
      && found.region == text[m.body.value.0..m.body.value.1 + 1]
      && Contiguous(text[m.declBegin..m.body.value.1 + 1], found.signature, found.region,
         StartsLine(text, m.body.value.0))
  {
    match Select(members, loc)
    case Selected(m) =>
      SelectedIsMember(members, loc, m);
      if m.body.Some? {
        var signature, region := SlicesAreContiguous(text, m.declBegin, m.body.value.0, m.body.value.1);
      }
    case _ =>
  }

  // ------------------------------------------------------------------ the locator file

  /** What Integer.parseInt(line.trim()) makes of a line; None is its exception. */
  type IntParser = string -> Option<int>

  function Take(lines: seq<string>, i: nat, n: int): Option<seq<string>> {
    if n <= 0 then Some([]) else if i + n <= |lines| then Some(lines[i..i + n]) else None
  }

  function ReadOne(parse: IntParser, lines: seq<string>, i: nat): Option<(Locator, nat)> {
    if i + 4 > |lines| then None
    else match parse(lines[i + 3])
      case None => None
      case Some(count) =>
        match Take(lines, i + 4, count)
        case None => None
        case Some(types) => Some((Locator(lines[i], lines[i + 1], lines[i + 2], types), i + 4 + |types|))
  }

  /** `n` locators from line `i` on; None stands for any of the reader's exceptions. */
  function ReadFrom(parse: IntParser, lines: seq<string>, i: nat, n: int): Option<seq<Locator>>
    decreases n
  {
    if n <= 0 then Some([])
    else match ReadOne(parse, lines, i)
      case None => None
      case Some((locator, next)) =>
        match ReadFrom(parse, lines, next, n - 1)
        case None => None
        case Some(rest) => Some([locator] + rest)
  }

  function ReadLocators(parse: IntParser, lines: seq<string>): Option<seq<Locator>> {
    if lines == [] then None
    else match parse(lines[0])
      case None => None
      case Some(count) => ReadFrom(parse, lines, 1, count)
  }

  /** How the writer of the file prints a count. */
  type IntPrinter = nat -> string

  ghost predicate Inverts(parse: IntParser, show: IntPrinter) {
    forall n: nat :: parse(show(n)) == Some(n)
  }

  function LocatorLines(show: IntPrinter, loc: Locator): seq<string> {
    [loc.typeFqn, loc.memberKind, loc.memberName, show(|loc.paramTypes|)] + loc.paramTypes
  }

  function AllLines(show: IntPrinter, locators: seq<Locator>): seq<string> {
    if locators == [] then [] else LocatorLines(show, locators[0]) + AllLines(show, locators[1..])
  }

  function Continued(out: seq<Locator>, rest: Option<seq<Locator>>): Option<seq<Locator>> {
    match rest
    case None => None
    case Some(more) => Some(out + more)
  }

  method ReadParamTypes(lines: seq<string>, first: nat, count: int) returns (r: Option<seq<string>>)
    requires first <= |lines|
    ensures r == Take(lines, first, count)
  {
    var paramTypes: seq<string> := [];
    while |paramTypes| < count
      invariant |paramTypes| <= count || paramTypes == []
      invariant first + |paramTypes| <= |lines| && paramTypes == lines[first..first + |paramTypes|]
      decreases count - |paramTypes|
    {
      if first + |paramTypes| >= |lines| {
        return None;
      }
      paramTypes := paramTypes + [lines[first + |paramTypes|]];
    }
    return Some(paramTypes);
  }

  /** The reader: one index moves down the lines. */
  method ReadLocatorLines(parse: IntParser, lines: seq<string>) returns (r: Option<seq<Locator>>)
    ensures r == ReadLocators(parse, lines)
  {
    if |lines| == 0 || parse(lines[0]).None? {
      return None;
    }
    var count := parse(lines[0]).value;
    var out: seq<Locator> := [];
    var i := 1;
    var n := 0;
    ghost var whole := ReadFrom(parse, lines, 1, count);
    assert whole.Some? ==> out + whole.value == whole.value;
    while n < count
      invariant 0 <= n && (n <= count || n == 0) && i >= 1
      invariant Continued(out, ReadFrom(parse, lines, i, count - n)) == whole
    {
      if i + 4 > |lines| || parse(lines[i + 3]).None? {
        return None;
      }
      var first := i + 4;
      var paramTypes := ReadParamTypes(lines, first, parse(lines[i + 3]).value);
      if paramTypes.None? {
        return None;
      }
      var locator := Locator(lines[i], lines[i + 1], lines[i + 2], paramTypes.value);
      ghost var rest := ReadFrom(parse, lines, first + |paramTypes.value|, count - n - 1);
      assert ReadOne(parse, lines, i) == Some((locator, first + |paramTypes.value|));
      assert rest.Some? ==> (out + [locator]) + rest.value == out + ([locator] + rest.value);
      out := out + [locator];
      i := first + |paramTypes.value|;
      n := n + 1;
    }
    assert out + [] == out;
    return Some(out);
  }

  lemma ReadOneInverts(parse: IntParser, show: IntPrinter, before: seq<string>, loc: Locator, after: seq<string>)
    requires Inverts(parse, show)
    ensures ReadOne(parse, before + LocatorLines(show, loc) + after, |before|) ==
      Some((loc, |before + LocatorLines(show, loc)|))
  {
    var own := LocatorLines(show, loc);
    var lines := before + own + after;
    assert forall k :: 0 <= k < |own| ==> lines[|before| + k] == own[k];
    assert lines[|before| + 4..|before| + 4 + |loc.paramTypes|] == loc.paramTypes;
  }

  lemma ReadFromStep(parse: IntParser, lines: seq<string>, i: nat, loc: Locator, next: nat, n: nat, tail: seq<Locator>)
    requires ReadOne(parse, lines, i) == Some((loc, next)) && ReadFrom(parse, lines, next, n) == Some(tail)
    ensures ReadFrom(parse, lines, i, n + 1) == Some([loc] + tail)
  {
  }

  lemma SplitLines(show: IntPrinter, before: seq<string>, locators: seq<Locator>)
    requires locators != []
    ensures before + AllLines(show, locators) ==
      (before + LocatorLines(show, locators[0])) + AllLines(show, locators[1..])
  {
  }

  lemma {:induction false} ReadFromInverts(
    parse: IntParser, show: IntPrinter, before: seq<string>, locators: seq<Locator>)
    requires Inverts(parse, show)
    ensures ReadFrom(parse, before + AllLines(show, locators), |before|, |locators|) == Some(locators)
    decreases |locators|
  {
    if locators != [] {
      var loc, tail := locators[0], locators[1..];
      var seen := before + LocatorLines(show, loc);
      var lines := seen + AllLines(show, tail);
      ReadOneInverts(parse, show, before, loc, AllLines(show, tail));
      ReadFromInverts(parse, show, seen, tail);
      ReadFromStep(parse, lines, |before|, loc, |seen|, |tail|, tail);
      SplitLines(show, before, locators);
      assert [loc] + tail == locators;
    }
  }

  /** Reading the documented line format returns exactly the locators that were written. */
  lemma ReadLocatorsInverts(parse: IntParser, show: IntPrinter, locators: seq<Locator>)
    requires Inverts(parse, show)
    ensures ReadLocators(parse, [show(|locators|)] + AllLines(show, locators)) == Some(locators)
  {
    ReadFromInverts(parse, show, [show(|locators|)], locators);
  }
}
