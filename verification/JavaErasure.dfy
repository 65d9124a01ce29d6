/**
  What the erasure of the ast-helper (Main.java, eraseGenerics) has to do with the erasure of the Java
  compiler, and when the "more than one match" refusal can happen.

  A type is known as the symbol solver describes it: a name, its type arguments in angle brackets, and a
  pair of square brackets for each array dimension; a type variable is described by its own name. The
  description of a parameter of variable arity is that of its elements (Main.java resolves its `getType()`).
 */
module JavaErasure {
  import opened Prelude
  import opened JavaMembers

  datatype Base =
    | Plain(name: string)
    | Applied(name: string, arguments: string)
    | Variable(name: string, bound: string)

  /** The declared type of a parameter, written with three dots if `variadic`; `bound` is the erasure of a
      variable's leftmost bound. */
  datatype JavaType = JavaType(base: Base, dimensions: nat, variadic: bool)

  function Brackets(n: nat): string {
    if n == 0 then "" else Brackets(n - 1) + "[]"
  }

  function Described(t: JavaType): string {
    match t.base
    case Plain(name) => name + Brackets(t.dimensions)
    case Applied(name, arguments) => name + "<" + (arguments + ">" + Brackets(t.dimensions))
    case Variable(name, _) => name + Brackets(t.dimensions)
  }

  /** The erasure of the Java Language Specification, section 4.6: type arguments are dropped and
      variables replaced by their bounds, inside arrays, too. A parameter of variable arity is one of
      array type (section 8.4.1). */
  function TrueErasure(t: JavaType): string {
    var brackets := Brackets(t.dimensions) + if t.variadic then "[]" else "";
    match t.base
    case Plain(name) => name + brackets
    case Applied(name, _) => name + brackets
    case Variable(_, bound) => bound + brackets
  }

  predicate IsType(t: JavaType) {
    '<' !in t.base.name && '[' !in t.base.name
  }

  /** Not of variable arity, no type arguments inside an array, and no variable under another name than its
      bound's. */
  predicate ErasesExactly(t: JavaType) {
    && !t.variadic
    && match t.base
       case Plain(_) => true
       case Applied(_, _) => t.dimensions == 0
       case Variable(name, bound) => name == bound
  }

  lemma {:induction false} BracketsAre(n: nat)
    ensures |Brackets(n)| == 2 * n && '<' !in Brackets(n)
  {
    if n > 0 {
      BracketsAre(n - 1);
    }
  }

  lemma SuffixesCancel(a: string, b: string, suffix: string)
    ensures a + suffix == b + suffix <==> a == b
  {
    if a + suffix == b + suffix {
      assert |a| == |b|;
      assert a == (a + suffix)[..|a|] == (b + suffix)[..|b|] == b;
    }
  }

  lemma {:induction false} BracketsBegin(n: nat)
    ensures n > 0 ==> Brackets(n) != "" && Brackets(n)[0] == '['
  {
    if n > 1 {
      BracketsBegin(n - 1);
    }
  }

  /** A text with n pairs of brackets behind a name without any is no other text with n + 1 pairs. */
  lemma OneMorePair(name: string, bound: string, n: nat)
    requires '[' !in name
    ensures name + Brackets(n) != bound + (Brackets(n) + "[]")
  {
    BracketsAre(n);
    BracketsBegin(n);
    var text, longer := name + Brackets(n), bound + (Brackets(n) + "[]");
    assert longer[|bound|] == '[';
    if |bound| < |name| {
      assert text[|bound|] == name[|bound|];
    }
  }

  /** Cutting the description at its first '<' gives the erasure of the language exactly for types that are
      not of variable arity, have no type arguments inside an array, and are no variables. */
  lemma TextErasureIsTrueIff(t: JavaType)
    requires IsType(t)
    ensures EraseGenerics(Described(t)) == TrueErasure(t) <==> ErasesExactly(t)
  {
    var brackets := Brackets(t.dimensions);
    BracketsAre(t.dimensions);
    assert brackets + "" == brackets;
    match t.base
    case Plain(name) =>
      EraseGenericsIs(name + brackets, "");
      OneMorePair(name, name, t.dimensions);
    case Applied(name, arguments) => EraseGenericsIs(name, arguments + ">" + brackets);
    case Variable(name, bound) =>
      EraseGenericsIs(name + brackets, "");
      SuffixesCancel(name, bound, brackets);
      OneMorePair(name, bound, t.dimensions);
  }

  // ------------------------------------------------------------------ overloads

  predicate AllResolved(m: MethodDecl) {
    forall k | 0 <= k < |m.params| :: m.params[k].described.Some?
  }

  function TextErasures(m: MethodDecl): seq<Option<string>> {
    seq(|m.params|, k requires 0 <= k < |m.params| => Erased(m.params[k]))
  }

  function Requested(paramTypes: seq<string>): seq<Option<string>> {
    seq(|paramTypes|, k requires 0 <= k < |paramTypes| => Some(paramTypes[k]))
  }

  lemma MatchesIff(m: MethodDecl, paramTypes: seq<string>)
    ensures Matches(m, paramTypes) <==> TextErasures(m) == Requested(paramTypes)
  {
    if TextErasures(m) == Requested(paramTypes) {
      forall k | 0 <= k < |m.params| ensures Resolves(m.params[k], paramTypes[k]) {
        assert TextErasures(m)[k] == Requested(paramTypes)[k];
      }
    }
  }

  /** Both have this name, all their parameters are resolved, and their texts erase alike. */
  predicate Confused(m: MethodDecl, n: MethodDecl, name: string) {
    m.name == name && n.name == name && AllResolved(m) && AllResolved(n) && TextErasures(m) == TextErasures(n)
  }

  lemma SeveralIffTwoMatch(members: seq<MethodDecl>, loc: Locator)
    ensures Select(members, loc).Several? <==> exists i, j | 0 <= i < j < |members| ::
      && members[i].name == loc.memberName && Matches(members[i], loc.paramTypes)
      && members[j].name == loc.memberName && Matches(members[j], loc.paramTypes)
  {
    var both := (x: MethodDecl) => x.name == loc.memberName && Matches(x, loc.paramTypes);
    FilterTwice((x: MethodDecl) => x.name == loc.memberName, (x: MethodDecl) => Matches(x, loc.paramTypes), both,
      members);
    FilterSingle(both, members);
    if Candidates(members, loc.memberName) == [] {
      assert Matching(members, loc) == [];
    }
  }

  lemma BothMatch(m: MethodDecl, n: MethodDecl, paramTypes: seq<string>)
    requires Matches(m, paramTypes) && Matches(n, paramTypes)
    ensures AllResolved(m) && AllResolved(n) && TextErasures(m) == TextErasures(n)
  {
    MatchesIff(m, paramTypes);
    MatchesIff(n, paramTypes);
    assert forall k | 0 <= k < |m.params| :: Resolves(m.params[k], paramTypes[k]);
    assert forall k | 0 <= k < |n.params| :: Resolves(n.params[k], paramTypes[k]);
  }

  /** Some request is refused for matching several overloads iff two members of that name are confused. */
  lemma SeveralIsReachableIff(members: seq<MethodDecl>, typeFqn: string, kind: string, name: string)
    ensures (exists paramTypes :: Select(members, Locator(typeFqn, kind, name, paramTypes)).Several?) <==>
      exists i, j | 0 <= i < j < |members| :: Confused(members[i], members[j], name)
  {
    forall paramTypes | Select(members, Locator(typeFqn, kind, name, paramTypes)).Several?
      ensures exists i, j | 0 <= i < j < |members| :: Confused(members[i], members[j], name)
    {
      SeveralIffTwoMatch(members, Locator(typeFqn, kind, name, paramTypes));
      var i, j :| 0 <= i < j < |members| && members[i].name == name && Matches(members[i], paramTypes)
                  && members[j].name == name && Matches(members[j], paramTypes);
      BothMatch(members[i], members[j], paramTypes);
      assert Confused(members[i], members[j], name);
    }
    if i, j :| 0 <= i < j < |members| && Confused(members[i], members[j], name) {
      var m := members[i];
      var paramTypes := seq(|m.params|, k requires 0 <= k < |m.params| => Erased(m.params[k]).value);
      assert Requested(paramTypes) == TextErasures(m);
      MatchesIff(m, paramTypes);
      MatchesIff(members[j], paramTypes);
      SeveralIffTwoMatch(members, Locator(typeFqn, kind, name, paramTypes));
      assert Select(members, Locator(typeFqn, kind, name, paramTypes)).Several?;
    }
  }

  // ------------------------------------------------------------------ the compiler's rule

  /** The declared parameter types of a method; a parameter may still be unresolved. */
  predicate Declares(m: MethodDecl, types: seq<JavaType>) {
    && |types| == |m.params|
    && forall k | 0 <= k < |types| ::
         IsType(types[k]) && (m.params[k].described.Some? ==> m.params[k].described.value == Described(types[k]))
  }

  function TrueErasures(types: seq<JavaType>): seq<string> {
    seq(|types|, k requires 0 <= k < |types| => TrueErasure(types[k]))
  }

  /** What the compiler accepts: no two methods of a name have the same erased parameter types. */
  ghost predicate CompilerAccepts(members: seq<MethodDecl>, typesOf: MethodDecl -> seq<JavaType>) {
    && (forall m | m in members :: Declares(m, typesOf(m)))
    && (forall i, j | 0 <= i < j < |members| && members[i].name == members[j].name ::
          TrueErasures(typesOf(members[i])) != TrueErasures(typesOf(members[j])))
  }

  lemma ConfusedAreInexact(m: MethodDecl, n: MethodDecl, types: seq<JavaType>, others: seq<JavaType>, name: string)
    requires Declares(m, types) && Declares(n, others) && Confused(m, n, name)
    requires (forall t | t in types :: ErasesExactly(t)) && (forall t | t in others :: ErasesExactly(t))
    ensures TrueErasures(types) == TrueErasures(others)
  {
    assert |types| == |TextErasures(m)| == |TextErasures(n)| == |others|;
    forall k | 0 <= k < |types| ensures TrueErasure(types[k]) == TrueErasure(others[k]) {
      TextErasureIsTrueIff(types[k]);
      TextErasureIsTrueIff(others[k]);
      assert types[k] in types && others[k] in others;
      assert TextErasures(m)[k] == TextErasures(n)[k];
    }
  }

  /** In a class that compiles, no request matches several overloads if the types of the methods of that
      name are not of variable arity, have no type arguments inside arrays, and are no variables. */
  lemma OverloadsAreUnique(members: seq<MethodDecl>, typesOf: MethodDecl -> seq<JavaType>, loc: Locator)
    requires CompilerAccepts(members, typesOf)
    requires forall m, t | m in members && m.name == loc.memberName && t in typesOf(m) :: ErasesExactly(t)
    ensures !Select(members, loc).Several?
  {
    if Select(members, loc).Several? {
      SeveralIsReachableIff(members, loc.typeFqn, loc.memberKind, loc.memberName);
      assert loc == Locator(loc.typeFqn, loc.memberKind, loc.memberName, loc.paramTypes);
      var i, j :| 0 <= i < j < |members| && Confused(members[i], members[j], loc.memberName);
      ConfusedAreInexact(members[i], members[j], typesOf(members[i]), typesOf(members[j]), loc.memberName);
    }
  }

  function Overload(name: string, t: JavaType, begin: nat): MethodDecl {
    MethodDecl(name, [Param("x", Some(Described(t)), "")], begin, None)
  }

  lemma {:induction false} AtMostAll<T(!new)>(p: T -> bool, s: seq<T>)
    ensures |Filter(p, s)| <= |s|
  {
    if s != [] {
      AtMostAll(p, s[..|s| - 1]);
    }
  }

  /** Two methods that differ in the one parameter's type only, and only for the compiler. */
  predicate Twins(t: JavaType, u: JavaType, erased: string) {
    IsType(t) && IsType(u) && EraseGenerics(Described(t)) == EraseGenerics(Described(u)) == erased &&
      TrueErasure(t) != TrueErasure(u)
  }

  lemma TwinsCompile(name: string, t: JavaType, u: JavaType, erased: string)
    requires Twins(t, u, erased)
    ensures CompilerAccepts([Overload(name, t, 0), Overload(name, u, 1)],
      (m: MethodDecl) => if m.declBegin == 0 then [t] else [u])
  {
    assert TrueErasures([t])[0] != TrueErasures([u])[0];
  }

  lemma TwinsAreBothMatched(name: string, t: JavaType, u: JavaType, erased: string)
    requires Twins(t, u, erased)
    ensures Select([Overload(name, t, 0), Overload(name, u, 1)], Locator("A", "method", name, [erased])) == Several(2)
  {
    var members := [Overload(name, t, 0), Overload(name, u, 1)];
    var loc := Locator("A", "method", name, [erased]);
    assert Matches(members[0], loc.paramTypes) && Matches(members[1], loc.paramTypes);
    SeveralIffTwoMatch(members, loc);
    AtMostAll((m: MethodDecl) => m.name == name, members);
    AtMostAll((m: MethodDecl) => Matches(m, loc.paramTypes), Candidates(members, name));
  }

  predicate IsClassName(c: string) {
    '<' !in c && '[' !in c
  }

  /** Otherwise a class that compiles can have two: a method on lists of strings and one on arrays of
      them are both matched by the request for a list, and so with any generic class. */
  lemma SeveralOverloadsOfACompiledClass(name: string, c: string, arguments: string)
    requires IsClassName(c)
    ensures
      var one, many := JavaType(Applied(c, arguments), 0, false), JavaType(Applied(c, arguments), 1, false);
      var members := [Overload(name, one, 0), Overload(name, many, 1)];
      && CompilerAccepts(members, (m: MethodDecl) => if m.declBegin == 0 then [one] else [many])
      && Select(members, Locator("A", "method", name, [c])) == Several(2)
  {
    var one, many := JavaType(Applied(c, arguments), 0, false), JavaType(Applied(c, arguments), 1, false);
    EraseGenericsIs(c, arguments + ">" + Brackets(0));
    EraseGenericsIs(c, arguments + ">" + Brackets(1));
    BracketsAre(0);
    BracketsAre(1);
    TwinsCompile(name, one, many, c);
    TwinsAreBothMatched(name, one, many, c);
  }

  /** So are a method on one element and one on any number of them, `m(String)` and `m(String...)`. */
  lemma VariableArityOverloadsOfACompiledClass(name: string, c: string)
    requires IsClassName(c)
    ensures
      var one, any := JavaType(Plain(c), 0, false), JavaType(Plain(c), 0, true);
      var members := [Overload(name, one, 0), Overload(name, any, 1)];
      && CompilerAccepts(members, (m: MethodDecl) => if m.declBegin == 0 then [one] else [any])
      && Select(members, Locator("A", "method", name, [c])) == Several(2)
  {
    var one, any := JavaType(Plain(c), 0, false), JavaType(Plain(c), 0, true);
    assert Described(one) == Described(any) == c;
    EraseGenericsIs(c, "");
    TwinsCompile(name, one, any, c);
    TwinsAreBothMatched(name, one, any, c);
  }
}
