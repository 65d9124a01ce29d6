/**
  The argument list of a Python function as the static helper records it
  (scanners/language/python/ast-helper.py, `function`): one flat list of tagged arguments, with the
  defaults of positional parameters aligned from the right.
 */
module PythonSignature {
  import opened Prelude
  import opened PythonAst

  datatype Parameter<E> = Parameter(name: string, annotation: Option<E>)

  /** `ast.arguments`: positional defaults belong to the last parameters, keyword defaults to each in turn. */
  datatype Signature<E> = Signature(
    posonly: seq<Parameter<E>>, args: seq<Parameter<E>>, defaults: seq<E>, vararg: Option<Parameter<E>>,
    kwonly: seq<Parameter<E>>, kwDefaults: seq<Option<E>>, kwarg: Option<Parameter<E>>)

  datatype Role = PositionalOnly | Positional | VarArg | KeywordOnly | KwArg

  datatype Argument<E> = Argument(parameter: Parameter<E>, default: Option<E>, role: Role)

  function Min(a: nat, b: nat): nat {
    if a < b then a else b
  }

  /** Pairs up to the shorter list, as `zip` does. */
  function Pair<E>(parameters: seq<Parameter<E>>, defaults: seq<Option<E>>, role: Role): seq<Argument<E>> {
    if parameters == [] || defaults == [] then []
    else [Argument(parameters[0], defaults[0], role)] + Pair(parameters[1..], defaults[1..], role)
  }

  function Somes<E>(all: seq<E>): seq<Option<E>> {
    seq(|all|, i requires 0 <= i < |all| => Some(all[i]))
  }

  function Padded<E>(sig: Signature<E>): (pad: seq<Option<E>>)
    ensures |pad| >= |sig.posonly| + |sig.args|
  {
    var n, d := |sig.posonly| + |sig.args|, |sig.defaults|;
    seq(if d < n then n - d else 0, i => None) + Somes(sig.defaults)
  }

  function Lone<E>(p: Option<Parameter<E>>, role: Role): seq<Argument<E>> {
    if p.Some? then [Argument(p.value, None, role)] else []
  }

  /** The arguments of one role. */
  function Stretch<E>(sig: Signature<E>, role: Role): seq<Argument<E>> {
    match role
    case PositionalOnly => Pair(sig.posonly, Padded(sig)[..|sig.posonly|], PositionalOnly)
    case Positional => Pair(sig.args, Padded(sig)[|sig.posonly|..], Positional)
    case VarArg => Lone(sig.vararg, VarArg)
    case KeywordOnly => Pair(sig.kwonly, sig.kwDefaults, KeywordOnly)
    case KwArg => Lone(sig.kwarg, KwArg)
  }

  function Arguments<E>(sig: Signature<E>): seq<Argument<E>> {
    Stretch(sig, PositionalOnly) + Stretch(sig, Positional) + Stretch(sig, VarArg) + Stretch(sig, KeywordOnly) +
      Stretch(sig, KwArg)
  }

  lemma {:induction false} PairLength<E>(parameters: seq<Parameter<E>>, defaults: seq<Option<E>>, role: Role)
    ensures |Pair(parameters, defaults, role)| == Min(|parameters|, |defaults|)
  {
    if parameters != [] && defaults != [] {
      PairLength(parameters[1..], defaults[1..], role);
    }
  }

  lemma {:induction false} PairAt<E>(parameters: seq<Parameter<E>>, defaults: seq<Option<E>>, role: Role, i: nat)
    requires i < |parameters| && i < |defaults|
    ensures i < |Pair(parameters, defaults, role)|
    ensures Pair(parameters, defaults, role)[i] == Argument(parameters[i], defaults[i], role)
  {
    if i > 0 {
      PairAt(parameters[1..], defaults[1..], role, i - 1);
    }
  }

  // ------------------------------------------------------------------ reading the list back

  function OfRole<E>(args: seq<Argument<E>>, role: Role): seq<Argument<E>> {
    if args == [] then [] else (if args[0].role == role then [args[0]] else []) + OfRole(args[1..], role)
  }

  function Parameters<E>(args: seq<Argument<E>>): seq<Parameter<E>> {
    seq(|args|, i requires 0 <= i < |args| => args[i].parameter)
  }

  function Defaults<E>(args: seq<Argument<E>>): seq<Option<E>> {
    seq(|args|, i requires 0 <= i < |args| => args[i].default)
  }

  function Given<E>(defaults: seq<Option<E>>): seq<E> {
    if defaults == [] then []
    else (if defaults[0].Some? then [defaults[0].value] else []) + Given(defaults[1..])
  }

  function First<E>(ps: seq<Parameter<E>>): Option<Parameter<E>> {
    if ps == [] then None else Some(ps[0])
  }

  /** The signature a reader reconstructs from the list. */
  function Recover<E>(args: seq<Argument<E>>): Signature<E> {
    Signature(
      Parameters(OfRole(args, PositionalOnly)),
      Parameters(OfRole(args, Positional)),
      Given(Defaults(OfRole(args, PositionalOnly)) + Defaults(OfRole(args, Positional))),
      First(Parameters(OfRole(args, VarArg))),
      Parameters(OfRole(args, KeywordOnly)),
      Defaults(OfRole(args, KeywordOnly)),
      First(Parameters(OfRole(args, KwArg))))
  }

  predicate AllOf<E>(args: seq<Argument<E>>, role: Role) {
    forall i | 0 <= i < |args| :: args[i].role == role
  }

  lemma {:induction false} PairIsAllOf<E>(parameters: seq<Parameter<E>>, defaults: seq<Option<E>>, role: Role)
    ensures var n := Min(|parameters|, |defaults|);
            var args := Pair(parameters, defaults, role);
            AllOf(args, role) && Parameters(args) == parameters[..n] && Defaults(args) == defaults[..n]
  {
    if parameters != [] && defaults != [] {
      PairIsAllOf(parameters[1..], defaults[1..], role);
    }
  }

  lemma {:induction false} OfRoleJoin<E>(a: seq<Argument<E>>, b: seq<Argument<E>>, role: Role)
    ensures OfRole(a + b, role) == OfRole(a, role) + OfRole(b, role)
    decreases |a|
  {
    if a == [] {
      assert a + b == b;
    } else {
      var own := if a[0].role == role then [a[0]] else [];
      OfRoleJoin(a[1..], b, role);
      assert (a + b)[0] == a[0] && (a + b)[1..] == a[1..] + b;
      assert OfRole(a + b, role) == own + (OfRole(a[1..], role) + OfRole(b, role));
    }
  }

  lemma {:induction false} OfOneRole<E>(args: seq<Argument<E>>, own: Role, role: Role)
    requires AllOf(args, own)
    ensures OfRole(args, role) == if own == role then args else []
  {
    if args != [] {
      OfOneRole(args[1..], own, role);
    }
  }

  lemma OfRoleOfFive<E>(
    a: seq<Argument<E>>, b: seq<Argument<E>>, c: seq<Argument<E>>, d: seq<Argument<E>>, e: seq<Argument<E>>, role: Role)
    ensures OfRole(a + b + c + d + e, role) ==
      OfRole(a, role) + OfRole(b, role) + OfRole(c, role) + OfRole(d, role) + OfRole(e, role)
  {
    OfRoleJoin(a + b + c + d, e, role);
    OfRoleJoin(a + b + c, d, role);
    OfRoleJoin(a + b, c, role);
    OfRoleJoin(a, b, role);
  }

  lemma OnlyOne<E>(
    own: Role, s: seq<Argument<E>>, a: seq<Argument<E>>, b: seq<Argument<E>>, c: seq<Argument<E>>, d: seq<Argument<E>>,
    e: seq<Argument<E>>)
    requires a == (if own.PositionalOnly? then s else []) && b == (if own.Positional? then s else [])
    requires c == (if own.VarArg? then s else []) && d == (if own.KeywordOnly? then s else []) &&
      e == (if own.KwArg? then s else [])
    ensures a + b + c + d + e == s
  {
  }

  lemma StretchHasOneRole<E>(sig: Signature<E>, own: Role, role: Role)
    ensures OfRole(Stretch(sig, own), role) == if own == role then Stretch(sig, own) else []
  {
    var cut := |sig.posonly|;
    PairIsAllOf(sig.posonly, Padded(sig)[..cut], PositionalOnly);
    PairIsAllOf(sig.args, Padded(sig)[cut..], Positional);
    PairIsAllOf(sig.kwonly, sig.kwDefaults, KeywordOnly);
    OfOneRole(Stretch(sig, own), own, role);
  }

  lemma Reassembled<E>(
    own: Role, s: seq<Argument<E>>, a: seq<Argument<E>>, b: seq<Argument<E>>, c: seq<Argument<E>>, d: seq<Argument<E>>,
    e: seq<Argument<E>>)
    requires OfRole(a, own) == (if own.PositionalOnly? then s else []) &&
      OfRole(b, own) == (if own.Positional? then s else [])
    requires OfRole(c, own) == (if own.VarArg? then s else []) && OfRole(d, own) == (if own.KeywordOnly? then s else [])
    requires OfRole(e, own) == (if own.KwArg? then s else [])
    ensures OfRole(a + b + c + d + e, own) == s
  {
    OfRoleOfFive(a, b, c, d, e, own);
    OnlyOne(own, s, OfRole(a, own), OfRole(b, own), OfRole(c, own), OfRole(d, own), OfRole(e, own));
  }

  /** Filtering the flat list by a role gives the stretch of that role. */
  lemma ReadsStretch<E>(sig: Signature<E>, role: Role)
    ensures OfRole(Arguments(sig), role) == Stretch(sig, role)
  {
    StretchHasOneRole(sig, PositionalOnly, role);
    StretchHasOneRole(sig, Positional, role);
    StretchHasOneRole(sig, VarArg, role);
    StretchHasOneRole(sig, KeywordOnly, role);
    StretchHasOneRole(sig, KwArg, role);
    Reassembled(role, Stretch(sig, role), Stretch(sig, PositionalOnly), Stretch(sig, Positional), Stretch(sig, VarArg),
                Stretch(sig, KeywordOnly), Stretch(sig, KwArg));
  }

  lemma {:induction false} GivenOfPadded<E>(n: nat, defaults: seq<E>)
    ensures Given(seq(n, i => None) + Somes(defaults)) == defaults
    decreases n, |defaults|
  {
    var all := seq(n, i => None) + Somes(defaults);
    if n > 0 {
      GivenOfPadded(n - 1, defaults);
      assert all[1..] == seq(n - 1, i => None) + Somes(defaults);
    } else if defaults != [] {
      GivenOfPadded(0, defaults[1..]);
      assert all[1..] == seq(0, i => None) + Somes(defaults[1..]);
    }
  }

  lemma {:induction false} GivenIsShorter<E>(defaults: seq<Option<E>>)
    ensures |Given(defaults)| <= |defaults|
  {
    if defaults != [] {
      GivenIsShorter(defaults[1..]);
    }
  }

  /** What the parser guarantees: no more positional defaults than parameters, one keyword default slot each. */
  predicate Aligned<E>(sig: Signature<E>) {
    |sig.defaults| <= |sig.posonly| + |sig.args| && |sig.kwDefaults| == |sig.kwonly|
  }

  lemma StretchParts<E>(sig: Signature<E>)
    ensures Parameters(Stretch(sig, PositionalOnly)) == sig.posonly
    ensures Parameters(Stretch(sig, Positional)) == sig.args
    ensures Defaults(Stretch(sig, PositionalOnly)) + Defaults(Stretch(sig, Positional)) ==
      Padded(sig)[..|sig.posonly| + |sig.args|]
    ensures var k := Min(|sig.kwonly|, |sig.kwDefaults|);
            && Parameters(Stretch(sig, KeywordOnly)) == sig.kwonly[..k]
            && Defaults(Stretch(sig, KeywordOnly)) == sig.kwDefaults[..k]
    ensures First(Parameters(Stretch(sig, VarArg))) == sig.vararg && First(Parameters(Stretch(sig, KwArg))) == sig.kwarg
  {
    var cut := |sig.posonly|;
    PairIsAllOf(sig.posonly, Padded(sig)[..cut], PositionalOnly);
    PairIsAllOf(sig.args, Padded(sig)[cut..], Positional);
    PairIsAllOf(sig.kwonly, sig.kwDefaults, KeywordOnly);
  }

  /** What a reader gets back from any signature: keyword-only lists cut to what was zipped. */
  lemma RecoverAny<E>(sig: Signature<E>)
    ensures var k := Min(|sig.kwonly|, |sig.kwDefaults|);
            Recover(Arguments(sig)) ==
            Signature(sig.posonly, sig.args, Given(Padded(sig)[..|sig.posonly| + |sig.args|]), sig.vararg,
                      sig.kwonly[..k], sig.kwDefaults[..k], sig.kwarg)
  {
    forall role ensures OfRole(Arguments(sig), role) == Stretch(sig, role) {
      ReadsStretch(sig, role);
    }
    StretchParts(sig);
  }

  /** The flat list loses nothing: every part of the signature can be read back from it, exactly for
      the signatures the parser can produce. */
  lemma ArgumentsReadBackIff<E>(sig: Signature<E>)
    ensures Recover(Arguments(sig)) == sig <==> Aligned(sig)
  {
    var n, pad := |sig.posonly| + |sig.args|, Padded(sig);
    RecoverAny(sig);
    GivenIsShorter(pad[..n]);
    if Aligned(sig) {
      assert pad[..n] == pad;
      GivenOfPadded(n - |sig.defaults|, sig.defaults);
    }
  }

  // ------------------------------------------------------------------ what is recorded

  /** One argument as it is written out: annotation and default are encoded, absent ones as missing. */
  datatype Record = Record(name: string, role: Role, annotation: Fact, default: Fact)

  function Recorded(a: Argument<Expr>): Record {
    Record(a.parameter.name, a.role, Value(a.parameter.annotation, 0), Value(a.default, 0))
  }

  function Records(args: seq<Argument<Expr>>): seq<Record> {
    seq(|args|, i requires 0 <= i < |args| => Recorded(args[i]))
  }

  lemma RecordsJoin(a: seq<Argument<Expr>>, b: seq<Argument<Expr>>)
    ensures Records(a + b) == Records(a) + Records(b)
  {
  }

  lemma RecordsStep(args: seq<Argument<Expr>>, i: nat)
    requires i < |args|
    ensures Records(args[..i + 1]) == Records(args[..i]) + [Recorded(args[i])]
  {
  }

  lemma PositionalCount<E>(sig: Signature<E>)
    ensures |Stretch(sig, PositionalOnly) + Stretch(sig, Positional)| == |sig.posonly| + |sig.args|
  {
    PairLength(sig.posonly, Padded(sig)[..|sig.posonly|], PositionalOnly);
    PairLength(sig.args, Padded(sig)[|sig.posonly|..], Positional);
  }

  /** The positional arguments in their order, by the position in both lists together. */
  lemma PositionalAt<E>(sig: Signature<E>, i: nat)
    requires i < |sig.posonly| + |sig.args|
    ensures var all := Stretch(sig, PositionalOnly) + Stretch(sig, Positional);
      i < |all| && all[i] == Argument((sig.posonly + sig.args)[i], Padded(sig)[i],
      if i < |sig.posonly| then PositionalOnly else Positional)
  {
    var pad, cut := Padded(sig), |sig.posonly|;
    PairLength(sig.posonly, pad[..cut], PositionalOnly);
    PairLength(sig.args, pad[cut..], Positional);
    if i < cut {
      PairAt(sig.posonly, pad[..cut], PositionalOnly, i);
    } else {
      PairAt(sig.args, pad[cut..], Positional, i - cut);
    }
  }

  method Function(sig: Signature<Expr>) returns (args: seq<Record>)
    ensures args == Records(Arguments(sig))
  {
    var positional := sig.posonly + sig.args;
    var pad := Padded(sig);
    ghost var all := Stretch(sig, PositionalOnly) + Stretch(sig, Positional);
    args := [];
    var i := 0;
    PositionalCount(sig);
    while i < |positional| && i < |pad|
      invariant i <= |positional| && i <= |pad|
      invariant args == Records(all[..i])
    {
      PositionalAt(sig, i);
      RecordsStep(all, i);
      args := args + [Recorded(Argument(positional[i], pad[i],
        if i < |sig.posonly| then PositionalOnly else Positional))];
      i := i + 1;
    }
    assert all[..i] == all;
    ghost var zipped := Pair(sig.kwonly, sig.kwDefaults, KeywordOnly);
    RecordsJoin(all, Lone(sig.vararg, VarArg));
    RecordsJoin(all + Lone(sig.vararg, VarArg), zipped);
    RecordsJoin(all + Lone(sig.vararg, VarArg) + zipped, Lone(sig.kwarg, KwArg));
    args := args + Records(Lone(sig.vararg, VarArg)) + Records(Pair(sig.kwonly, sig.kwDefaults, KeywordOnly)) +
      Records(Lone(sig.kwarg, KwArg));
  }

  // ------------------------------------------------------------------ reading the records

  /** What a reader makes of a fact: the one for "missing" stands for nothing. */
  function Shown(f: Fact): Option<Fact> {
    if f == Leaf(Missing) then None else Some(f)
  }

  function Read(r: Record): Argument<Fact> {
    Argument(Parameter(r.name, Shown(r.annotation)), Shown(r.default), r.role)
  }

  function ReadAll(records: seq<Record>): seq<Argument<Fact>> {
    seq(|records|, i requires 0 <= i < |records| => Read(records[i]))
  }

  function EncodedOption(e: Option<Expr>): Option<Fact> {
    if e.None? then None else Some(Encode(e.value, 0))
  }

  function EncodedParameter(p: Parameter<Expr>): Parameter<Fact> {
    Parameter(p.name, EncodedOption(p.annotation))
  }

  function EncodedParameters(ps: seq<Parameter<Expr>>): seq<Parameter<Fact>> {
    seq(|ps|, i requires 0 <= i < |ps| => EncodedParameter(ps[i]))
  }

  function EncodedOptions(es: seq<Option<Expr>>): seq<Option<Fact>> {
    seq(|es|, i requires 0 <= i < |es| => EncodedOption(es[i]))
  }

  function EncodedLone(p: Option<Parameter<Expr>>): Option<Parameter<Fact>> {
    if p.None? then None else Some(EncodedParameter(p.value))
  }

  /** The signature with every expression in it encoded. */
  function Encoded(sig: Signature<Expr>): Signature<Fact> {
    Signature(
      EncodedParameters(sig.posonly), EncodedParameters(sig.args),
      seq(|sig.defaults|, i requires 0 <= i < |sig.defaults| => Encode(sig.defaults[i], 0)),
      EncodedLone(sig.vararg), EncodedParameters(sig.kwonly), EncodedOptions(sig.kwDefaults), EncodedLone(sig.kwarg))
  }

  /** No expression is encoded as a missing one. */
  lemma MissingIffAbsent(e: Option<Expr>)
    ensures Shown(Value(e, 0)) == EncodedOption(e)
  {
  }

  lemma ReadRecords(a: Argument<Expr>)
    ensures Read(Recorded(a)) == Argument(EncodedParameter(a.parameter), EncodedOption(a.default), a.role)
  {
    MissingIffAbsent(a.parameter.annotation);
    MissingIffAbsent(a.default);
  }

  lemma ReadPair(parameters: seq<Parameter<Expr>>, defaults: seq<Option<Expr>>, role: Role)
    ensures ReadAll(Records(Pair(parameters, defaults, role))) ==
      Pair(EncodedParameters(parameters), EncodedOptions(defaults), role)
  {
    var args, encoded := Pair(parameters, defaults, role),
      Pair(EncodedParameters(parameters), EncodedOptions(defaults), role);
    PairLength(parameters, defaults, role);
    PairLength(EncodedParameters(parameters), EncodedOptions(defaults), role);
    forall i | 0 <= i < |args| ensures ReadAll(Records(args))[i] == encoded[i] {
      PairAt(parameters, defaults, role, i);
      PairAt(EncodedParameters(parameters), EncodedOptions(defaults), role, i);
      ReadRecords(args[i]);
    }
  }

  lemma EncodedPads(sig: Signature<Expr>)
    ensures Padded(Encoded(sig)) == EncodedOptions(Padded(sig))
  {
  }

  lemma ReadLone(p: Option<Parameter<Expr>>, role: Role)
    ensures ReadAll(Records(Lone(p, role))) == Lone(EncodedLone(p), role)
  {
    if p.Some? {
      ReadRecords(Argument(p.value, None, role));
    }
  }

  lemma ReadStretch(sig: Signature<Expr>, role: Role)
    ensures ReadAll(Records(Stretch(sig, role))) == Stretch(Encoded(sig), role)
  {
    var cut, pad := |sig.posonly|, Padded(sig);
    EncodedPads(sig);
    match role
    case PositionalOnly =>
      ReadPair(sig.posonly, pad[..cut], role);
      assert EncodedOptions(pad[..cut]) == EncodedOptions(pad)[..cut];
    case Positional =>
      ReadPair(sig.args, pad[cut..], role);
      assert EncodedOptions(pad[cut..]) == EncodedOptions(pad)[cut..];
    case KeywordOnly => ReadPair(sig.kwonly, sig.kwDefaults, role);
    case VarArg => ReadLone(sig.vararg, role);
    case KwArg => ReadLone(sig.kwarg, role);
  }

  lemma ReadJoin(a: seq<Argument<Expr>>, b: seq<Argument<Expr>>)
    ensures ReadAll(Records(a + b)) == ReadAll(Records(a)) + ReadAll(Records(b))
  {
  }

  lemma ReadArguments(sig: Signature<Expr>)
    ensures ReadAll(Records(Arguments(sig))) == Arguments(Encoded(sig))
  {
    var a, b, c := Stretch(sig, PositionalOnly), Stretch(sig, Positional), Stretch(sig, VarArg);
    var d, e := Stretch(sig, KeywordOnly), Stretch(sig, KwArg);
    forall role ensures ReadAll(Records(Stretch(sig, role))) == Stretch(Encoded(sig), role) {
      ReadStretch(sig, role);
    }
    ReadJoin(a + b + c + d, e);
    ReadJoin(a + b + c, d);
    ReadJoin(a + b, c);
    ReadJoin(a, b);
  }

  /** From the records a reader gets back the signature with its annotations and defaults encoded: names,
      roles, which annotations and defaults are missing, and the facts of the others. This holds exactly for
      the signatures the parser can produce. */
  lemma SignatureReadsBackIff(sig: Signature<Expr>)
    ensures Recover(ReadAll(Records(Arguments(sig)))) == Encoded(sig) <==> Aligned(sig)
  {
    ReadArguments(sig);
    ArgumentsReadBackIff(Encoded(sig));
  }

  /** The d-th default from the right belongs to the d-th positional parameter from the right. */
  lemma DefaultsAlignRight(sig: Signature<Expr>, i: nat)
    requires Aligned(sig) && i < |sig.posonly| + |sig.args|
    ensures var n, p := |sig.posonly| + |sig.args|, (sig.posonly + sig.args)[i];
            && i < |Arguments(sig)|
            && Records(Arguments(sig))[i] == Record(
                 p.name, if i < |sig.posonly| then PositionalOnly else Positional, Value(p.annotation, 0),
                 if i < n - |sig.defaults| then Leaf(Missing) else Encode(sig.defaults[i - (n - |sig.defaults|)], 0))
  {
    var all := Stretch(sig, PositionalOnly) + Stretch(sig, Positional);
    PositionalAt(sig, i);
    assert Arguments(sig)[i] == all[i];
  }
}
