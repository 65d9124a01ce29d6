/**
  The static Python encoder (scanners/language/python/ast-helper.py): expressions become facts, cut
  off below a nesting of 12.
 */
module PythonAst {
  import opened Prelude

  // ------------------------------------------------------------------ expressions and facts

  datatype Float = Finite(r: real) | NaN | Infinity | NegativeInfinity

  datatype Const =
    NoneConst | BoolConst(b: bool) | StrConst(s: string) | IntConst(i: int) | FloatConst(f: Float)
    | OtherConst(typeName: string)

  datatype Container = ListOf | TupleOf | SetOf

  datatype Entry = Entry(key: Option<Expr>, value: Expr)

  datatype Keyword = Keyword(name: Option<string>, value: Expr)

  datatype Expr =
    | Constant(c: Const)
    | Name(id: string)
    | Attribute(value: Expr, attr: string)
    | Elements(container: Container, elts: seq<Expr>)
    | Dict(entries: seq<Entry>)
    | Call(func: Expr, args: seq<Expr>, keywords: seq<Keyword>)
    | Subscript(value: Expr, slice: Expr)
    | BinOp(op: string, left: Expr, right: Expr)
    | UnaryOp(op: string, operand: Expr)
    | OtherExpr(typeName: string)

  /** What one fact says by itself; the facts inside it are its children, in the order they are printed. */
  datatype Label =
    | Missing
    | DepthLimit(node: string)
    | Unknown(node: string)
    | Plain(c: Const)
    | BigInteger(decimal: string)
    | SpecialFloat(text: string)
    | Symbol(name: string)
    | Sequence(container: Container)
    | Mapping
    | CallOf(args: nat, keywords: seq<Option<string>>)
    | SubscriptOf
    | BitOr

  datatype Fact = Fact(head: Label, children: seq<Fact>)

  function TypeName(e: Expr): string {
    match e
    case Constant(_) => "Constant"
    case Name(_) => "Name"
    case Attribute(_, _) => "Attribute"
    case Elements(ListOf, _) => "List"
    case Elements(TupleOf, _) => "Tuple"
    case Elements(SetOf, _) => "Set"
    case Dict(_) => "Dict"
    case Call(_, _, _) => "Call"
    case Subscript(_, _) => "Subscript"
    case BinOp(_, _, _) => "BinOp"
    case UnaryOp(_, _) => "UnaryOp"
    case OtherExpr(typeName) => typeName
  }

  /** A dotted name; blank stands for "not a name". */
  function SymbolName(e: Expr): string {
    match e
    case Name(id) => id
    case Attribute(value, attr) => if SymbolName(value) != "" then SymbolName(value) + "." + attr else ""
    case _ => ""
  }

  const JS_SAFE_INTEGER: int := 0x1F_FFFF_FFFF_FFFF

  function IntText(i: int): string {
    if i < 0 then "-" + Decimal(-i) else Decimal(i)
  }

  function ScalarLabel(c: Const): Label {
    match c
    case IntConst(i) => if -JS_SAFE_INTEGER <= i <= JS_SAFE_INTEGER then Plain(c) else BigInteger(IntText(i))
    case FloatConst(NaN) => SpecialFloat("NaN")
    case FloatConst(Infinity) => SpecialFloat("Infinity")
    case FloatConst(NegativeInfinity) => SpecialFloat("-Infinity")
    case OtherConst(typeName) => Unknown(typeName)
    case _ => Plain(c)
  }

  function Negated(c: Const): Const {
    match c
    case IntConst(i) => IntConst(-i)
    case FloatConst(Finite(r)) => FloatConst(Finite(0.0 - r))
    case FloatConst(Infinity) => FloatConst(NegativeInfinity)
    case FloatConst(NegativeInfinity) => FloatConst(Infinity)
    case _ => c
  }

  /** A signed number literal. */
  predicate IsSignedNumber(op: string, operand: Expr) {
    op in ["UAdd", "USub"] && operand.Constant? && (operand.c.IntConst? || operand.c.FloatConst?)
  }

  function LabelOf(e: Expr): Label {
    if e.Constant? then ScalarLabel(e.c)
    else if SymbolName(e) != "" then Symbol(SymbolName(e))
    else match e
      case Elements(container, _) => Sequence(container)
      case Dict(_) => Mapping
      case Call(_, args, keywords) => CallOf(|args|,
        seq(|keywords|, i requires 0 <= i < |keywords| => keywords[i].name))
      case Subscript(_, _) => SubscriptOf
      case BinOp(op, _, _) => if op == "BitOr" then BitOr else Unknown(TypeName(e))
      case UnaryOp(op, operand) =>
        if IsSignedNumber(op, operand) then ScalarLabel(if op == "USub" then Negated(operand.c) else operand.c)
        else Unknown(TypeName(e))
      case _ => Unknown(TypeName(e))
  }

  function EntryParts(entries: seq<Entry>): seq<Option<Expr>> {
    if entries == [] then [] else [entries[0].key, Some(entries[0].value)] + EntryParts(entries[1..])
  }

  function Present(elts: seq<Expr>): seq<Option<Expr>> {
    seq(|elts|, i requires 0 <= i < |elts| => Some(elts[i]))
  }

  function KeywordParts(keywords: seq<Keyword>): seq<Option<Expr>> {
    seq(|keywords|, i requires 0 <= i < |keywords| => Some(keywords[i].value))
  }

  /** The sub-expressions that are encoded inside the fact of `e`. */
  function Parts(e: Expr): seq<Option<Expr>> {
    if e.Constant? || SymbolName(e) != "" then []
    else match e
      case Elements(_, elts) => Present(elts)
      case Dict(entries) => EntryParts(entries)
      case Call(func, args, keywords) => [Some(func)] + Present(args) + KeywordParts(keywords)
      case Subscript(value, slice) => [Some(value), Some(slice)]
      case BinOp(op, left, right) => if op == "BitOr" then [Some(left), Some(right)] else []
      case _ => []
  }

  lemma {:induction false} EntryPartsAreSmaller(e: Expr, entries: seq<Entry>)
    requires forall i | 0 <= i < |entries| :: entries[i] < e
    ensures forall i | 0 <= i < |EntryParts(entries)| && EntryParts(entries)[i].Some? ::
      EntryParts(entries)[i].value < e
  {
    if entries != [] {
      EntryPartsAreSmaller(e, entries[1..]);
    }
  }

  lemma PartsAreSmaller(e: Expr)
    ensures forall i | 0 <= i < |Parts(e)| && Parts(e)[i].Some? :: Parts(e)[i].value < e
  {
    if e.Dict? {
      EntryPartsAreSmaller(e, e.entries);
    }
  }

  // ------------------------------------------------------------------ the encoder and its reference

  const DEPTH_LIMIT: nat := 12

  function Leaf(head: Label): Fact {
    Fact(head, [])
  }

  /** What the helper encodes for a present node. */
  function Encode(e: Expr, depth: nat): Fact
    decreases e
  {
    if depth > DEPTH_LIMIT then Leaf(DepthLimit(TypeName(e)))
    else
      PartsAreSmaller(e);
      Fact(LabelOf(e), seq(|Parts(e)|, i requires 0 <= i < |Parts(e)| =>
        if Parts(e)[i].None? then Leaf(Missing) else Encode(Parts(e)[i].value, depth + 1)))
  }

  function Value(node: Option<Expr>, depth: nat): Fact {
    if node.None? then Leaf(Missing) else Encode(node.value, depth)
  }

  /** The same encoding without a limit: the reference. */
  function Unlimited(e: Expr): Fact
    decreases e
  {
    PartsAreSmaller(e);
    Fact(LabelOf(e), seq(|Parts(e)|, i requires 0 <= i < |Parts(e)| =>
      if Parts(e)[i].None? then Leaf(Missing) else Unlimited(Parts(e)[i].value)))
  }

  function Full(node: Option<Expr>): Fact {
    if node.None? then Leaf(Missing) else Unlimited(node.value)
  }

  /** The fact at a path of child positions. */
  function At(f: Fact, path: seq<nat>): Option<Fact>
    decreases |path|
  {
    if path == [] then Some(f)
    else if path[0] < |f.children| then At(f.children[path[0]], path[1..])
    else None
  }

  /** The expression slot at a path; None when the path leads nowhere, Some(None) when the slot is empty. */
  function SlotAt(node: Option<Expr>, path: seq<nat>): Option<Option<Expr>>
    decreases |path|
  {
    if path == [] then Some(node)
    else if node.Some? && path[0] < |Parts(node.value)| then SlotAt(Parts(node.value)[path[0]], path[1..])
    else None
  }

  /** `a` and `b` agree on everything but what lies inside their children. */
  predicate SameHead(a: Option<Fact>, b: Option<Fact>) {
    a.Some? == b.Some? && (a.Some? ==> a.value.head == b.value.head && |a.value.children| == |b.value.children|)
  }

  /** The reference has a fact exactly where the expression has a slot, and it is the fact of that slot. */
  lemma {:induction false} FullFollowsTheTree(node: Option<Expr>, path: seq<nat>)
    ensures At(Full(node), path) == match SlotAt(node, path) case None => None case Some(slot) => Some(Full(slot))
    decreases |path|
  {
    if path != [] && node.Some? && path[0] < |Parts(node.value)| {
      FullFollowsTheTree(Parts(node.value)[path[0]], path[1..]);
    }
  }

  /** The encoder does too, down to the limit; one level below it a present slot is a depth-limit leaf. */
  lemma {:induction false} ValueFollowsTheTree(node: Option<Expr>, depth: nat, path: seq<nat>)
    requires depth <= DEPTH_LIMIT + 1
    ensures At(Value(node, depth), path) ==
            if depth + |path| > DEPTH_LIMIT + 1 then None
            else match SlotAt(node, path) case None => None case Some(slot) => Some(Value(slot, depth + |path|))
    decreases |path|
  {
    if path != [] && node.Some? && depth <= DEPTH_LIMIT && path[0] < |Parts(node.value)| {
      ValueFollowsTheTree(Parts(node.value)[path[0]], depth + 1, path[1..]);
    }
  }

  /**
    The limited encoding refines the full one: down to level 12 they have the same facts at the same
    places; a place at level 13 exists in both, where the limited one holds a leaf naming the node it
    cut (or still "missing" where there is none); below that it has nothing.
   */
  lemma EncodingRefinesFull(node: Option<Expr>, path: seq<nat>)
    ensures |path| <= DEPTH_LIMIT ==> SameHead(At(Value(node, 0), path), At(Full(node), path))
    ensures |path| == DEPTH_LIMIT + 1 ==>
              At(Value(node, 0), path) ==
              match SlotAt(node, path)
              case None => None
              case Some(None) => Some(Leaf(Missing))
              case Some(Some(e)) => Some(Leaf(DepthLimit(TypeName(e))))
    ensures |path| == DEPTH_LIMIT + 1 ==> At(Value(node, 0), path).Some? == At(Full(node), path).Some?
    ensures |path| > DEPTH_LIMIT + 1 ==> At(Value(node, 0), path) == None
  {
    FullFollowsTheTree(node, path);
    ValueFollowsTheTree(node, 0, path);
  }

  /** Everything encoded inside `e` lies within `budget` levels. */
  predicate Fits(e: Expr, budget: nat)
    decreases e
  {
    PartsAreSmaller(e);
    forall i | 0 <= i < |Parts(e)| && Parts(e)[i].Some? :: budget > 0 && Fits(Parts(e)[i].value, budget - 1)
  }

  lemma NoLabelIsALimit(e: Expr)
    ensures !LabelOf(e).DepthLimit?
  {
  }

  /** One slot of `e` is encoded alike iff it is empty or fits below the limit. */
  lemma {:induction false} SlotIsExact(e: Expr, depth: nat, i: nat)
    requires depth <= DEPTH_LIMIT && i < |Parts(e)|
    ensures Value(Parts(e)[i], depth + 1) == Full(Parts(e)[i]) <==>
            (Parts(e)[i].Some? ==> depth < DEPTH_LIMIT && Fits(Parts(e)[i].value, DEPTH_LIMIT - depth - 1))
    decreases e, 0
  {
    PartsAreSmaller(e);
    if Parts(e)[i].Some? {
      var part := Parts(e)[i].value;
      if depth < DEPTH_LIMIT {
        ShallowIsExact(part, depth + 1);
      } else {
        NoLabelIsALimit(part);
      }
    }
  }

  lemma SameFacts(a: Fact, b: Fact)
    requires a.head == b.head && |a.children| == |b.children|
    ensures a == b <==> forall i | 0 <= i < |a.children| :: a.children[i] == b.children[i]
  {
    if forall i | 0 <= i < |a.children| :: a.children[i] == b.children[i] {
      assert a.children == b.children;
    }
  }

  lemma {:induction false} ShallowIsExact(e: Expr, depth: nat)
    requires depth <= DEPTH_LIMIT
    ensures Encode(e, depth) == Unlimited(e) <==> Fits(e, DEPTH_LIMIT - depth)
    decreases e, 1
  {
    var limited, full := Encode(e, depth), Unlimited(e);
    forall i | 0 <= i < |Parts(e)|
      ensures limited.children[i] == full.children[i] <==>
              (Parts(e)[i].Some? ==> depth < DEPTH_LIMIT && Fits(Parts(e)[i].value, DEPTH_LIMIT - depth - 1))
    {
      SlotIsExact(e, depth, i);
      assert limited.children[i] == Value(Parts(e)[i], depth + 1) && full.children[i] == Full(Parts(e)[i]);
    }
    SameFacts(limited, full);
  }

  /** The limit is invisible exactly on trees with nothing below level 12. */
  lemma LimitIsInvisibleIffShallow(node: Option<Expr>)
    ensures Value(node, 0) == Full(node) <==> (node.Some? ==> Fits(node.value, DEPTH_LIMIT))
  {
    if node.Some? {
      ShallowIsExact(node.value, 0);
    }
  }

  // ------------------------------------------------------------------ form by form

  /** The facts of expressions one level down, in order. */
  predicate EncodesEach(facts: seq<Fact>, elts: seq<Expr>, depth: nat) {
    |facts| == |elts| && forall i | 0 <= i < |elts| :: facts[i] == Encode(elts[i], depth)
  }

  /** Lists, tuples and sets hold their elements in order. */
  lemma ElementsEncodeAs(container: Container, elts: seq<Expr>, depth: nat)
    requires depth <= 12
    ensures var f := Encode(Elements(container, elts), depth);
      f.head == Sequence(container) && EncodesEach(f.children, elts, depth + 1)
  {
  }

  lemma {:induction false} EntryPartsAt(entries: seq<Entry>, i: nat)
    requires i < |entries|
    ensures |EntryParts(entries)| == 2 * |entries|
    ensures EntryParts(entries)[2 * i] == entries[i].key && EntryParts(entries)[2 * i + 1] == Some(entries[i].value)
    decreases |entries|
  {
    if |entries| > 1 {
      EntryPartsAt(entries[1..], if i > 0 then i - 1 else 0);
    }
  }

  lemma ChildrenAre(e: Expr, depth: nat)
    requires depth <= 12
    ensures var f := Encode(e, depth);
      f.head == LabelOf(e) && |f.children| == |Parts(e)|
      && forall i | 0 <= i < |Parts(e)| :: f.children[i] == Value(Parts(e)[i], depth + 1)
  {
  }

  /** A dictionary holds key and value of each entry side by side; the key of a `**` entry is missing. */
  lemma DictEncodesAs(entries: seq<Entry>, depth: nat, i: nat)
    requires depth <= 12 && i < |entries|
    ensures var f := Encode(Dict(entries), depth);
      && f.head == Mapping && |f.children| == 2 * |entries|
      && f.children[2 * i] == (if entries[i].key.Some? then Encode(entries[i].key.value, depth + 1) else Leaf(Missing))
      && f.children[2 * i + 1] == Encode(entries[i].value, depth + 1)
  {
    EntryPartsAt(entries, i);
    ChildrenAre(Dict(entries), depth);
  }

  lemma CallParts(func: Expr, args: seq<Expr>, keywords: seq<Keyword>)
    ensures var parts := Parts(Call(func, args, keywords));
      && |parts| == 1 + |args| + |keywords| && parts[0] == Some(func)
      && (forall i | 0 <= i < |args| :: parts[1 + i] == Some(args[i]))
      && forall j | 0 <= j < |keywords| :: parts[1 + |args| + j] == Some(keywords[j].value)
  {
  }

  /** A call holds its function, its arguments and the values of its keywords, whose names are told besides. */
  lemma CallEncodesAs(func: Expr, args: seq<Expr>, keywords: seq<Keyword>, depth: nat)
    requires depth <= 12
    ensures var f := Encode(Call(func, args, keywords), depth);
      && f.head.CallOf? && f.head.args == |args| && |f.head.keywords| == |keywords|
      && (forall j | 0 <= j < |keywords| :: f.head.keywords[j] == keywords[j].name)
      && |f.children| == 1 + |args| + |keywords|
      && f.children[0] == Encode(func, depth + 1)
      && (forall i | 0 <= i < |args| :: f.children[1 + i] == Encode(args[i], depth + 1))
      && forall j | 0 <= j < |keywords| :: f.children[1 + |args| + j] == Encode(keywords[j].value, depth + 1)
  {
    CallParts(func, args, keywords);
    ChildrenAre(Call(func, args, keywords), depth);
  }

  /** A subscript holds base and index, a union of types its left and right side; any other operation holds
      nothing and is only named. */
  lemma OperatorsEncodeAs(left: Expr, right: Expr, op: string, depth: nat)
    requires depth <= 12
    ensures var f := Encode(Subscript(left, right), depth);
      f.head == SubscriptOf && EncodesEach(f.children, [left, right], depth + 1)
    ensures op == "BitOr" ==>
      var f := Encode(BinOp(op, left, right), depth);
      f.head == BitOr && EncodesEach(f.children, [left, right], depth + 1)
    ensures op != "BitOr" ==> Encode(BinOp(op, left, right), depth) == Leaf(Unknown("BinOp"))
  {
  }

  /** A constant holds nothing: text, truth values, None, finite floats and integers below 2^53 in size are kept
      as they are, other integers by their digits, other floats by name, and anything else by its type. */
  lemma ConstantsEncodeAs(c: Const, depth: nat)
    requires depth <= 12
    ensures var f := Encode(Constant(c), depth);
      match c
      case NoneConst | BoolConst(_) | StrConst(_) | FloatConst(Finite(_)) => f == Leaf(Plain(c))
      case FloatConst(NaN) => f == Leaf(SpecialFloat("NaN"))
      case FloatConst(Infinity) => f == Leaf(SpecialFloat("Infinity"))
      case FloatConst(NegativeInfinity) => f == Leaf(SpecialFloat("-Infinity"))
      case IntConst(i) =>
        if -9007199254740991 <= i <= 9007199254740991 then f == Leaf(Plain(c)) else f == Leaf(BigInteger(IntText(i)))
      case OtherConst(typeName) => f == Leaf(Unknown(typeName))
  {
  }

  /** An attribute of something that is no dotted name, any sign that stands before no number, and any other
      form are only named. */
  lemma OthersEncodeAs(value: Expr, attr: string, op: string, typeName: string, depth: nat)
    requires depth <= 12
    ensures SymbolName(value) == "" ==> Encode(Attribute(value, attr), depth) == Leaf(Unknown("Attribute"))
    ensures (op != "UAdd" && op != "USub") || !value.Constant? || !(value.c.IntConst? || value.c.FloatConst?) ==>
      Encode(UnaryOp(op, value), depth) == Leaf(Unknown("UnaryOp"))
    ensures Encode(OtherExpr(typeName), depth) == Leaf(Unknown(typeName))
  {
  }

  /** What lies too deep is named by its form. */
  lemma TooDeepIsNamed(e: Expr, depth: nat)
    requires depth > 12
    ensures var f := Encode(e, depth);
      f == Leaf(DepthLimit(match e
        case Constant(_) => "Constant" case Name(_) => "Name" case Attribute(_, _) => "Attribute"
        case Elements(ListOf, _) => "List" case Elements(TupleOf, _) => "Tuple" case Elements(SetOf, _) => "Set"
        case Dict(_) => "Dict" case Call(_, _, _) => "Call" case Subscript(_, _) => "Subscript"
        case BinOp(_, _, _) => "BinOp" case UnaryOp(_, _) => "UnaryOp" case OtherExpr(typeName) => typeName))
  {
  }

  // ------------------------------------------------------------------ dotted names

  function Chain(id: string, attrs: seq<string>): Expr {
    if attrs == [] then Name(id) else Attribute(Chain(id, attrs[..|attrs| - 1]), attrs[|attrs| - 1])
  }

  function Dotted(id: string, attrs: seq<string>): string
    decreases |attrs|
  {
    if attrs == [] then id else id + "." + Dotted(attrs[0], attrs[1..])
  }

  lemma {:induction false} DottedGrowsAtTheEnd(id: string, attrs: seq<string>, last: string)
    ensures Dotted(id, attrs + [last]) == Dotted(id, attrs) + "." + last
    decreases |attrs|
  {
    if attrs == [] {
      assert Dotted(last, []) == last && ([last])[1..] == [];
      assert attrs + [last] == [last];
    } else {
      DottedGrowsAtTheEnd(attrs[0], attrs[1..], last);
      assert (attrs + [last])[1..] == attrs[1..] + [last];
      assert id + "." + (Dotted(attrs[0], attrs[1..]) + "." + last) ==
        id + "." + Dotted(attrs[0], attrs[1..]) + "." + last;
    }
  }

  lemma {:induction false} ChainIsOneName(id: string, attrs: seq<string>)
    requires id != ""
    ensures SymbolName(Chain(id, attrs)) == Dotted(id, attrs) != ""
    decreases |attrs|
  {
    if attrs != [] {
      var before, last := attrs[..|attrs| - 1], attrs[|attrs| - 1];
      ChainIsOneName(id, before);
      DottedGrowsAtTheEnd(id, before, last);
      assert before + [last] == attrs;
    }
  }

  /** However long, a dotted name is one symbol at any level the encoder still reaches. */
  lemma DottedNameIsOneSymbol(id: string, attrs: seq<string>, depth: nat)
    requires id != "" && depth <= DEPTH_LIMIT
    ensures Value(Some(Chain(id, attrs)), depth) == Leaf(Symbol(Dotted(id, attrs)))
  {
    ChainIsOneName(id, attrs);
  }

  lemma {:induction false} NameIsAChain(e: Expr) returns (id: string, attrs: seq<string>)
    requires SymbolName(e) != ""
    ensures id != "" && e == Chain(id, attrs)
  {
    match e
    case Name(name) => id, attrs := name, [];
    case Attribute(value, attr) =>
      id, attrs := NameIsAChain(value);
      assert (attrs + [attr])[..|attrs|] == attrs;
      attrs := attrs + [attr];
  }

  /** Nothing else is a symbol: the encoder's symbols are exactly the dotted names. */
  lemma SymbolsAreDottedNames(e: Expr, depth: nat)
    requires depth <= DEPTH_LIMIT
    ensures Value(Some(e), depth).head.Symbol? <==> exists id, attrs :: id != "" && e == Chain(id, attrs)
  {
    if SymbolName(e) != "" {
      var id, attrs := NameIsAChain(e);
    }
    forall id, attrs | id != "" && e == Chain(id, attrs)
      ensures Value(Some(e), depth).head.Symbol?
    {
      DottedNameIsOneSymbol(id, attrs, depth);
    }
  }

  // ------------------------------------------------------------------ numbers

  /** The number a numeral with an optional minus sign denotes. */
  function IntDenoted(text: string): int {
    if text != "" && text[0] == '-' then -DecimalValue(text[1..]) else DecimalValue(text)
  }

  /** An integer is a plain constant iff a JavaScript number holds it exactly; else its digits denote it. */
  lemma IntegersSurvive(i: int)
    ensures ScalarLabel(IntConst(i)).Plain? <==> -JS_SAFE_INTEGER <= i <= JS_SAFE_INTEGER
    ensures match ScalarLabel(IntConst(i))
            case Plain(c) => c == IntConst(i)
            case BigInteger(text) => IntDenoted(text) == i
            case _ => false
  {
    if i < 0 {
      DecimalRoundTrip(-i);
      assert IntText(i)[1..] == Decimal(-i);
    } else {
      DecimalRoundTrip(i);
      assert Decimal(i)[0] in Decimal(i);
    }
  }

  /** A signed literal is encoded as the constant it denotes: `-n` like the integer -n, `+n` like n. */
  lemma SignedLiteral(i: int, depth: nat)
    requires depth <= DEPTH_LIMIT
    ensures Value(Some(UnaryOp("USub", Constant(IntConst(i)))), depth) == Value(Some(Constant(IntConst(-i))), depth)
    ensures Value(Some(UnaryOp("UAdd", Constant(IntConst(i)))), depth) == Value(Some(Constant(IntConst(i))), depth)
    ensures Value(Some(UnaryOp("USub", Constant(BoolConst(true)))), depth) == Leaf(Unknown("UnaryOp"))
  {
    assert IsSignedNumber("USub", Constant(IntConst(i))) && IsSignedNumber("UAdd", Constant(IntConst(i)));
  }

  /** So is a signed float: the sign of a finite one or of an infinity is turned, and there is but one NaN. */
  lemma SignedFloat(f: Float, depth: nat)
    requires depth <= DEPTH_LIMIT
    ensures Value(Some(UnaryOp("UAdd", Constant(FloatConst(f)))), depth) == Value(Some(Constant(FloatConst(f))), depth)
    ensures Value(Some(UnaryOp("USub", Constant(FloatConst(f)))), depth) ==
      Value(Some(Constant(FloatConst(match f
        case Finite(r) => Finite(0.0 - r)
        case NaN => NaN
        case Infinity => NegativeInfinity
        case NegativeInfinity => Infinity))), depth)
  {
    assert IsSignedNumber("USub", Constant(FloatConst(f))) && IsSignedNumber("UAdd", Constant(FloatConst(f)));
  }
}
