/**
  Path parameters of a route (contracts/emit.mjs, pathParamsSchema): the scan for `{name}`, `:name`
  and `:name(...)`, and the object schema built from the names.
 */
module RouteParams {
  import opened Prelude
  import opened JsonSchema

  const BARE_UUID_PATTERN: string :=
    "^[0-9a-fA-F]{8}-[0-9a-fA-F]{4}-[0-9a-fA-F]{4}-[0-9a-fA-F]{4}-[0-9a-fA-F]{12}$"

  // ------------------------------------------------------------------ the scan

  predicate IsWordChar(c: char) {
    'a' <= c <= 'z' || 'A' <= c <= 'Z' || '0' <= c <= '9' || c == '_'
  }

  ghost predicate IsWord(s: string) {
    s != "" && forall c :: c in s ==> IsWordChar(c)
  }

  /** The length of the longest word at the front of s. */
  function WordLength(s: string): (n: nat)
    ensures n <= |s|
  {
    if s == "" || !IsWordChar(s[0]) then 0 else 1 + WordLength(s[1..])
  }

  /** s without a leading "(...)" group, if it has one. */
  function AfterGroup(s: string): (r: string)
    ensures |r| <= |s|
  {
    if s == "" || s[0] != '(' then s
    else match IndexOf(s, ')', 1)
      case None => s
      case Some(k) => s[k + 1..]
  }

  /** The name that a match at the front of s takes, if there is one, and where the search goes on. */
  function Advance(s: string): (r: (seq<string>, string))
    requires s != ""
    ensures |r.1| < |s|
  {
    var n := WordLength(s[1..]);
    if s[0] == '{' && 0 < n < |s| - 1 && s[1 + n] == '}' then ([s[1..1 + n]], s[n + 2..])
    else if s[0] == ':' && 0 < n then ([s[1..1 + n]], AfterGroup(s[1 + n..]))
    else ([], s[1..])
  }

  /** All matches of \{(\w+)\}|:(\w+)(?:\([^)]*\))? from left to right. */
  function Scan(s: string): seq<string>
    decreases |s|
  {
    if s == "" then [] else Advance(s).0 + Scan(Advance(s).1)
  }

  // ------------------------------------------------------------------ printing routes

  datatype Segment =
    | Literal(text: string)
    | Braced(name: string)
    | Colon(name: string, group: Option<string>)

  function Text(g: Segment): string {
    match g
    case Literal(text) => text
    case Braced(name) => "{" + name + "}"
    case Colon(name, None) => ":" + name
    case Colon(name, Some(inner)) => ":" + name + "(" + inner + ")"
  }

  function Print(route: seq<Segment>): string {
    if route == [] then "" else Text(route[0]) + Print(route[1..])
  }

  function Names(route: seq<Segment>): seq<string> {
    if route == [] then []
    else (if route[0].Literal? then [] else [route[0].name]) + Names(route[1..])
  }

  /** Literals hold no '{' and no ':', names are words, a group closes at its first ')'. */
  ghost predicate IsSegment(g: Segment) {
    match g
    case Literal(text) => '{' !in text && ':' !in text
    case Braced(name) => IsWord(name)
    case Colon(name, None) => IsWord(name)
    case Colon(name, Some(inner)) => IsWord(name) && ')' !in inner
  }

  ghost predicate IsRoute(route: seq<Segment>) {
    route == [] || (IsSegment(route[0]) && IsRoute(route[1..]))
  }

  predicate IsBareColon(g: Segment) {
    g.Colon? && g.group.None?
  }

  /** A parameter begins before the first ')' of the printed tail. */
  predicate HidesName(tail: seq<Segment>) {
    tail != [] && (tail[0].Literal? ==> ')' !in tail[0].text && HidesName(tail[1..]))
  }

  /** What follows a bare `:name` neither reads on as part of the name nor opens a group that
      swallows a later parameter. */
  predicate Undisturbed(tail: seq<Segment>) {
    var rest := Print(tail);
    rest == "" || (!IsWordChar(rest[0]) && (rest[0] == '(' && ')' in rest ==> !HidesName(tail)))
  }

  predicate ReadsBack(route: seq<Segment>) {
    route == [] || ((IsBareColon(route[0]) ==> Undisturbed(route[1..])) && ReadsBack(route[1..]))
  }

  lemma {:induction false} WordLengthIs(name: string, rest: string)
    requires forall c :: c in name ==> IsWordChar(c)
    requires rest == "" || !IsWordChar(rest[0])
    ensures WordLength(name + rest) == |name|
  {
    if name == "" {
      assert name + rest == rest;
    } else {
      WordLengthIs(name[1..], rest);
      assert (name + rest)[1..] == name[1..] + rest;
    }
  }

  lemma {:induction false} ScanLiteral(text: string, rest: string)
    requires '{' !in text && ':' !in text
    ensures Scan(text + rest) == Scan(rest)
  {
    if text == "" {
      assert text + rest == rest;
    } else {
      ScanLiteral(text[1..], rest);
      assert (text + rest)[1..] == text[1..] + rest;
    }
  }

  lemma ScanBraced(name: string, rest: string)
    requires IsWord(name)
    ensures Scan("{" + name + "}" + rest) == [name] + Scan(rest)
  {
    var s := "{" + name + "}" + rest;
    assert s[1..] == name + ("}" + rest);
    WordLengthIs(name, "}" + rest);
    assert s[1..1 + |name|] == name;
    assert s[|name| + 2..] == rest;
  }

  lemma ScanAtColon(body: string)
    requires WordLength(body) > 0
    ensures Scan(":" + body) == [body[..WordLength(body)]] + Scan(AfterGroup(body[WordLength(body)..]))
  {
    var s, n := ":" + body, WordLength(body);
    assert s[1..] == body && s[1..1 + n] == body[..n] && s[1 + n..] == body[n..];
    assert Advance(s) == ([body[..n]], AfterGroup(body[n..]));
  }

  lemma Associate(a: string, b: string, c: string)
    ensures a + b + c == a + (b + c)
  {
  }

  lemma ScanColon(name: string, rest: string)
    requires IsWord(name) && (rest == "" || !IsWordChar(rest[0]))
    ensures Scan(":" + name + rest) == [name] + Scan(AfterGroup(rest))
  {
    WordLengthIs(name, rest);
    ScanAtColon(name + rest);
    Associate(":", name, rest);
    assert (name + rest)[..|name|] == name && (name + rest)[|name|..] == rest;
  }

  lemma AfterGroupIs(inner: string, rest: string)
    requires ')' !in inner
    ensures AfterGroup("(" + inner + ")" + rest) == rest
  {
    var s := "(" + inner + ")" + rest;
    assert s[|inner| + 1] == ')';
    assert forall j :: 1 <= j < |inner| + 1 ==> s[j] == inner[j - 1];
    assert s[|inner| + 2..] == rest;
  }

  lemma GroupBehind(front: string, inner: string, rest: string)
    ensures front + ("(" + inner + ")" + rest) == front + "(" + inner + ")" + rest
  {
  }

  lemma ScanColonGroup(name: string, inner: string, rest: string)
    requires IsWord(name) && ')' !in inner
    ensures Scan(":" + name + "(" + inner + ")" + rest) == [name] + Scan(rest)
  {
    var group := "(" + inner + ")" + rest;
    ScanColon(name, group);
    AfterGroupIs(inner, rest);
    GroupBehind(":" + name, inner, rest);
  }

  /** What is left of a printed tail behind its first ')'. */
  function Cut(tail: seq<Segment>): seq<Segment> {
    if tail == [] then []
    else match tail[0]
      case Literal(text) =>
        (match IndexOf(text, ')', 0)
         case Some(k) => [Literal(text[k + 1..])] + tail[1..]
         case None => Cut(tail[1..]))
      case Braced(_) => Cut(tail[1..])
      case Colon(_, None) => Cut(tail[1..])
      case Colon(_, Some(_)) => tail[1..]
  }

  /** `tail` prints as `head`, which holds no ')', then the first ')', then the cut tail. */
  ghost predicate SplitBy(tail: seq<Segment>, head: string) {
    ')' !in head && Print(tail) == head + ")" + Print(Cut(tail)) && IsRoute(Cut(tail))
  }

  lemma SplitLater(tail: seq<Segment>, head: string)
    requires IsRoute(tail) && tail != [] && SplitBy(tail[1..], head)
    requires ')' !in Text(tail[0]) && Cut(tail) == Cut(tail[1..])
    ensures SplitBy(tail, Text(tail[0]) + head)
  {
    var g, rest := Text(tail[0]), Print(Cut(tail));
    assert g + (head + ")" + rest) == (g + head) + ")" + rest;
  }

  lemma SplitGroup(name: string, inner: string, tail: seq<Segment>)
    requires IsWord(name) && ')' !in inner && IsRoute(tail)
    ensures SplitBy([Colon(name, Some(inner))] + tail, ":" + name + "(" + inner)
  {
    var route := [Colon(name, Some(inner))] + tail;
    assert route[1..] == tail;
  }

  lemma NoClosing(g: Segment)
    requires IsSegment(g) && (g.Literal? ==> ')' !in g.text) && (g.Colon? ==> g.group.None?)
    ensures ')' !in Text(g)
    ensures forall tail :: Cut([g] + tail) == Cut(tail)
  {
    forall tail ensures Cut([g] + tail) == Cut(tail) {
      assert ([g] + tail)[1..] == tail;
    }
  }

  lemma PrintCons(g: Segment, tail: seq<Segment>)
    ensures Print([g] + tail) == Text(g) + Print(tail)
    ensures IsRoute([g] + tail) <==> IsSegment(g) && IsRoute(tail)
    ensures Names([g] + tail) == (if g.Literal? then [] else [g.name]) + Names(tail)
  {
    assert ([g] + tail)[1..] == tail;
  }

  lemma SplitAtFirst(text: string, k: nat)
    requires IndexOf(text, ')', 0) == Some(k)
    ensures k < |text| && text == text[..k] + ")" + text[k + 1..] && ')' !in text[..k]
    ensures forall c :: c in text[k + 1..] ==> c in text
  {
    assert [text[k]] == ")";
    assert text == text[..k] + [text[k]] + text[k + 1..];
    assert forall j :: 0 <= j < k ==> text[..k][j] != ')';
  }

  lemma Regroup(text: string, a: string, b: string, c: string)
    requires text == a + ")" + b
    ensures text + c == a + ")" + (b + c)
  {
  }

  lemma CutsInside(text: string, tail: seq<Segment>, k: nat)
    requires IndexOf(text, ')', 0) == Some(k)
    ensures Cut([Literal(text)] + tail) == [Literal(text[k + 1..])] + tail
  {
    assert ([Literal(text)] + tail)[1..] == tail;
  }

  lemma CutLiteral(text: string, tail: seq<Segment>) returns (head: string)
    requires IsSegment(Literal(text)) && IsRoute(tail) && ')' in text
    ensures SplitBy([Literal(text)] + tail, head)
  {
    var k := IndexOf(text, ')', 0).value;
    head := text[..k];
    var behind := text[k + 1..];
    SplitAtFirst(text, k);
    CutsInside(text, tail, k);
    PrintCons(Literal(text), tail);
    PrintCons(Literal(behind), tail);
    Regroup(text, head, behind, Print(tail));
  }

  lemma {:induction false} CutSplits(tail: seq<Segment>) returns (head: string)
    requires IsRoute(tail) && ')' in Print(tail)
    ensures SplitBy(tail, head)
  {
    var g := tail[0];
    assert tail == [g] + tail[1..];
    if g.Literal? && ')' in g.text {
      head := CutLiteral(g.text, tail[1..]);
    } else if g.Colon? && g.group.Some? {
      head := ":" + g.name + "(" + g.group.value;
      SplitGroup(g.name, g.group.value, tail[1..]);
    } else {
      NoClosing(g);
      head := CutSplits(tail[1..]);
      SplitLater(tail, head);
      head := Text(g) + head;
    }
  }

  lemma {:induction false} CutNames(tail: seq<Segment>)
    requires IsRoute(tail)
    ensures ')' in Print(tail) ==> |Names(Cut(tail))| + (if HidesName(tail) then 1 else 0) <= |Names(tail)|
    ensures ')' in Print(tail) && !HidesName(tail) ==>
      Names(Cut(tail)) == Names(tail) && ReadsBack(Cut(tail)) == ReadsBack(tail)
    ensures |Names(Cut(tail))| <= |Names(tail)|
  {
    if tail != [] {
      CutNames(tail[1..]);
      var g := tail[0];
      if g.Literal? && ')' in g.text {
        var cut := Cut(tail);
        assert cut[1..] == tail[1..];
      }
    }
  }

  lemma AfterGroupOfTail(tail: seq<Segment>)
    requires IsRoute(tail) && Print(tail) != "" && Print(tail)[0] == '(' && ')' in Print(tail)
    ensures AfterGroup(Print(tail)) == Print(Cut(tail))
  {
    var head := CutSplits(tail);
    var s := Print(tail);
    assert s[|head|] == ')';
    assert head != "" && head[0] == '(' && head == "(" + head[1..];
    AfterGroupIs(head[1..], Print(Cut(tail)));
  }

  lemma AfterGroupKeeps(s: string)
    requires s == "" || s[0] != '(' || ')' !in s
    ensures AfterGroup(s) == s
  {
  }

  /** The tail behind the word that its text starts with. */
  function DropWord(tail: seq<Segment>): seq<Segment> {
    if tail == [] || !tail[0].Literal? then tail
    else
      var k := WordLength(tail[0].text);
      if k < |tail[0].text| then [Literal(tail[0].text[k..])] + tail[1..] else DropWord(tail[1..])
  }

  lemma {:induction false} WordLengthSplits(s: string)
    ensures forall c :: c in s[..WordLength(s)] ==> IsWordChar(c)
    ensures WordLength(s) < |s| ==> !IsWordChar(s[WordLength(s)])
  {
    if s != "" && IsWordChar(s[0]) {
      WordLengthSplits(s[1..]);
      assert s[..WordLength(s)] == [s[0]] + s[1..][..WordLength(s[1..])];
    }
  }

  /** `tail` prints as `word` and then the dropped tail, which does not start with a word. */
  ghost predicate DroppedBy(tail: seq<Segment>, word: string) {
    var dropped := DropWord(tail);
    && Print(tail) == word + Print(dropped)
    && (forall c :: c in word ==> IsWordChar(c))
    && (Print(dropped) == "" || !IsWordChar(Print(dropped)[0]))
    && IsRoute(dropped) && Names(dropped) == Names(tail)
  }

  lemma DropsInside(text: string, tail: seq<Segment>)
    requires WordLength(text) < |text|
    ensures DropWord([Literal(text)] + tail) == [Literal(text[WordLength(text)..])] + tail
  {
    assert ([Literal(text)] + tail)[1..] == tail;
  }

  lemma DropsWhole(text: string, tail: seq<Segment>)
    requires WordLength(text) == |text|
    ensures DropWord([Literal(text)] + tail) == DropWord(tail)
    ensures forall c :: c in text ==> IsWordChar(c)
  {
    assert ([Literal(text)] + tail)[1..] == tail;
    WordLengthSplits(text);
    assert text[..|text|] == text;
  }

  lemma DropsLater(text: string, tail: seq<Segment>, word: string)
    requires WordLength(text) == |text| && DroppedBy(tail, word)
    ensures DroppedBy([Literal(text)] + tail, text + word)
  {
    var rest := Print(DropWord(tail));
    DropsWhole(text, tail);
    PrintCons(Literal(text), tail);
    assert text + (word + rest) == (text + word) + rest;
  }

  lemma DropInside(text: string, k: nat, tail: seq<Segment>)
    requires IsSegment(Literal(text)) && k < |text| && IsRoute(tail)
    ensures var dropped := [Literal(text[k..])] + tail;
      && Print([Literal(text)] + tail) == text[..k] + Print(dropped)
      && Print(dropped)[..1] == [text[k]]
      && IsRoute(dropped) && Names(dropped) == Names([Literal(text)] + tail)
  {
    var dropped, route := [Literal(text[k..])] + tail, [Literal(text)] + tail;
    assert dropped[1..] == tail && route[1..] == tail;
    assert text == text[..k] + text[k..];
    assert forall c :: c in text[k..] ==> c in text;
  }

  lemma {:induction false} DropWordSplits(tail: seq<Segment>) returns (word: string)
    requires IsRoute(tail)
    ensures DroppedBy(tail, word)
  {
    if tail == [] || !tail[0].Literal? {
      word := "";
    } else {
      var text := tail[0].text;
      var k := WordLength(text);
      WordLengthSplits(text);
      assert tail == [Literal(text)] + tail[1..];
      if k < |text| {
        word := text[..k];
        DropsInside(text, tail[1..]);
        DropInside(text, k, tail[1..]);
      } else {
        word := DropWordSplits(tail[1..]);
        DropsLater(text, tail[1..], word);
        word := text + word;
      }
    }
  }

  lemma ScanGlued(name: string, word: string, rest: string)
    requires IsWord(name) && (forall c :: c in word ==> IsWordChar(c)) && (rest == "" || !IsWordChar(rest[0]))
    ensures Scan(":" + name + (word + rest)) == [name + word] + Scan(AfterGroup(rest))
  {
    assert ":" + name + (word + rest) == ":" + (name + word) + rest;
    ScanColon(name + word, rest);
  }

  lemma BehindGroup(tail: seq<Segment>) returns (next: seq<Segment>)
    requires IsRoute(tail)
    ensures AfterGroup(Print(tail)) == Print(next)
    ensures IsRoute(next) && |Print(next)| <= |Print(tail)| && |Names(next)| <= |Names(tail)|
  {
    var s := Print(tail);
    if s != "" && s[0] == '(' && ')' in s {
      AfterGroupOfTail(tail);
      var _ := CutSplits(tail);
      CutNames(tail);
      next := Cut(tail);
    } else {
      AfterGroupKeeps(s);
      next := tail;
    }
  }

  lemma ScanBareColon(name: string, tail: seq<Segment>) returns (word: string, next: seq<Segment>)
    requires IsWord(name) && IsRoute(tail)
    ensures Scan(":" + name + Print(tail)) == [name + word] + Scan(Print(next))
    ensures IsRoute(next) && |Print(next)| <= |Print(tail)| && |Names(next)| <= |Names(tail)|
    ensures Print(tail) != "" && IsWordChar(Print(tail)[0]) ==> word != ""
  {
    var dropped := DropWord(tail);
    word := DropWordSplits(tail);
    ScanGlued(name, word, Print(dropped));
    next := BehindGroup(dropped);
  }

  lemma ScanSegment(g: Segment, rest: string)
    requires IsSegment(g) && !IsBareColon(g)
    ensures Scan(Text(g) + rest) == (if g.Literal? then [] else [g.name]) + Scan(rest)
  {
    match g
    case Literal(text) => ScanLiteral(text, rest);
    case Braced(name) => ScanBraced(name, rest);
    case Colon(name, Some(inner)) => ScanColonGroup(name, inner, rest);
  }

  /** The scan never finds more names than were printed. */
  lemma {:induction false} ScanFindsNoMore(route: seq<Segment>)
    requires IsRoute(route)
    ensures |Scan(Print(route))| <= |Names(route)|
    decreases |Print(route)|, |route|
  {
    if route != [] {
      var g, tail := route[0], route[1..];
      if IsBareColon(g) {
        var _, next := ScanBareColon(g.name, tail);
        ScanFindsNoMore(next);
      } else {
        ScanFindsNoMore(tail);
        ScanSegment(g, Print(tail));
      }
    }
  }

  lemma PrefixesCancel<T>(p: seq<T>, a: seq<T>, b: seq<T>)
    ensures p + a == p + b <==> a == b
  {
    if p + a == p + b {
      assert a == (p + a)[|p|..];
      assert b == (p + b)[|p|..];
    }
  }

  lemma ScanBareColonIff(name: string, tail: seq<Segment>)
    requires IsWord(name) && IsRoute(tail)
    ensures Scan(":" + name + Print(tail)) == [name] + Names(tail) <==>
      && Undisturbed(tail)
      && (if Print(tail) != "" && Print(tail)[0] == '(' && ')' in Print(tail)
          then Scan(Print(Cut(tail))) == Names(Cut(tail)) else Scan(Print(tail)) == Names(tail))
  {
    var rest := Print(tail);
    if rest != "" && IsWordChar(rest[0]) {
      var word, next := ScanBareColon(name, tail);
      assert Scan(":" + name + rest)[0] == name + word;
      assert |name + word| > |name|;
      assert ([name] + Names(tail))[0] == name;
    } else {
      ScanColon(name, rest);
      if rest != "" && rest[0] == '(' && ')' in rest {
        AfterGroupOfTail(tail);
        var _ := CutSplits(tail);
        CutNames(tail);
        ScanFindsNoMore(Cut(tail));
        PrefixesCancel([name], Scan(Print(Cut(tail))), Names(tail));
      } else {
        AfterGroupKeeps(rest);
        PrefixesCancel([name], Scan(rest), Names(tail));
      }
    }
  }

  /** Scanning a printed route returns its parameter names, all of them and in order, exactly when no
      bare `:name` is directly followed by a word or by a group around a later parameter. */
  lemma {:induction false} ScanInvertsPrintingIff(route: seq<Segment>)
    requires IsRoute(route)
    ensures Scan(Print(route)) == Names(route) <==> ReadsBack(route)
    decreases |Print(route)|, |route|
  {
    if route != [] {
      var g, tail := route[0], route[1..];
      if IsBareColon(g) {
        ScanBareColonIff(g.name, tail);
        if ')' in Print(tail) && !HidesName(tail) {
          var _ := CutSplits(tail);
          CutNames(tail);
          ScanInvertsPrintingIff(Cut(tail));
        }
        ScanInvertsPrintingIff(tail);
      } else {
        ScanInvertsPrintingIff(tail);
        ScanSegment(g, Print(tail));
        PrefixesCancel(if g.Literal? then [] else [g.name], Scan(Print(tail)), Names(tail));
      }
    }
  }

  /** A bare name reads on into a word behind it: `:a` and `b` are one parameter "ab". */
  lemma GluedNameIsMisread(name: string, word: string)
    requires IsWord(name) && IsWord(word)
    ensures var route := [Colon(name, None), Literal(word)];
      IsRoute(route) && Names(route) == [name] && Scan(Print(route)) == [name + word]
  {
    assert !IsWordChar('{') && !IsWordChar(':');
    var tail := [Literal(word)];
    assert [Colon(name, None), Literal(word)] == [Colon(name, None)] + tail;
    PrintCons(Colon(name, None), tail);
    assert tail == [Literal(word)] + [] && word + "" == word;
    PrintCons(Literal(word), []);
    ScanGlued(name, word, "");
  }

  lemma GroupPrints(lost: string)
    requires IsWord(lost)
    ensures var tail := [Literal("("), Braced(lost), Literal(")")];
      IsRoute(tail) && Names(tail) == [lost] && Print(tail) == "(" + ("{" + lost + "}" + ")")
  {
    var close := [Literal(")")];
    var braced := [Braced(lost)] + close;
    assert [Literal("("), Braced(lost), Literal(")")] == [Literal("(")] + braced && close == [Literal(")")] + [];
    PrintCons(Literal(")"), []);
    PrintCons(Braced(lost), close);
    PrintCons(Literal("("), braced);
    assert Text(Literal(")")) + "" == ")";
  }

  lemma BracedGroupIsSkipped(name: string, lost: string)
    requires IsWord(name) && IsWord(lost)
    ensures Scan(":" + name + ("(" + ("{" + lost + "}" + ")"))) == [name]
  {
    var inner := "{" + lost + "}";
    assert !IsWordChar(')') && Scan("") == [];
    ScanColonGroup(name, inner, "");
    GroupBehind(":" + name, inner, "");
    assert "(" + inner + ")" + "" == "(" + (inner + ")");
  }

  /** And a group behind it swallows a parameter inside: of `:a` and `({b})` only "a" is found. */
  lemma GroupedNameIsLost(name: string, lost: string)
    requires IsWord(name) && IsWord(lost)
    ensures var route := [Colon(name, None), Literal("("), Braced(lost), Literal(")")];
      IsRoute(route) && Names(route) == [name, lost] && Scan(Print(route)) == [name]
  {
    var tail := [Literal("("), Braced(lost), Literal(")")];
    assert [Colon(name, None), Literal("("), Braced(lost), Literal(")")] == [Colon(name, None)] + tail;
    GroupPrints(lost);
    PrintCons(Colon(name, None), tail);
    BracedGroupIsSkipped(name, lost);
  }

  // ------------------------------------------------------------------ groups that hold a ')'

  ghost predicate Closes(a: string) {
    a == "" || a[|a| - 1] == ')'
  }

  lemma {:induction false} WordStops(a: string, rest: string)
    requires a != "" && Closes(a)
    ensures WordLength(a + rest) == WordLength(a) < |a|
  {
    if IsWordChar(a[0]) {
      assert (a + rest)[1..] == a[1..] + rest;
      WordStops(a[1..], rest);
    }
  }

  lemma GroupStops(a: string, rest: string)
    requires a != "" && Closes(a)
    ensures AfterGroup(a + rest) == AfterGroup(a) + rest && Closes(AfterGroup(a))
  {
    if a[0] == '(' {
      var k := IndexOf(a, ')', 1).value;
      assert (a + rest)[k] == ')' && forall j :: 1 <= j < k ==> (a + rest)[j] == a[j];
      assert IndexOf(a + rest, ')', 1) == Some(k);
      assert (a + rest)[k + 1..] == a[k + 1..] + rest;
    }
  }

  lemma StepStops(a: string, rest: string)
    requires a != "" && Closes(a)
    ensures Advance(a + rest) == (Advance(a).0, Advance(a).1 + rest) && Closes(Advance(a).1)
  {
    var s := a + rest;
    assert s[1..] == a[1..] + rest;
    if a == ")" {
      assert s[0] == ')';
    } else {
      var n := WordLength(a[1..]);
      WordStops(a[1..], rest);
      assert s[1..1 + n] == a[1..1 + n] && s[1 + n] == a[1 + n];
      assert s[n + 2..] == a[n + 2..] + rest && s[1 + n..] == a[1 + n..] + rest;
      GroupStops(a[1 + n..], rest);
    }
  }

  /** No match reaches across a ')' at the end. */
  lemma {:induction false} ScanStops(a: string, rest: string)
    requires Closes(a)
    ensures Scan(a + rest) == Scan(a) + Scan(rest)
    decreases |a|
  {
    if a == "" {
      assert a + rest == rest;
    } else {
      StepStops(a, rest);
      ScanStops(Advance(a).1, rest);
    }
  }

  /** The scan leaves a group at its first ')', so of a group that holds one, the rest is scanned for names. */
  lemma ScanLongGroup(name: string, inner: string, rest: string, k: nat)
    requires IsWord(name) && IndexOf(inner, ')', 0) == Some(k)
    ensures Scan(":" + name + "(" + inner + ")" + rest) == [name] + Scan(inner[k + 1..] + ")") + Scan(rest)
  {
    var left := inner[k + 1..] + ")";
    SplitAtFirst(inner, k);
    assert ":" + name + "(" + inner + ")" + rest == ":" + name + "(" + inner[..k] + ")" + (left + rest);
    ScanColonGroup(name, inner[..k], left + rest);
    ScanStops(left, rest);
  }

  /** So in `:id((a|b){3})` the count is taken for a parameter "3" that nobody wrote. */
  lemma RepetitionIsReadAsAName(name: string, choice: string, count: string)
    requires IsWord(name) && IsWord(count) && ')' !in choice
    ensures Scan(":" + name + "(" + (choice + ")" + "{" + count + "}") + ")") == [name, count]
  {
    var left := "{" + count + "}";
    var inner := choice + ")" + "{" + count + "}";
    assert inner[|choice|] == ')' && forall j :: 0 <= j < |choice| ==> inner[j] == choice[j];
    assert IndexOf(inner, ')', 0) == Some(|choice|);
    assert inner[|choice| + 1..] == left;
    ScanLongGroup(name, inner, "", |choice|);
    ScanBraced(count, ")");
    ScanLiteral(")", "");
    assert ")" + "" == ")" && Scan("") == [];
    assert ":" + name + "(" + inner + ")" + "" == ":" + name + "(" + inner + ")";
  }

  // ------------------------------------------------------------------ the schema

  predicate EndsWithId(name: string) {
    |name| >= 2 && name[|name| - 2] in {'i', 'I'} && name[|name| - 1] in {'d', 'D'}
  }

  function GuessedSchema(name: string): Schema {
    ANYTHING.(types := [StringType], assertions := if EndsWithId(name) then [BARE_UUID_PATTERN] else [])
  }

  function ParamSchema(name: string, sourced: map<string, Schema>): Schema {
    if name in sourced then sourced[name] else GuessedSchema(name)
  }

  function Properties(params: seq<string>, sourced: map<string, Schema>): map<string, Schema> {
    map name | name in params :: ParamSchema(name, sourced)
  }

  function ParamsSchema(params: seq<string>, sourced: map<string, Schema>): Schema {
    ANYTHING.(types := [ObjectType], additional := Closed, required := params,
              properties := Properties(params, sourced))
  }

  function Unsourced(params: seq<string>, sourced: map<string, Schema>): seq<string> {
    Filter((name: string) => name !in sourced, params)
  }

  lemma OneMore(params: seq<string>, i: nat, sourced: map<string, Schema>)
    requires i < |params|
    ensures Properties(params[..i + 1], sourced) ==
      Properties(params[..i], sourced)[params[i] := ParamSchema(params[i], sourced)]
    ensures Unsourced(params[..i + 1], sourced) == Unsourced(params[..i], sourced) + if params[i] in sourced then []
      else [params[i]]
  {
    assert params[..i + 1] == params[..i] + [params[i]];
    assert params[..i + 1][..i] == params[..i];
  }

  /** `sourced` is empty when no source document answered for this operation. */
  method PathParamsSchema(route: string, sourced: map<string, Schema>)
    returns (pathParams: Schema, heuristic: Option<seq<string>>)
    ensures pathParams == ParamsSchema(Scan(route), sourced)
    ensures heuristic == if Unsourced(Scan(route), sourced) == [] then None else Some(Unsourced(Scan(route), sourced))
  {
    var params := Scan(route);
    var properties: map<string, Schema> := map[];
    var heuristicNames: seq<string> := [];
    for i := 0 to |params|
      invariant properties == Properties(params[..i], sourced)
      invariant heuristicNames == Unsourced(params[..i], sourced)
    {
      var p := params[i];
      OneMore(params, i, sourced);
      if p in sourced {
        properties := properties[p := sourced[p]];
        continue;
      }
      properties := properties[p := GuessedSchema(p)];
      heuristicNames := heuristicNames + [p];
    }
    assert params[..|params|] == params;
    pathParams := ANYTHING.(types := [ObjectType], additional := Closed, properties := properties, required := params);
    heuristic := if |heuristicNames| > 0 then Some(heuristicNames) else None;
  }

  lemma ParamsAreMembers(sat: Oracle, defs: Defs, params: seq<string>, sourced: map<string, Schema>, v: Json, fuel: nat)
    ensures var s := ParamsSchema(params, sourced);
      Accepts(sat, defs, s, v, fuel) <==> v.Obj? && AcceptsMembers(sat, defs, s, v.fields, fuel)
  {
    var s := ParamsSchema(params, sourced);
    assert s.types[0] == ObjectType;
  }

  lemma ParamMembers(
    sat: Oracle, defs: Defs, params: seq<string>, sourced: map<string, Schema>, fields: map<string, Json>, fuel: nat)
    ensures AcceptsMembers(sat, defs, ParamsSchema(params, sourced), fields, fuel) <==>
      && fields.Keys == (set name | name in params)
      && forall name | name in fields :: Accepts(sat, defs, ParamSchema(name, sourced), fields[name], fuel)
  {
    assert (forall i | 0 <= i < |params| :: params[i] in fields) <==> (set name | name in params) <= fields.Keys;
  }

  /** Whatever definitions its references resolve to: a value is accepted iff it is an object with
      exactly the route's names as keys and each entry is accepted by that name's schema. */
  lemma ParamsAreExact(sat: Oracle, defs: Defs, params: seq<string>, sourced: map<string, Schema>, v: Json, fuel: nat)
    ensures Accepts(sat, defs, ParamsSchema(params, sourced), v, fuel) <==>
      && v.Obj?
      && v.fields.Keys == (set name | name in params)
      && forall name | name in v.fields :: Accepts(sat, defs, ParamSchema(name, sourced), v.fields[name], fuel)
  {
    ParamsAreMembers(sat, defs, params, sourced, v, fuel);
    if v.Obj? {
      ParamMembers(sat, defs, params, sourced, v.fields, fuel);
    }
  }

  lemma ParamsSettledIff(defs: Defs, params: seq<string>, sourced: map<string, Schema>, v: Json, fuel: nat)
    ensures Settled(defs, ParamsSchema(params, sourced), v, fuel) <==>
      (v.Obj? ==> forall name | name in v.fields && name in params ::
      Settled(defs, ParamSchema(name, sourced), v.fields[name], fuel))
  {
    var s := ParamsSchema(params, sourced);
    assert SettledItems(defs, s, [], fuel);
    if v.Obj? {
      assert SettledMembers(defs, s, v.fields, fuel) <==>
        forall name | name in v.fields && name in params ::
          Settled(defs, ParamSchema(name, sourced), v.fields[name], fuel);
    }
  }

  /** Enough fuel for each of the named entries is enough for all of them. */
  lemma FuelForAll(
    sat: Oracle, defs: Defs, sourced: map<string, Schema>, fields: map<string, Json>, names: set<string>)
    returns (fuel: nat)
    requires names <= fields.Keys && forall name | name in names ::
      ValidUnder(sat, defs, ParamSchema(name, sourced), fields[name])
    ensures forall name | name in names :: AcceptedUnder(sat, defs, ParamSchema(name, sourced), fields[name], fuel)
    decreases |names|
  {
    if names == {} {
      fuel := 0;
    } else {
      var x :| x in names;
      var n := FuelForAll(sat, defs, sourced, fields, names - {x});
      var m: nat :| AcceptedUnder(sat, defs, ParamSchema(x, sourced), fields[x], m);
      fuel := n + m;
      forall name | name in names ensures AcceptedUnder(sat, defs, ParamSchema(name, sourced), fields[name], fuel) {
        AcceptedUnderMore(sat, defs, ParamSchema(name, sourced), fields[name], if name == x then m else n, fuel);
      }
    }
  }

  /** A value has the verdict "accepted" iff it is an object with exactly the route's names as keys and
      each entry has it by that name's schema, under the same definitions. */
  lemma ParamsValidIff(sat: Oracle, defs: Defs, params: seq<string>, sourced: map<string, Schema>, v: Json)
    ensures ValidUnder(sat, defs, ParamsSchema(params, sourced), v) <==>
      && v.Obj?
      && v.fields.Keys == (set name | name in params)
      && forall name | name in params :: ValidUnder(sat, defs, ParamSchema(name, sourced), v.fields[name])
  {
    if fuel: nat :| AcceptedUnder(sat, defs, ParamsSchema(params, sourced), v, fuel) {
      ParamsAreExact(sat, defs, params, sourced, v, fuel);
      ParamsSettledIff(defs, params, sourced, v, fuel);
      forall name | name in params ensures ValidUnder(sat, defs, ParamSchema(name, sourced), v.fields[name]) {
        assert name in v.fields;
        assert AcceptedUnder(sat, defs, ParamSchema(name, sourced), v.fields[name], fuel);
      }
    }
    if v.Obj? && v.fields.Keys == (set name | name in params)
       && forall name | name in params :: ValidUnder(sat, defs, ParamSchema(name, sourced), v.fields[name]) {
      var fuel := FuelForAll(sat, defs, sourced, v.fields, v.fields.Keys);
      ParamsAreExact(sat, defs, params, sourced, v, fuel);
      ParamsSettledIff(defs, params, sourced, v, fuel);
      assert AcceptedUnder(sat, defs, ParamsSchema(params, sourced), v, fuel);
    }
  }

  /** The schema is well formed iff no name occurs twice and every sourced schema used is. */
  lemma ParamsWellFormedIff(ok: string -> bool, params: seq<string>, sourced: map<string, Schema>)
    requires ok(BARE_UUID_PATTERN)
    ensures WellFormed(ok, ParamsSchema(params, sourced)) <==>
      Distinct(params) && forall name | name in params && name in sourced :: WellFormed(ok, sourced[name])
  {
    var s := ParamsSchema(params, sourced);
    forall name | name in params && name !in sourced ensures WellFormed(ok, s.properties[name]) {
      assert s.properties[name] == GuessedSchema(name);
    }
    forall name | name in params && name in sourced ensures s.properties[name] == sourced[name] {
    }
  }

  /** References can only come from the sourced schemas in use. */
  lemma ParamsRefsWithinIff(params: seq<string>, sourced: map<string, Schema>, c: set<string>)
    ensures RefsWithin(ParamsSchema(params, sourced), c) <==>
      forall name | name in params && name in sourced :: RefsWithin(sourced[name], c)
  {
    var s := ParamsSchema(params, sourced);
    forall name | name in params && name !in sourced ensures RefsWithin(s.properties[name], c) {
      assert s.properties[name] == GuessedSchema(name);
    }
    forall name | name in params && name in sourced ensures s.properties[name] == sourced[name] {
    }
  }

  // ------------------------------------------------------------------ parameters without a sourced schema

  /** The name ends in "id", in any case. */
  ghost predicate NamedAsId(name: string) {
    exists stem, end :: name == stem + end && end in {"id", "iD", "Id", "ID"}
  }

  lemma EndsWithIdIff(name: string)
    ensures EndsWithId(name) <==> NamedAsId(name)
  {
    if EndsWithId(name) {
      var k := |name| - 2;
      var stem, end := name[..k], name[k..];
      assert end == [name[k], name[k + 1]];
      assert name == stem + end && end in {"id", "iD", "Id", "ID"};
    }
    if stem, end :| name == stem + end && end in {"id", "iD", "Id", "ID"} {
      assert name[|stem|] == end[0] && name[|stem| + 1] == end[1];
    }
  }

  /** A string, shaped like a UUID if the name asks for an id. */
  ghost predicate FitsGuess(sat: Oracle, name: string, v: Json) {
    v.Str? && (NamedAsId(name) ==> sat(BARE_UUID_PATTERN, v))
  }

  lemma GuessAccepts(sat: Oracle, defs: Defs, name: string, v: Json, fuel: nat)
    ensures AcceptedUnder(sat, defs, GuessedSchema(name), v, fuel) <==> FitsGuess(sat, name, v)
  {
    var s := GuessedSchema(name);
    EndsWithIdIff(name);
    assert s.types[0] == StringType;
    assert EndsWithId(name) ==> s.assertions[0] == BARE_UUID_PATTERN;
    assert SettledBranches(defs, s, v, fuel) && AcceptsBranches(sat, defs, s, v, fuel);
    assert v.Obj? ==> SettledMembers(defs, s, v.fields, fuel);
    assert v.Arr? ==> SettledItems(defs, s, v.items, fuel);
  }

  /** A name of the route that no document gives a schema for takes a string, and one shaped like a UUID if
      it ends in "id". */
  lemma UnsourcedParameterIff(
    sat: Oracle, defs: Defs, route: string, sourced: map<string, Schema>, name: string, v: Json)
    requires name in Scan(route) && name !in sourced
    ensures var p := ParamsSchema(Scan(route), sourced);
      name in p.properties && (ValidUnder(sat, defs, p.properties[name], v) <==>
        v.Str? && (NamedAsId(name) ==> sat(BARE_UUID_PATTERN, v)))
  {
    var s := GuessedSchema(name);
    if fuel: nat :| AcceptedUnder(sat, defs, s, v, fuel) {
      GuessAccepts(sat, defs, name, v, fuel);
    }
    if FitsGuess(sat, name, v) {
      GuessAccepts(sat, defs, name, v, 0);
    }
  }

  /** Any other name of the route has the document's schema. */
  lemma SourcedParameterIs(route: string, sourced: map<string, Schema>, name: string)
    requires name in Scan(route) && name in sourced
    ensures var p := ParamsSchema(Scan(route), sourced);
      name in p.properties && p.properties[name] == sourced[name]
  {
  }

  /** A route of which no document knows a parameter takes exactly its names, each with such a string. */
  lemma ScannedParametersIff(sat: Oracle, defs: Defs, route: string, v: Json)
    ensures ValidUnder(sat, defs, ParamsSchema(Scan(route), map[]), v) <==>
      && v.Obj?
      && (forall name :: name in v.fields <==> name in Scan(route))
      && forall name | name in v.fields ::
           v.fields[name].Str? && (NamedAsId(name) ==> sat(BARE_UUID_PATTERN, v.fields[name]))
  {
    var names := set name | name in Scan(route);
    ParamsValidIff(sat, defs, Scan(route), map[], v);
    if v.Obj? {
      assert v.fields.Keys == names <==> forall name :: name in v.fields <==> name in Scan(route);
      forall name | name in Scan(route) && name in v.fields
        ensures ValidUnder(sat, defs, ParamSchema(name, map[]), v.fields[name]) <==>
          FitsGuess(sat, name, v.fields[name])
      {
        UnsourcedParameterIff(sat, defs, route, map[], name, v.fields[name]);
      }
    }
  }
}
