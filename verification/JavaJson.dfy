/**
  The JSON string literal writer of the ast-helper (Main.java, jsonString), with the string grammar
  of section 7 of RFC 8259 as its inverse. Strings are sequences of 16-bit code units.
 */
module JavaJson {
  import opened Prelude
  import opened JavaText

  const QUOTE: Unit := 0x22
  const BACKSLASH: Unit := 0x5C

  // ------------------------------------------------------------------ writing

  /** '0'..'9', 'a'..'f' */
  function HexDigit(d: nat): Unit
    requires d < 16
  {
    if d < 10 then 0x30 + d else 0x61 + d - 10
  }

  /** The last n hexadecimal digits of c: what %04x prints for n == 4. */
  function Hex(c: nat, n: nat): (s: seq<Unit>)
    ensures |s| == n
  {
    if n == 0 then [] else Hex(c / 16, n - 1) + [HexDigit(c % 16)]
  }

  function EscapeUnit(c: Unit): seq<Unit> {
    if c == QUOTE then [BACKSLASH, QUOTE]
    else if c == BACKSLASH then [BACKSLASH, BACKSLASH]
    else if c == 0x0A then [BACKSLASH, 0x6E]
    else if c == 0x0D then [BACKSLASH, 0x72]
    else if c == 0x09 then [BACKSLASH, 0x74]
    else if c < 0x20 then [BACKSLASH, 0x75] + Hex(c, 4)
    else [c]
  }

  function EscapeAll(s: seq<Unit>): seq<Unit> {
    if s == [] then [] else EscapeAll(s[..|s| - 1]) + EscapeUnit(s[|s| - 1])
  }

  lemma OneMoreUnit(s: seq<Unit>, i: nat)
    requires i < |s|
    ensures [QUOTE] + EscapeAll(s[..i + 1]) == [QUOTE] + EscapeAll(s[..i]) + EscapeUnit(s[i])
  {
    assert s[..i + 1][..i] == s[..i];
  }

  method JsonString(s: seq<Unit>) returns (json: seq<Unit>)
    ensures json == [QUOTE] + EscapeAll(s) + [QUOTE]
  {
    json := [QUOTE];
    for i := 0 to |s|
      invariant json == [QUOTE] + EscapeAll(s[..i])
    {
      var c := s[i];
      OneMoreUnit(s, i);
      ghost var before := json;
      if c == QUOTE {
        json := json + [BACKSLASH, QUOTE];
      } else if c == BACKSLASH {
        json := json + [BACKSLASH, BACKSLASH];
      } else if c == 0x0A {
        json := json + [BACKSLASH, 0x6E];
      } else if c == 0x0D {
        json := json + [BACKSLASH, 0x72];
      } else if c == 0x09 {
        json := json + [BACKSLASH, 0x74];
      } else if c < 0x20 {
        json := json + ([BACKSLASH, 0x75] + Hex(c, 4));
      } else {
        json := json + [c];
      }
      assert json == before + EscapeUnit(c);
    }
    assert s[..|s|] == s;
    json := json + [QUOTE];
  }

  // ------------------------------------------------------------------ reading

  function HexValue(u: Unit): Option<nat> {
    if 0x30 <= u <= 0x39 then Some(u - 0x30)
    else if 0x61 <= u <= 0x66 then Some(u - 0x61 + 10)
    else if 0x41 <= u <= 0x46 then Some(u - 0x41 + 10)
    else None
  }

  function HexNumber(s: seq<Unit>): Option<nat> {
    if s == [] then Some(0)
    else match (HexNumber(s[..|s| - 1]), HexValue(s[|s| - 1]))
      case (Some(high), Some(low)) => Some(16 * high + low)
      case _ => None
  }

  /** The meaning of a two-character escape. */
  function ShortEscape(u: Unit): Option<Unit> {
    if u == QUOTE || u == BACKSLASH || u == 0x2F then Some(u)
    else if u == 0x62 then Some(0x08)
    else if u == 0x66 then Some(0x0C)
    else if u == 0x6E then Some(0x0A)
    else if u == 0x72 then Some(0x0D)
    else if u == 0x74 then Some(0x09)
    else None
  }

  /** One character of a string body and the number of units it takes; None is a syntax error. */
  function DecodeOne(t: seq<Unit>): (r: Option<(Unit, nat)>)
    ensures r.Some? ==> 0 < r.value.1 <= |t|
  {
    if t == [] || t[0] < 0x20 || t[0] == QUOTE then None
    else if t[0] != BACKSLASH then Some((t[0], 1))
    else if |t| >= 2 && ShortEscape(t[1]).Some? then Some((ShortEscape(t[1]).value, 2))
    else if |t| >= 6 && t[1] == 0x75 then
      match HexNumber(t[2..6])
      case Some(n) => if n < 0x1_0000 then Some((n, 6)) else None
      case None => None
    else None
  }

  /** The characters up to the closing quote, which must be the last unit: an unescaped quote inside,
      a raw control character or an unknown escape is refused. */
  function DecodeBody(t: seq<Unit>): Option<seq<Unit>>
    decreases |t|
  {
    if t == [QUOTE] then Some([])
    else match DecodeOne(t)
      case None => None
      case Some((c, n)) =>
        match DecodeBody(t[n..])
        case None => None
        case Some(s) => Some([c] + s)
  }

  function DecodeJsonString(t: seq<Unit>): Option<seq<Unit>> {
    if t != [] && t[0] == QUOTE then DecodeBody(t[1..]) else None
  }

  // ------------------------------------------------------------------ round trip

  lemma HexDigitReadsBack(d: nat)
    requires d < 16
    ensures HexValue(HexDigit(d)) == Some(d)
  {
  }

  ghost function Power16(n: nat): nat {
    if n == 0 then 1 else 16 * Power16(n - 1)
  }

  lemma {:induction false} HexReadsBack(c: nat, n: nat)
    requires c < Power16(n)
    ensures HexNumber(Hex(c, n)) == Some(c)
  {
    if n > 0 {
      HexReadsBack(c / 16, n - 1);
      HexDigitReadsBack(c % 16);
      assert Hex(c, n)[..n - 1] == Hex(c / 16, n - 1);
    }
  }

  lemma UnitDecodes(c: Unit, rest: seq<Unit>)
    ensures DecodeOne(EscapeUnit(c) + rest) == Some((c, |EscapeUnit(c)|))
  {
    var t := EscapeUnit(c) + rest;
    if |EscapeUnit(c)| == 6 {
      assert Power16(4) == 0x1_0000 by { assert Power16(3) == 4096 by { assert Power16(2) == 256; } }
      HexReadsBack(c, 4);
      assert t[2..6] == Hex(c, 4);
    }
  }

  lemma UnitReadsBack(c: Unit, rest: seq<Unit>, tail: seq<Unit>)
    requires DecodeBody(rest) == Some(tail)
    ensures DecodeBody(EscapeUnit(c) + rest) == Some([c] + tail)
  {
    UnitDecodes(c, rest);
    assert (EscapeUnit(c) + rest)[|EscapeUnit(c)|..] == rest;
  }

  lemma Ends(s: seq<Unit>, front: seq<Unit>, c: Unit)
    requires s != [] && front == s[..|s| - 1] && c == s[|s| - 1]
    ensures s == front + [c]
  {
  }

  lemma Regroup(a: seq<Unit>, b: seq<Unit>, c: seq<Unit>)
    ensures a + (b + c) == (a + b) + c
  {
  }

  lemma Appended(escaped: seq<Unit>, last: seq<Unit>, rest: seq<Unit>, front: seq<Unit>, c: Unit, tail: seq<Unit>)
    requires DecodeBody(escaped + (last + rest)) == Some(front + ([c] + tail))
    ensures DecodeBody((escaped + last) + rest) == Some((front + [c]) + tail)
  {
    Regroup(escaped, last, rest);
    Regroup(front, [c], tail);
  }

  lemma {:induction false} BodyReadsBack(s: seq<Unit>, rest: seq<Unit>, tail: seq<Unit>)
    requires DecodeBody(rest) == Some(tail)
    ensures DecodeBody(EscapeAll(s) + rest) == Some(s + tail)
  {
    if s == [] {
      assert EscapeAll(s) + rest == rest;
      assert s + tail == tail;
    } else {
      var front, c := s[..|s| - 1], s[|s| - 1];
      UnitReadsBack(c, rest, tail);
      BodyReadsBack(front, EscapeUnit(c) + rest, [c] + tail);
      Appended(EscapeAll(front), EscapeUnit(c), rest, front, c, tail);
      Ends(s, front, c);
    }
  }

  lemma OpenedBody(body: seq<Unit>)
    ensures DecodeJsonString([QUOTE] + body) == DecodeBody(body)
  {
    assert ([QUOTE] + body)[1..] == body;
  }

  /** Decoding the written literal gives the string back, for every string of 16-bit units. */
  lemma JsonStringReadsBack(s: seq<Unit>)
    ensures DecodeJsonString([QUOTE] + EscapeAll(s) + [QUOTE]) == Some(s)
  {
    BodyReadsBack(s, [QUOTE], []);
    Regroup([QUOTE], EscapeAll(s), [QUOTE]);
    OpenedBody(EscapeAll(s) + [QUOTE]);
    assert s + [] == s;
  }

  lemma {:induction false} HexIsPrintable(c: nat, n: nat)
    ensures forall u :: u in Hex(c, n) ==> u >= 0x30
  {
    if n > 0 {
      HexIsPrintable(c / 16, n - 1);
    }
  }

  /** The literal holds no raw control character. */
  lemma {:induction false} NoControlCharacter(s: seq<Unit>)
    ensures forall u :: u in EscapeAll(s) ==> u >= 0x20
  {
    if s != [] {
      NoControlCharacter(s[..|s| - 1]);
      HexIsPrintable(s[|s| - 1], 4);
    }
  }

  /** Decoding one character looks no further than the units it takes. */
  lemma DecodesFromPrefix(t: seq<Unit>, n: nat)
    requires DecodeOne(t).Some? && n <= |t|
    ensures if DecodeOne(t).value.1 <= n then DecodeOne(t[..n]) == DecodeOne(t) else DecodeOne(t[..n]).None?
  {
    if n >= 6 && |t| >= 6 {
      assert t[..n][2..6] == t[2..6];
    }
  }

  lemma {:induction false} NoEarlierEnd(t: seq<Unit>, n: nat)
    requires DecodeBody(t).Some? && n < |t|
    ensures DecodeBody(t[..n]).None?
    decreases |t|
  {
    if t == [QUOTE] {
      assert t[..n] == [];
    } else {
      var k := DecodeOne(t).value.1;
      DecodesFromPrefix(t, n);
      if k <= n {
        NoEarlierEnd(t[k..], n - k);
        assert t[..n][k..] == t[k..][..n - k];
      }
    }
  }

  /** The literal has no unescaped quote inside: it reads as ended at its last unit and nowhere before. */
  lemma NoInnerQuote(s: seq<Unit>, n: nat)
    requires n < |[QUOTE] + EscapeAll(s) + [QUOTE]|
    ensures DecodeJsonString(([QUOTE] + EscapeAll(s) + [QUOTE])[..n]).None?
  {
    var body := EscapeAll(s) + [QUOTE];
    BodyReadsBack(s, [QUOTE], []);
    Regroup([QUOTE], EscapeAll(s), [QUOTE]);
    if n > 0 {
      NoEarlierEnd(body, n - 1);
      OpenedBody(body[..n - 1]);
      assert ([QUOTE] + body)[..n] == [QUOTE] + body[..n - 1];
    }
  }
}
