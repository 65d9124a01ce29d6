/** Small vocabulary shared by the models: optional values, decimal numerals, text and its separators, and what
    filtering a list keeps. */
module Prelude {
  datatype Option<+T> = None | Some(value: T)

  /** No element occurs twice. */
  ghost predicate Distinct<T(!new)>(s: seq<T>) {
    forall i, j :: 0 <= i < j < |s| ==> s[i] != s[j]
  }

  function DigitChar(d: nat): char
    requires d < 10
  {
    '0' + d as char
  }

  /** The decimal numeral of n, as a template literal or str() prints a natural number. */
  function Decimal(n: nat): (s: string)
    ensures s != "" && forall c :: c in s ==> '0' <= c <= '9'
  {
    if n < 10 then [DigitChar(n)] else Decimal(n / 10) + [DigitChar(n % 10)]
  }

  /** The number a string of digits denotes. */
  function DecimalValue(s: string): int {
    if s == "" then 0
    else 10 * DecimalValue(s[..|s| - 1]) + (s[|s| - 1] as int - '0' as int)
  }

  lemma {:induction false} DecimalRoundTrip(n: nat)
    ensures DecimalValue(Decimal(n)) == n
  {
    if n < 10 {
      assert Decimal(n)[..0] == "";
    } else {
      DecimalRoundTrip(n / 10);
      assert Decimal(n)[..|Decimal(n)| - 1] == Decimal(n / 10);
    }
  }

  /** The first position of c in s at or after i: the `indexOf` of strings. */
  function IndexOf<T(==)>(s: seq<T>, c: T, i: nat): (r: Option<nat>)
    ensures r.Some? ==> i <= r.value < |s| && s[r.value] == c && forall j :: i <= j < r.value ==> s[j] != c
    ensures r.None? ==> forall j :: i <= j < |s| ==> s[j] != c
    decreases |s| - i
  {
    if i >= |s| then None
    else if s[i] == c then Some(i)
    else IndexOf(s, c, i + 1)
  }

  lemma SeparatorAt(a: string, x: string, sep: char)
    requires sep !in a
    ensures IndexOf(a + [sep] + x, sep, 0) == Some(|a|)
  {
    var s := a + [sep] + x;
    assert s[|a|] == sep;
    assert forall j :: 0 <= j < |a| ==> s[j] == a[j];
  }

  /** Text before the first separator is determined when neither head contains it. */
  lemma SplitUnique(a: string, x: string, b: string, y: string, sep: char)
    requires sep !in a && sep !in b
    requires a + [sep] + x == b + [sep] + y
    ensures a == b && x == y
  {
    var s := a + [sep] + x;
    SeparatorAt(a, x, sep);
    SeparatorAt(b, y, sep);
    assert s == b + [sep] + y;
    assert a == s[..|a|] && b == s[..|b|];
    assert x == s[|a| + 1..] && y == s[|b| + 1..];
  }

  /** The parts with a separator between them. */
  function Join(parts: seq<string>, separator: string): string {
    if parts == [] then ""
    else if |parts| == 1 then parts[0]
    else parts[0] + separator + Join(parts[1..], separator)
  }

  // ------------------------------------------------------------------ sequences

  /** The elements satisfying p, in order. */
  function Filter<T(!new)>(p: T -> bool, s: seq<T>): (r: seq<T>)
    ensures forall x :: x in r <==> x in s && p(x)
  {
    if s == [] then []
    else
      var kept := Filter(p, s[..|s| - 1]);
      var x := s[|s| - 1];
      assert s == s[..|s| - 1] + [x];
      if p(x) then kept + [x] else kept
  }

  /** s is an order-preserving interleaving of a and b. */
  ghost predicate IsMerge<T(!new)>(a: seq<T>, b: seq<T>, s: seq<T>)
    decreases |s|
  {
    if s == [] then a == [] && b == []
    else
      var n := |s| - 1;
      || (a != [] && a[|a| - 1] == s[n] && IsMerge(a[..|a| - 1], b, s[..n]))
      || (b != [] && b[|b| - 1] == s[n] && IsMerge(a, b[..|b| - 1], s[..n]))
  }

  lemma {:induction false} FilterPartitions<T(!new)>(p: T -> bool, q: T -> bool, s: seq<T>)
    requires forall x :: p(x) <==> !q(x)
    ensures IsMerge(Filter(p, s), Filter(q, s), s)
  {
    if s != [] {
      FilterPartitions(p, q, s[..|s| - 1]);
      var a, b := Filter(p, s), Filter(q, s);
      if p(s[|s| - 1]) {
        assert a[..|a| - 1] == Filter(p, s[..|s| - 1]);
      } else {
        assert b[..|b| - 1] == Filter(q, s[..|s| - 1]);
      }
    }
  }

  /** What two exclusive conditions select, put back together in order. */
  lemma {:induction false} FilterMerges<T(!new)>(p: T -> bool, q: T -> bool, either: T -> bool, s: seq<T>)
    requires forall x :: !(p(x) && q(x)) && (either(x) <==> p(x) || q(x))
    ensures IsMerge(Filter(p, s), Filter(q, s), Filter(either, s))
  {
    if s != [] {
      FilterMerges(p, q, either, s[..|s| - 1]);
      var a, b, m := Filter(p, s), Filter(q, s), Filter(either, s);
      if p(s[|s| - 1]) {
        assert a[..|a| - 1] == Filter(p, s[..|s| - 1]) && m[..|m| - 1] == Filter(either, s[..|s| - 1]);
      } else if q(s[|s| - 1]) {
        assert b[..|b| - 1] == Filter(q, s[..|s| - 1]) && m[..|m| - 1] == Filter(either, s[..|s| - 1]);
      }
    }
  }

  lemma {:induction false} MergeHasBoth<T(!new)>(a: seq<T>, b: seq<T>, s: seq<T>)
    requires IsMerge(a, b, s)
    ensures |s| == |a| + |b|
    ensures forall x :: x in s <==> x in a || x in b
    decreases |s|
  {
    if s != [] {
      var n := |s| - 1;
      if a != [] && a[|a| - 1] == s[n] && IsMerge(a[..|a| - 1], b, s[..n]) {
        MergeHasBoth(a[..|a| - 1], b, s[..n]);
        assert a == a[..|a| - 1] + [a[|a| - 1]];
      } else {
        MergeHasBoth(a, b[..|b| - 1], s[..n]);
        assert b == b[..|b| - 1] + [b[|b| - 1]];
      }
      assert s == s[..n] + [s[n]];
    }
  }

  lemma {:induction false} FilterSame<T(!new)>(p: T -> bool, q: T -> bool, s: seq<T>)
    requires forall x :: x in s ==> (p(x) <==> q(x))
    ensures Filter(p, s) == Filter(q, s)
  {
    if s != [] {
      FilterSame(p, q, s[..|s| - 1]);
      assert s[|s| - 1] in s;
    }
  }

  lemma {:induction false} FilterTwice<T(!new)>(p: T -> bool, q: T -> bool, both: T -> bool, s: seq<T>)
    requires forall x :: both(x) <==> p(x) && q(x)
    ensures Filter(q, Filter(p, s)) == Filter(both, s)
  {
    if s != [] {
      FilterTwice(p, q, both, s[..|s| - 1]);
      var a := Filter(p, s);
      if p(s[|s| - 1]) {
        assert a[..|a| - 1] == Filter(p, s[..|s| - 1]);
      }
    }
  }

  /** Where p holds. */
  function Positions<T(!new)>(p: T -> bool, s: seq<T>): set<nat> {
    set i: nat | i < |s| && p(s[i])
  }

  lemma OneMorePosition<T(!new)>(p: T -> bool, s: seq<T>)
    requires s != []
    ensures var n := |s| - 1; Positions(p, s) == Positions(p, s[..n]) + (if p(s[n]) then {n} else {})
  {
    assert forall i | 0 <= i < |s| - 1 :: s[..|s| - 1][i] == s[i];
  }

  lemma {:induction false} FilterCounts<T(!new)>(p: T -> bool, s: seq<T>)
    ensures |Filter(p, s)| == |Positions(p, s)|
  {
    if s != [] {
      FilterCounts(p, s[..|s| - 1]);
      OneMorePosition(p, s);
    }
  }
}
