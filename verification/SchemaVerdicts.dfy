/**
  When the evaluation of a JSON Schema document ends: exactly if no definition leads back to itself
  through `$ref` and branch keywords alone, which look at the same value again.
 */
module SchemaVerdicts {
  import opened Prelude
  import opened JsonSchema

  // ------------------------------------------------------------------ guarded documents

  /** Every reference that `s` applies to the value it is itself applied to has a rank below `r`. */
  ghost predicate InPlaceBelow(s: Schema, rank: map<string, nat>, r: nat) {
    && (s.ref.Some? ==> s.ref.value in rank && rank[s.ref.value] < r)
    && forall i, j | 0 <= i < |s.branches| && 0 <= j < |s.branches[i].schemas| ::
       InPlaceBelow(s.branches[i].schemas[j], rank, r)
  }

  /** Every reference that `s` applies to the value it is itself applied to is in `named`. */
  ghost predicate InPlaceWithin(s: Schema, named: set<string>) {
    && (s.ref.Some? ==> s.ref.value in named)
    && forall i, j | 0 <= i < |s.branches| && 0 <= j < |s.branches[i].schemas| ::
       InPlaceWithin(s.branches[i].schemas[j], named)
  }

  /** Evaluating `s` reaches references in `any`, and on member names, which are strings, in `named`. */
  ghost predicate ReachesWithin(s: Schema, any: set<string>, named: set<string>) {
    && (s.ref.Some? ==> s.ref.value in any)
    && (forall k | k in s.properties :: ReachesWithin(s.properties[k], any, named))
    && (s.additional.Constrained? ==> ReachesWithin(s.additional.schema, any, named))
    && (s.names.Some? ==> InPlaceWithin(s.names.value, named))
    && (forall i | 0 <= i < |s.prefix| :: ReachesWithin(s.prefix[i], any, named))
    && (s.items.Some? ==> ReachesWithin(s.items.value, any, named))
    && forall i, j | 0 <= i < |s.branches| && 0 <= j < |s.branches[i].schemas| ::
       ReachesWithin(s.branches[i].schemas[j], any, named)
  }

  /** The definitions reached are ranked so that those applied to the same value get smaller: each cycle of
      references passes through a member or an item. Those in `any` are applied to any value, the other
      ranked ones to member names only. */
  ghost predicate Guarded(root: Schema, rank: map<string, nat>, any: set<string>) {
    && any <= rank.Keys <= DefsOf(root).Keys
    && ReachesWithin(root, any, rank.Keys)
    && (forall x | x in any :: ReachesWithin(DefsOf(root)[x], any, rank.Keys))
    && forall x | x in rank :: InPlaceBelow(DefsOf(root)[x], rank, rank[x])
  }

  ghost predicate IsGuarded(root: Schema) {
    exists rank, any :: Guarded(root, rank, any)
  }

  lemma {:induction false} RefsAreReached(s: Schema, c: set<string>)
    requires RefsWithin(s, c)
    ensures ReachesWithin(s, c, c) && InPlaceWithin(s, c)
  {
    forall k | k in s.properties ensures ReachesWithin(s.properties[k], c, c) { RefsAreReached(s.properties[k], c); }
    if s.additional.Constrained? { RefsAreReached(s.additional.schema, c); }
    if s.names.Some? { RefsAreReached(s.names.value, c); }
    forall i | 0 <= i < |s.prefix| ensures ReachesWithin(s.prefix[i], c, c) { RefsAreReached(s.prefix[i], c); }
    if s.items.Some? { RefsAreReached(s.items.value, c); }
    forall i, j | 0 <= i < |s.branches| && 0 <= j < |s.branches[i].schemas|
      ensures ReachesWithin(s.branches[i].schemas[j], c, c) && InPlaceWithin(s.branches[i].schemas[j], c)
    {
      assert BranchRefsWithin(s.branches[i], c);
      RefsAreReached(s.branches[i].schemas[j], c);
    }
  }

  lemma {:induction false} ReachedInPlace(s: Schema, any: set<string>, named: set<string>)
    requires ReachesWithin(s, any, named) && any <= named
    ensures InPlaceWithin(s, named)
  {
    forall i, j | 0 <= i < |s.branches| && 0 <= j < |s.branches[i].schemas|
      ensures InPlaceWithin(s.branches[i].schemas[j], named) {
      ReachedInPlace(s.branches[i].schemas[j], any, named);
    }
  }

  lemma {:induction false} RankedBelow(s: Schema, rank: map<string, nat>, bound: nat)
    requires InPlaceWithin(s, rank.Keys) && forall x | x in rank :: rank[x] < bound
    ensures InPlaceBelow(s, rank, bound)
  {
    forall i, j | 0 <= i < |s.branches| && 0 <= j < |s.branches[i].schemas|
      ensures InPlaceBelow(s.branches[i].schemas[j], rank, bound) {
      RankedBelow(s.branches[i].schemas[j], rank, bound);
    }
  }

  // ------------------------------------------------------------------ they decide every value

  ghost predicate Fits(v: Json, h: nat) {
    && (v.Obj? ==> forall k | k in v.fields :: h > 0 && Fits(v.fields[k], h - 1))
    && (v.Arr? ==> forall i | 0 <= i < |v.items| :: h > 0 && Fits(v.items[i], h - 1))
  }

  ghost function Budget(bound: nat, h: nat): nat {
    if h == 0 then 0 else bound + Budget(bound, h - 1)
  }

  lemma {:induction false} FitsMore(v: Json, h: nat, g: nat)
    requires Fits(v, h) && h <= g
    ensures Fits(v, g)
  {
    if v.Obj? {
      forall k | k in v.fields ensures g > 0 && Fits(v.fields[k], g - 1) { FitsMore(v.fields[k], h - 1, g - 1); }
    }
    if v.Arr? {
      forall i | 0 <= i < |v.items| ensures g > 0 && Fits(v.items[i], g - 1) { FitsMore(v.items[i], h - 1, g - 1); }
    }
  }

  lemma {:induction false} FitsSome(v: Json) returns (h: nat)
    ensures Fits(v, h)
    decreases v, 1, 0
  {
    if v.Obj? {
      h := FitsMembers(v, v.fields.Keys);
      h := h + 1;
    } else if v.Arr? {
      h := FitsItems(v, |v.items|);
      h := h + 1;
    } else {
      h := 0;
    }
  }

  lemma {:induction false} FitsMembers(v: Json, keys: set<string>) returns (h: nat)
    requires v.Obj? && keys <= v.fields.Keys
    ensures forall k | k in keys :: Fits(v.fields[k], h)
    decreases v, 0, |keys|
  {
    if keys == {} {
      h := 0;
    } else {
      var x :| x in keys;
      var g := FitsMembers(v, keys - {x});
      var hx := FitsSome(v.fields[x]);
      h := g + hx;
      forall k | k in keys ensures Fits(v.fields[k], h) {
        if k == x { FitsMore(v.fields[k], hx, h); } else { FitsMore(v.fields[k], g, h); }
      }
    }
  }

  lemma {:induction false} FitsItems(v: Json, n: nat) returns (h: nat)
    requires v.Arr? && n <= |v.items|
    ensures forall i | 0 <= i < n :: Fits(v.items[i], h)
    decreases v, 0, n
  {
    if n == 0 {
      h := 0;
    } else {
      var g := FitsItems(v, n - 1);
      var hx := FitsSome(v.items[n - 1]);
      h := g + hx;
      forall i | 0 <= i < n ensures Fits(v.items[i], h) {
        if i == n - 1 { FitsMore(v.items[i], hx, h); } else { FitsMore(v.items[i], g, h); }
      }
    }
  }

  /** The definitions are ranked. */
  ghost predicate Ranked(defs: Defs, rank: map<string, nat>) {
    rank.Keys <= defs.Keys && forall x | x in rank :: InPlaceBelow(defs[x], rank, rank[x])
  }

  lemma {:induction false} ScalarSettles(defs: Defs, rank: map<string, nat>, s: Schema, r: nat, v: Json, fuel: nat)
    requires Ranked(defs, rank) && InPlaceBelow(s, rank, r) && !v.Obj? && !v.Arr? && fuel >= r
    ensures Settled(defs, s, v, fuel)
    decreases r, s
  {
    if s.ref.Some? {
      var x := s.ref.value;
      ScalarSettles(defs, rank, defs[x], rank[x], v, fuel - 1);
    }
    forall i | 0 <= i < |s.branches| ensures SettledBranch(defs, s.branches[i], v, fuel) {
      forall j | 0 <= j < |s.branches[i].schemas| ensures Settled(defs, s.branches[i].schemas[j], v, fuel) {
        ScalarSettles(defs, rank, s.branches[i].schemas[j], r, v, fuel);
      }
    }
  }

  /** What `GuardedSettles` is about. */
  ghost predicate Ready(
    root: Schema, rank: map<string, nat>, any: set<string>, bound: nat, s: Schema, r: nat, v: Json, h: nat, fuel: nat) {
    && Guarded(root, rank, any) && (forall x | x in rank :: rank[x] < bound)
    && ReachesWithin(s, any, rank.Keys) && InPlaceBelow(s, rank, r) && Fits(v, h)
    && fuel >= r + Budget(bound, h)
  }

  lemma OneLevelDown(
    root: Schema, rank: map<string, nat>, any: set<string>, bound: nat, s: Schema, v: Json, h: nat, fuel: nat)
    requires Guarded(root, rank, any) && (forall x | x in rank :: rank[x] < bound)
    requires ReachesWithin(s, any, rank.Keys) && h > 0 && Fits(v, h - 1) && fuel >= Budget(bound, h)
    ensures Ready(root, rank, any, bound, s, bound, v, h - 1, fuel)
  {
    ReachedInPlace(s, any, rank.Keys);
    RankedBelow(s, rank, bound);
  }

  lemma {:induction false} GuardedSettles(
    root: Schema, rank: map<string, nat>, any: set<string>, bound: nat, s: Schema, r: nat, v: Json, h: nat, fuel: nat)
    requires Ready(root, rank, any, bound, s, r, v, h, fuel)
    ensures Settled(DefsOf(root), s, v, fuel)
    decreases h, r, s, 1
  {
    var defs := DefsOf(root);
    if s.ref.Some? {
      var x := s.ref.value;
      GuardedSettles(root, rank, any, bound, defs[x], rank[x], v, h, fuel - 1);
    }
    if v.Obj? {
      GuardedMembersSettle(root, rank, any, bound, s, v, h, fuel);
    }
    if v.Arr? {
      forall i | 0 <= i < |v.items| && ItemSchema(s, i).Some?
        ensures Settled(defs, ItemSchema(s, i).value, v.items[i], fuel) {
        OneLevelDown(root, rank, any, bound, ItemSchema(s, i).value, v.items[i], h, fuel);
        GuardedSettles(root, rank, any, bound, ItemSchema(s, i).value, bound, v.items[i], h - 1, fuel);
      }
    }
    forall i | 0 <= i < |s.branches| ensures SettledBranch(defs, s.branches[i], v, fuel) {
      forall j | 0 <= j < |s.branches[i].schemas| ensures Settled(defs, s.branches[i].schemas[j], v, fuel) {
        GuardedSettles(root, rank, any, bound, s.branches[i].schemas[j], r, v, h, fuel);
      }
    }
  }

  lemma {:induction false} GuardedMembersSettle(
    root: Schema, rank: map<string, nat>, any: set<string>, bound: nat, s: Schema, v: Json, h: nat, fuel: nat)
    requires v.Obj? && Guarded(root, rank, any) && (forall x | x in rank :: rank[x] < bound)
    requires ReachesWithin(s, any, rank.Keys) && Fits(v, h) && fuel >= Budget(bound, h)
    ensures SettledMembers(DefsOf(root), s, v.fields, fuel)
    decreases h, 0, s, 0
  {
    var defs := DefsOf(root);
    forall k | k in v.fields
      ensures MemberSchema(s, k).Some? ==> Settled(defs, MemberSchema(s, k).value, v.fields[k], fuel)
      ensures s.names.Some? ==> Settled(defs, s.names.value, Str(k), fuel)
    {
      if MemberSchema(s, k).Some? {
        OneLevelDown(root, rank, any, bound, MemberSchema(s, k).value, v.fields[k], h, fuel);
        GuardedSettles(root, rank, any, bound, MemberSchema(s, k).value, bound, v.fields[k], h - 1, fuel);
      }
      if s.names.Some? {
        RankedBelow(s.names.value, rank, bound);
        ScalarSettles(defs, rank, s.names.value, bound, Str(k), fuel);
      }
    }
  }

  lemma {:induction false} RankBound(rank: map<string, nat>, keys: set<string>) returns (bound: nat)
    requires keys <= rank.Keys
    ensures forall x | x in keys :: rank[x] < bound
    decreases |keys|
  {
    if keys == {} {
      bound := 0;
    } else {
      var x :| x in keys;
      var b := RankBound(rank, keys - {x});
      bound := b + rank[x] + 1;
    }
  }

  /** Some amount of fuel decides `s` on `v`. */
  ghost predicate Decided(defs: Defs, s: Schema, v: Json) {
    exists fuel: nat :: Settled(defs, s, v, fuel)
  }

  ghost predicate AlwaysDecided(defs: Defs, s: Schema) {
    forall v :: Decided(defs, s, v)
  }

  ghost predicate DecidedOnText(defs: Defs, s: Schema) {
    forall k :: Decided(defs, s, Str(k))
  }

  lemma GuardedIsDecided(root: Schema, rank: map<string, nat>, any: set<string>, s: Schema)
    requires Guarded(root, rank, any) && ReachesWithin(s, any, rank.Keys)
    ensures AlwaysDecided(DefsOf(root), s)
  {
    var bound := RankBound(rank, rank.Keys);
    ReachedInPlace(s, any, rank.Keys);
    RankedBelow(s, rank, bound);
    forall v ensures Decided(DefsOf(root), s, v) {
      var h := FitsSome(v);
      GuardedSettles(root, rank, any, bound, s, bound, v, h, bound + Budget(bound, h));
    }
  }

  lemma DecidedHasVerdict(sat: Oracle, root: Schema, v: Json)
    ensures Decided(DefsOf(root), root, v) <==> Valid(sat, root, v) || Invalid(sat, root, v)
  {
    if fuel: nat :| Settled(DefsOf(root), root, v, fuel) {
      assert AcceptedWith(sat, root, v, fuel) || RejectedWith(sat, root, v, fuel);
    }
    if fuel: nat :| AcceptedWith(sat, root, v, fuel) {
      assert Settled(DefsOf(root), root, v, fuel);
    }
    if fuel: nat :| RejectedWith(sat, root, v, fuel) {
      assert Settled(DefsOf(root), root, v, fuel);
    }
  }

  /** A guarded document decides every value, however its definitions refer to each other. */
  lemma GuardedDecides(sat: Oracle, root: Schema, v: Json)
    requires IsGuarded(root)
    ensures Valid(sat, root, v) <==> !Invalid(sat, root, v)
  {
    var rank, any :| Guarded(root, rank, any);
    GuardedIsDecided(root, rank, any, root);
    assert Decided(DefsOf(root), root, v);
    DecidedHasVerdict(sat, root, v);
    VerdictIsUnique(sat, root, v);
  }

  // ------------------------------------------------------------------ and only they do

  ghost function LeastFuel(defs: Defs, s: Schema, v: Json, enough: nat): (n: nat)
    requires Settled(defs, s, v, enough)
    ensures n <= enough && Settled(defs, s, v, n)
    ensures forall m: nat | m < n :: !Settled(defs, s, v, m)
  {
    if m: nat :| m < enough && Settled(defs, s, v, m) then LeastFuel(defs, s, v, m) else enough
  }

  lemma {:induction false} LongerThanAll(keys: set<string>) returns (n: nat)
    ensures forall k | k in keys :: |k| < n
    decreases |keys|
  {
    if keys == {} {
      n := 0;
    } else {
      var x :| x in keys;
      var m := LongerThanAll(keys - {x});
      n := m + |x| + 1;
    }
  }

  lemma UnlistedKey(keys: set<string>) returns (k: string)
    ensures k !in keys
  {
    var n := LongerThanAll(keys);
    k := seq(n, i => 'x');
  }

  /** A schema that decides every value decides every value at each place it applies a schema to. */
  lemma ReferenceDecided(defs: Defs, s: Schema)
    requires AlwaysDecided(defs, s) && s.ref.Some? && s.ref.value in defs
    ensures AlwaysDecided(defs, defs[s.ref.value])
  {
    forall v ensures Decided(defs, defs[s.ref.value], v) {
      assert Decided(defs, s, v);
      var fuel: nat :| Settled(defs, s, v, fuel);
      assert Settled(defs, defs[s.ref.value], v, fuel - 1);
    }
  }

  lemma MemberDecided(defs: Defs, s: Schema, k: string)
    requires AlwaysDecided(defs, s) && MemberSchema(s, k).Some?
    ensures AlwaysDecided(defs, MemberSchema(s, k).value)
  {
    forall w ensures Decided(defs, MemberSchema(s, k).value, w) {
      var v := Obj(map[k := w]);
      assert Decided(defs, s, v);
      var fuel: nat :| Settled(defs, s, v, fuel);
      assert SettledMembers(defs, s, v.fields, fuel) && k in v.fields;
    }
  }

  lemma NamesDecided(defs: Defs, s: Schema)
    requires AlwaysDecided(defs, s) && s.names.Some?
    ensures DecidedOnText(defs, s.names.value)
  {
    forall k ensures Decided(defs, s.names.value, Str(k)) {
      var v := Obj(map[k := Null]);
      assert Decided(defs, s, v);
      var fuel: nat :| Settled(defs, s, v, fuel);
      assert SettledMembers(defs, s, v.fields, fuel) && k in v.fields;
    }
  }

  lemma ItemDecided(defs: Defs, s: Schema, i: nat)
    requires AlwaysDecided(defs, s) && ItemSchema(s, i).Some?
    ensures AlwaysDecided(defs, ItemSchema(s, i).value)
  {
    forall w ensures Decided(defs, ItemSchema(s, i).value, w) {
      var v := Arr(seq(i, j => Null) + [w]);
      assert Decided(defs, s, v);
      var fuel: nat :| Settled(defs, s, v, fuel);
      assert SettledItems(defs, s, v.items, fuel) && v.items[i] == w;
    }
  }

  lemma BranchDecided(defs: Defs, s: Schema, i: nat, j: nat, v: Json)
    requires Decided(defs, s, v) && i < |s.branches| && j < |s.branches[i].schemas|
    ensures Decided(defs, s.branches[i].schemas[j], v)
  {
    var fuel: nat :| Settled(defs, s, v, fuel);
    assert SettledBranches(defs, s, v, fuel);
    assert SettledBranch(defs, s.branches[i], v, fuel);
  }

  /** So what it reaches are definitions that decide every value, or every string. */
  lemma {:induction false} TextRefsAreDecided(defs: Defs, s: Schema, c: set<string>, named: set<string>)
    requires RefsWithin(s, c) && c <= defs.Keys && DecidedOnText(defs, s)
    requires forall x | x in c && DecidedOnText(defs, defs[x]) :: x in named
    ensures InPlaceWithin(s, named)
  {
    if s.ref.Some? {
      forall k ensures Decided(defs, defs[s.ref.value], Str(k)) {
        assert Decided(defs, s, Str(k));
        var fuel: nat :| Settled(defs, s, Str(k), fuel);
        assert Settled(defs, defs[s.ref.value], Str(k), fuel - 1);
      }
    }
    forall i, j | 0 <= i < |s.branches| && 0 <= j < |s.branches[i].schemas|
      ensures InPlaceWithin(s.branches[i].schemas[j], named) {
      assert BranchRefsWithin(s.branches[i], c);
      forall k ensures Decided(defs, s.branches[i].schemas[j], Str(k)) {
        BranchDecided(defs, s, i, j, Str(k));
      }
      TextRefsAreDecided(defs, s.branches[i].schemas[j], c, named);
    }
  }

  lemma {:induction false} RefsAreDecided(defs: Defs, s: Schema, c: set<string>, any: set<string>, named: set<string>)
    requires RefsWithin(s, c) && c <= defs.Keys && AlwaysDecided(defs, s)
    requires forall x | x in c && AlwaysDecided(defs, defs[x]) :: x in any
    requires forall x | x in c && DecidedOnText(defs, defs[x]) :: x in named
    ensures ReachesWithin(s, any, named)
  {
    if s.ref.Some? {
      ReferenceDecided(defs, s);
    }
    forall k | k in s.properties ensures ReachesWithin(s.properties[k], any, named) {
      MemberDecided(defs, s, k);
      RefsAreDecided(defs, s.properties[k], c, any, named);
    }
    if s.additional.Constrained? {
      var k := UnlistedKey(s.properties.Keys);
      MemberDecided(defs, s, k);
      RefsAreDecided(defs, s.additional.schema, c, any, named);
    }
    if s.names.Some? {
      NamesDecided(defs, s);
      TextRefsAreDecided(defs, s.names.value, c, named);
    }
    forall i | 0 <= i < |s.prefix| ensures ReachesWithin(s.prefix[i], any, named) {
      ItemDecided(defs, s, i);
      RefsAreDecided(defs, s.prefix[i], c, any, named);
    }
    if s.items.Some? {
      ItemDecided(defs, s, |s.prefix|);
      RefsAreDecided(defs, s.items.value, c, any, named);
    }
    forall i, j | 0 <= i < |s.branches| && 0 <= j < |s.branches[i].schemas|
      ensures ReachesWithin(s.branches[i].schemas[j], any, named) {
      assert BranchRefsWithin(s.branches[i], c);
      forall v ensures Decided(defs, s.branches[i].schemas[j], v) {
        BranchDecided(defs, s, i, j, v);
      }
      RefsAreDecided(defs, s.branches[i].schemas[j], c, any, named);
    }
  }

  const EMPTY_TEXT: Json := Str("")

  /** On a string only references and branches are followed, so the fuel it takes ranks them. */
  lemma {:induction false} SettledOnTextIsBelow(defs: Defs, s: Schema, rank: map<string, nat>, n: nat)
    requires InPlaceWithin(s, rank.Keys) && rank.Keys <= defs.Keys && Settled(defs, s, EMPTY_TEXT, n)
    requires forall x, m: nat | x in rank && Settled(defs, defs[x], EMPTY_TEXT, m) :: rank[x] <= m
    ensures InPlaceBelow(s, rank, n)
  {
    forall i, j | 0 <= i < |s.branches| && 0 <= j < |s.branches[i].schemas|
      ensures InPlaceBelow(s.branches[i].schemas[j], rank, n) {
      assert SettledBranch(defs, s.branches[i], EMPTY_TEXT, n);
      SettledOnTextIsBelow(defs, s.branches[i].schemas[j], rank, n);
    }
  }

  lemma RanksOfDecided(defs: Defs, named: set<string>) returns (rank: map<string, nat>)
    requires named <= defs.Keys && forall x | x in named :: DecidedOnText(defs, defs[x])
    ensures rank.Keys == named
    ensures forall x | x in named :: Settled(defs, defs[x], EMPTY_TEXT, rank[x])
    ensures forall x, m: nat | x in named && Settled(defs, defs[x], EMPTY_TEXT, m) :: rank[x] <= m
    decreases |named|
  {
    if named == {} {
      rank := map[];
    } else {
      var x :| x in named;
      var rest := RanksOfDecided(defs, named - {x});
      assert Decided(defs, defs[x], EMPTY_TEXT);
      var enough: nat :| Settled(defs, defs[x], EMPTY_TEXT, enough);
      rank := rest[x := LeastFuel(defs, defs[x], EMPTY_TEXT, enough)];
    }
  }

  lemma DecidedIsDecidedOnText(defs: Defs, s: Schema)
    requires AlwaysDecided(defs, s)
    ensures DecidedOnText(defs, s)
  {
    forall k ensures Decided(defs, s, Str(k)) {
      var v := Str(k);
      assert Decided(defs, s, v);
    }
  }

  lemma RanksAreRanks(defs: Defs, named: set<string>) returns (rank: map<string, nat>)
    requires named <= defs.Keys
    requires forall x | x in named :: DecidedOnText(defs, defs[x]) && InPlaceWithin(defs[x], named)
    ensures rank.Keys == named && Ranked(defs, rank)
  {
    rank := RanksOfDecided(defs, named);
    forall x | x in rank ensures InPlaceBelow(defs[x], rank, rank[x]) {
      SettledOnTextIsBelow(defs, defs[x], rank, rank[x]);
    }
  }

  /** A document that decides every value is guarded. */
  lemma DecidedIsGuarded(root: Schema, c: set<string>)
    requires Resolved(DefsOf(root), root, c) && AlwaysDecided(DefsOf(root), root)
    ensures IsGuarded(root)
  {
    var defs := DefsOf(root);
    var any := set x | x in c && AlwaysDecided(defs, defs[x]);
    var named := set x | x in c && DecidedOnText(defs, defs[x]);
    RefsAreDecided(defs, root, c, any, named);
    forall x | x in any ensures x in named && ReachesWithin(defs[x], any, named) {
      DecidedIsDecidedOnText(defs, defs[x]);
      RefsAreDecided(defs, defs[x], c, any, named);
    }
    forall x | x in named ensures InPlaceWithin(defs[x], named) {
      TextRefsAreDecided(defs, defs[x], c, named);
    }
    var rank := RanksAreRanks(defs, named);
    assert Guarded(root, rank, any);
  }

  /** A document whose references resolve decides every value exactly if it is guarded. */
  lemma DecidesAllIffGuarded(sat: Oracle, root: Schema, c: set<string>)
    requires Resolved(DefsOf(root), root, c)
    ensures (forall v :: Valid(sat, root, v) || Invalid(sat, root, v)) <==> IsGuarded(root)
  {
    if IsGuarded(root) {
      forall v ensures Valid(sat, root, v) || Invalid(sat, root, v) {
        GuardedDecides(sat, root, v);
      }
    }
    if forall v :: Valid(sat, root, v) || Invalid(sat, root, v) {
      forall v ensures Decided(DefsOf(root), root, v) {
        DecidedHasVerdict(sat, root, v);
      }
      DecidedIsGuarded(root, c);
    }
  }

  /** The same, definition by definition: a closed set of them can be ranked iff each decides every value. */
  lemma DefinitionsDecideIffGuarded(root: Schema, c: set<string>)
    requires Resolved(DefsOf(root), root, c)
    ensures (exists rank: map<string, nat> :: rank.Keys == c && Guarded(root, rank, c)) <==>
            forall x | x in c :: AlwaysDecided(DefsOf(root), DefsOf(root)[x])
  {
    var defs := DefsOf(root);
    if rank: map<string, nat> :| rank.Keys == c && Guarded(root, rank, c) {
      forall x | x in c ensures AlwaysDecided(defs, defs[x]) {
        GuardedIsDecided(root, rank, c, defs[x]);
      }
    }
    if forall x | x in c :: AlwaysDecided(defs, defs[x]) {
      RefsAreReached(root, c);
      forall x | x in c ensures DecidedOnText(defs, defs[x]) && ReachesWithin(defs[x], c, c) &&
        InPlaceWithin(defs[x], c) {
        DecidedIsDecidedOnText(defs, defs[x]);
        RefsAreReached(defs[x], c);
      }
      var rank := RanksAreRanks(defs, c);
      assert Guarded(root, rank, c);
    }
  }

  lemma {:induction false} LoopNeverSettles(defs: Defs, loop: Schema, back: Schema, v: Json, fuel: nat)
    requires back == ANYTHING.(ref := Some("A")) && loop == ANYTHING.(branches := [Branch(AnyOf, [back])])
    requires "A" in defs && defs["A"] == loop
    ensures !Settled(defs, loop, v, fuel)
    decreases fuel
  {
    if Settled(defs, loop, v, fuel) {
      assert SettledBranches(defs, loop, v, fuel);
      assert SettledBranch(defs, loop.branches[0], v, fuel);
      assert Settled(defs, loop.branches[0].schemas[0], v, fuel);
      LoopNeverSettles(defs, loop, back, v, fuel - 1);
    }
  }

  /** Without the guard there may be no verdict: a definition whose `anyOf` goes straight back to
      itself compiles, yet no amount of fuel decides any value. */
  lemma UnguardedCycleHasNoVerdict(sat: Oracle, ok: string -> bool, v: Json)
    ensures
      var back := ANYTHING.(ref := Some("A"));
      var root := ANYTHING.(defs := Definitions(map["A" := ANYTHING.(branches := [Branch(AnyOf, [back])])]),
        ref := Some("A"));
      Compiles(ok, root) && !Valid(sat, root, v) && !Invalid(sat, root, v)
  {
    var back := ANYTHING.(ref := Some("A"));
    var loop := ANYTHING.(branches := [Branch(AnyOf, [back])]);
    var root := ANYTHING.(defs := Definitions(map["A" := loop]), ref := Some("A"));
    assert Resolved(DefsOf(root), root, {"A"}) by {
      assert RefsWithin(back, {"A"});
    }
    assert WellFormed(ok, back);
    assert WellFormed(ok, loop);
    forall fuel: nat ensures !Settled(DefsOf(root), root, v, fuel) {
      if fuel > 0 {
        LoopNeverSettles(DefsOf(root), loop, back, v, fuel - 1);
      }
    }
  }
}
