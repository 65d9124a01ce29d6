/**
  Completeness verdicts and waivers (contracts/completeness.mjs).

  A waiver is recorded for one {code, subject} pair and may expire. The lemmas say which warnings a
  list of waivers covers, that this is exact and never a wildcard, and how it moves with the clock.
 */
module Completeness {
  import opened Prelude
  import opened ContractModel
  import opened WarningCodes

  // ------------------------------------------------------------------ waiver keys

  datatype Expiry = Never | Unparsable | At(time: int)

  /** One entry of a resolution file; its code is whatever text the file holds. */
  datatype Waiver = Waiver(code: string, subject: Option<string>, expiry: Expiry)

  /** What `subject ?? '*'` compares. */
  function Subject(s: Option<string>): string {
    match s
    case None => "*"
    case Some(text) => text
  }

  function KeyOf(code: string, subject: Option<string>): string {
    code + "::" + Subject(subject)
  }

  function WarningKey(names: Naming, w: Warning): string {
    KeyOf(names(w.code), w.subject)
  }

  function WaiverKey(w: Waiver): string {
    KeyOf(w.code, w.subject)
  }

  /** For codes without a colon (the resolution file only admits CONTRACT_[A-Z_]+), two keys are equal
      exactly when the codes are equal and so are the subjects, a missing one standing for '*'. */
  lemma KeysAreExact(code: string, subject: Option<string>, code': string, subject': Option<string>)
    requires ':' !in code && ':' !in code'
    ensures KeyOf(code, subject) == KeyOf(code', subject') <==> code == code' && Subject(subject) == Subject(subject')
  {
    if KeyOf(code, subject) == KeyOf(code', subject') {
      assert KeyOf(code, subject) == code + [':'] + (":" + Subject(subject));
      assert KeyOf(code', subject') == code' + [':'] + (":" + Subject(subject'));
      SplitUnique(code, ":" + Subject(subject), code', ":" + Subject(subject'), ':');
      assert (":" + Subject(subject))[1..] == Subject(subject);
      assert (":" + Subject(subject'))[1..] == Subject(subject');
    }
  }

  /** Subjects are alike iff they are the same or both stand for none, which is also written '*'. */
  lemma AlikeIff(code: string, a: Option<string>, b: Option<string>)
    ensures KeyOf(code, a) == KeyOf(code, b) <==> a == b || (a in {None, Some("*")} && b in {None, Some("*")})
  {
    if KeyOf(code, a) == KeyOf(code, b) {
      assert Subject(a) == KeyOf(code, a)[|code| + 2..] == KeyOf(code, b)[|code| + 2..] == Subject(b);
    }
  }

  // ------------------------------------------------------------------ verdicts

  function Classify(operations: map<string, Operation>, warnings: seq<Warning>): Status {
    if |operations| == 0 then Blocked
    else if exists w :: w in warnings && w.severity == Error then Partial
    else Complete
  }

  predicate IsExpired(w: Waiver, now: int) {
    w.expiry.At? && w.expiry.time <= now
  }

  datatype Evaluation = Evaluation(
    status: Status,
    blocking: bool,
    unwaived: seq<Warning>,
    waived: seq<Warning>,
    staleWaivers: seq<Waiver>,
    expiredWaivers: seq<Waiver>)

  function KeysOf(waivers: seq<Waiver>): set<string> {
    set w | w in waivers :: WaiverKey(w)
  }

  function ExpiredKeys(waivers: seq<Waiver>, now: int): set<string> {
    KeysOf(Filter((w: Waiver) => IsExpired(w, now), waivers))
  }

  function WaivedKeys(waivers: seq<Waiver>, now: int): set<string> {
    KeysOf(Filter((w: Waiver) => WaiverKey(w) !in ExpiredKeys(waivers, now), waivers))
  }

  function ErrorWarnings(warnings: seq<Warning>): seq<Warning> {
    Filter((w: Warning) => w.severity == Error, warnings)
  }

  function EvaluateResolution(names: Naming, contract: Contract, waivers: seq<Waiver>, now: int): Evaluation {
    var status := Classify(contract.operations, contract.warnings);
    var waivedKeys := WaivedKeys(waivers, now);
    var errorWarnings := ErrorWarnings(contract.warnings);
    var unwaived := Filter((w: Warning) => WarningKey(names, w) !in waivedKeys, errorWarnings);
    var waived := Filter((w: Warning) => WarningKey(names, w) in waivedKeys, errorWarnings);
    var currentErrorKeys := set w | w in errorWarnings :: WarningKey(names, w);
    var staleWaivers := Filter((w: Waiver) => WaiverKey(w) !in currentErrorKeys, waivers);
    Evaluation(status, status == Blocked || |unwaived| > 0, unwaived, waived, staleWaivers,
               Filter((w: Waiver) => IsExpired(w, now), waivers))
  }

  // ------------------------------------------------------------------ what is covered

  /** Some waiver has this key, and no waiver with this key has expired. */
  ghost predicate Covers(waivers: seq<Waiver>, now: int, key: string) {
    && (exists w :: w in waivers && WaiverKey(w) == key)
    && (forall w :: w in waivers && WaiverKey(w) == key ==> !IsExpired(w, now))
  }

  lemma ExpiredKeysAre(waivers: seq<Waiver>, now: int, key: string)
    ensures key in ExpiredKeys(waivers, now) <==> exists w :: w in waivers && WaiverKey(w) == key && IsExpired(w, now)
  {
    var expired := Filter((w: Waiver) => IsExpired(w, now), waivers);
    forall w | w in waivers && WaiverKey(w) == key && IsExpired(w, now) ensures key in ExpiredKeys(waivers, now) {
      assert w in expired;
    }
  }

  lemma WaivedKeysAreTheCovered(waivers: seq<Waiver>, now: int, key: string)
    ensures key in WaivedKeys(waivers, now) <==> Covers(waivers, now, key)
  {
    ExpiredKeysAre(waivers, now, key);
    var live := Filter((w: Waiver) => WaiverKey(w) !in ExpiredKeys(waivers, now), waivers);
    if Covers(waivers, now, key) {
      var w :| w in waivers && WaiverKey(w) == key;
      assert w in live;
    }
  }

  /** The error warnings split, in their own order, into those that are waived and those that are
      not, and a warning is waived exactly when a waiver covers its key. */
  lemma WaiversPartitionErrors(names: Naming, contract: Contract, waivers: seq<Waiver>, now: int)
    ensures
      var e := EvaluateResolution(names, contract, waivers, now);
      && IsMerge(e.waived, e.unwaived, ErrorWarnings(contract.warnings))
      && (forall w :: w in e.waived ==> Covers(waivers, now, WarningKey(names, w)))
      && (forall w :: w in e.unwaived ==> !Covers(waivers, now, WarningKey(names, w)))
  {
    var keys := WaivedKeys(waivers, now);
    forall w: Warning ensures WarningKey(names, w) in keys <==> Covers(waivers, now, WarningKey(names, w)) {
      WaivedKeysAreTheCovered(waivers, now, WarningKey(names, w));
    }
    FilterPartitions((w: Warning) => WarningKey(names, w) in keys, (w: Warning) => WarningKey(names, w) !in keys,
      ErrorWarnings(contract.warnings));
  }

  /** The contract blocks iff it has no operation or some error warning that no waiver covers. */
  lemma BlocksIff(names: Naming, contract: Contract, waivers: seq<Waiver>, now: int)
    ensures EvaluateResolution(names, contract, waivers, now).blocking <==>
      || contract.operations == map[]
      || exists w :: w in contract.warnings && w.severity == Error && !Covers(waivers, now, WarningKey(names, w))
  {
    var e := EvaluateResolution(names, contract, waivers, now);
    var keys := WaivedKeys(waivers, now);
    forall w: Warning ensures WarningKey(names, w) in keys <==> Covers(waivers, now, WarningKey(names, w)) {
      WaivedKeysAreTheCovered(waivers, now, WarningKey(names, w));
    }
    if e.unwaived != [] {
      var w := e.unwaived[0];
      assert w in e.unwaived;
      assert w in ErrorWarnings(contract.warnings);
    }
    if w :| w in contract.warnings && w.severity == Error && !Covers(waivers, now, WarningKey(names, w)) {
      assert w in ErrorWarnings(contract.warnings);
      assert w in e.unwaived;
    }
  }

  /** Two lists of waivers that cover the same error warnings give the same two lists and verdict. */
  lemma SameCover(names: Naming, contract: Contract, ws: seq<Waiver>, now: int, vs: seq<Waiver>, later: int)
    requires forall w :: w in contract.warnings && w.severity == Error ==>
      (Covers(ws, now, WarningKey(names, w)) <==> Covers(vs, later, WarningKey(names, w)))
    ensures
      var e, f := EvaluateResolution(names, contract, ws, now), EvaluateResolution(names, contract, vs, later);
      e.waived == f.waived && e.unwaived == f.unwaived && e.blocking == f.blocking
  {
    var errors := ErrorWarnings(contract.warnings);
    forall w: Warning | w in errors ensures WarningKey(names, w) in WaivedKeys(ws, now) <==>
      WarningKey(names, w) in WaivedKeys(vs, later) {
      WaivedKeysAreTheCovered(ws, now, WarningKey(names, w));
      WaivedKeysAreTheCovered(vs, later, WarningKey(names, w));
    }
    var k, l := WaivedKeys(ws, now), WaivedKeys(vs, later);
    FilterSame((w: Warning) => WarningKey(names, w) in k, (w: Warning) => WarningKey(names, w) in l, errors);
    FilterSame((w: Warning) => WarningKey(names, w) !in k, (w: Warning) => WarningKey(names, w) !in l, errors);
  }

  // ------------------------------------------------------------------ the clock

  /** Time only takes cover away: what blocks now blocks at every later moment. */
  lemma BlockingIsMonotone(names: Naming, contract: Contract, waivers: seq<Waiver>, now: int, later: int)
    requires now <= later && EvaluateResolution(names, contract, waivers, now).blocking
    ensures EvaluateResolution(names, contract, waivers, later).blocking
  {
    BlocksIff(names, contract, waivers, now);
    BlocksIff(names, contract, waivers, later);
    forall key | Covers(waivers, later, key) ensures Covers(waivers, now, key) {
      assert forall w :: w in waivers && IsExpired(w, now) ==> IsExpired(w, later);
    }
  }

  function Live(waivers: seq<Waiver>, now: int): seq<Waiver> {
    Filter((w: Waiver) => !IsExpired(w, now), waivers)
  }

  /** This key has both an expired waiver and one that is still running. */
  ghost predicate Contested(waivers: seq<Waiver>, now: int, key: string) {
    && (exists w :: w in waivers && WaiverKey(w) == key && IsExpired(w, now))
    && (exists w :: w in waivers && WaiverKey(w) == key && !IsExpired(w, now))
  }

  lemma CoverOfLive(waivers: seq<Waiver>, now: int, key: string)
    ensures Covers(Live(waivers, now), now, key) <==> Covers(waivers, now, key) || Contested(waivers, now, key)
  {
    var live := Live(waivers, now);
    forall w | w in waivers && !IsExpired(w, now) ensures w in live { }
    if Covers(waivers, now, key) || Contested(waivers, now, key) {
      var w :| w in waivers && WaiverKey(w) == key && !IsExpired(w, now);
      assert w in live;
    }
  }

  /** Dropping the expired waivers changes which error warnings are waived exactly when one of those
      warnings has both an expired and a running waiver: an expired entry cancels its renewals. */
  lemma LiveWaiversDecideIff(names: Naming, contract: Contract, waivers: seq<Waiver>, now: int)
    ensures
      EvaluateResolution(names, contract, waivers, now).unwaived ==
        EvaluateResolution(names, contract, Live(waivers, now), now).unwaived
      <==> forall w :: w in contract.warnings && w.severity == Error ==> !Contested(waivers, now, WarningKey(names, w))
  {
    var e, f := EvaluateResolution(names, contract, waivers, now),
      EvaluateResolution(names, contract, Live(waivers, now), now);
    forall w: Warning
      ensures Covers(Live(waivers, now), now, WarningKey(names, w)) <==>
        Covers(waivers, now, WarningKey(names, w)) || Contested(waivers, now, WarningKey(names, w))
    {
      CoverOfLive(waivers, now, WarningKey(names, w));
    }
    if forall w :: w in contract.warnings && w.severity == Error ==> !Contested(waivers, now, WarningKey(names, w)) {
      SameCover(names, contract, waivers, now, Live(waivers, now), now);
    } else {
      var w :| w in contract.warnings && w.severity == Error && Contested(waivers, now, WarningKey(names, w));
      assert w in ErrorWarnings(contract.warnings);
      WaivedKeysAreTheCovered(waivers, now, WarningKey(names, w));
      WaivedKeysAreTheCovered(Live(waivers, now), now, WarningKey(names, w));
      assert w in e.unwaived && w !in f.unwaived;
    }
  }

  /** A waiver that was renewed blocks as long as its expired entry is kept: without that, the renewal waives. */
  lemma RenewalIsCancelled(names: Naming, contract: Contract, now: int)
    requires contract.operations != map[] && contract.warnings == [Warning(OpenapiDrift, Error, None)]
    ensures
      var expired, renewed := Waiver(names(OpenapiDrift), None, At(now)),
        Waiver(names(OpenapiDrift), None, At(now + 1));
      && EvaluateResolution(names, contract, [expired, renewed], now).blocking
      && !EvaluateResolution(names, contract, [renewed], now).blocking
  {
    var expired, renewed := Waiver(names(OpenapiDrift), None, At(now)), Waiver(names(OpenapiDrift), None, At(now + 1));
    var w := contract.warnings[0];
    assert w in contract.warnings && [expired, renewed][0] in [expired, renewed] && [renewed][0] in [renewed];
    assert !Covers([expired, renewed], now, WarningKey(names, w)) && Covers([renewed], now, WarningKey(names, w));
    BlocksIff(names, contract, [expired, renewed], now);
    BlocksIff(names, contract, [renewed], now);
  }

  /** With at most one waiver per key the verdict is that of the running waivers alone. */
  lemma OneWaiverPerKey(names: Naming, contract: Contract, waivers: seq<Waiver>, now: int)
    requires forall v, w :: v in waivers && w in waivers && WaiverKey(v) == WaiverKey(w) ==> v == w
    ensures
      var e, f := EvaluateResolution(names, contract, waivers, now),
        EvaluateResolution(names, contract, Live(waivers, now), now);
      e.waived == f.waived && e.unwaived == f.unwaived && e.blocking == f.blocking
  {
    forall w: Warning ensures Covers(Live(waivers, now), now, WarningKey(names, w)) <==>
      Covers(waivers, now, WarningKey(names, w)) {
      CoverOfLive(waivers, now, WarningKey(names, w));
    }
    SameCover(names, contract, waivers, now, Live(waivers, now), now);
  }

  // ------------------------------------------------------------------ stale and expired waivers

  /** Some error warning has this key. */
  ghost predicate IsErrorKey(names: Naming, contract: Contract, key: string) {
    exists w :: w in contract.warnings && w.severity == Error && WarningKey(names, w) == key
  }

  /** The keys of the error warnings. */
  lemma ErrorKeysAre(names: Naming, contract: Contract, key: string)
    ensures key in (set w | w in ErrorWarnings(contract.warnings) :: WarningKey(names, w)) <==>
      IsErrorKey(names, contract, key)
  {
    forall w | w in contract.warnings && w.severity == Error && WarningKey(names, w) == key
      ensures w in ErrorWarnings(contract.warnings)
    {
    }
  }

  /** A waiver is listed as stale iff no error warning has its key, and as expired iff it names a time that is
      not later than now; both lists keep the order of the file and leave the other waivers aside. */
  lemma StaleAndExpiredAreExact(names: Naming, contract: Contract, waivers: seq<Waiver>, now: int)
    ensures var e := EvaluateResolution(names, contract, waivers, now);
      && (forall w :: w in e.staleWaivers <==> w in waivers && !IsErrorKey(names, contract, WaiverKey(w)))
      && (forall w :: w in e.expiredWaivers <==> w in waivers && w.expiry.At? && w.expiry.time <= now)
      && (exists inUse: seq<Waiver> ::
            IsMerge(e.staleWaivers, inUse, waivers)
            && forall w: Waiver | w in inUse :: IsErrorKey(names, contract, WaiverKey(w)))
      && (exists running: seq<Waiver> ::
            IsMerge(e.expiredWaivers, running, waivers)
            && forall w: Waiver | w in running :: w.expiry.At? ==> w.expiry.time > now)
  {
    var keys := set w | w in ErrorWarnings(contract.warnings) :: WarningKey(names, w);
    forall w: Waiver ensures WaiverKey(w) in keys <==> IsErrorKey(names, contract, WaiverKey(w)) {
      ErrorKeysAre(names, contract, WaiverKey(w));
    }
    var inUse := Filter((w: Waiver) => WaiverKey(w) in keys, waivers);
    FilterPartitions((w: Waiver) => WaiverKey(w) !in keys, (w: Waiver) => WaiverKey(w) in keys, waivers);
    FilterPartitions((w: Waiver) => IsExpired(w, now), (w: Waiver) => !IsExpired(w, now), waivers);
  }

  /** A waiver that is added goes to the end of the stale ones if no error warning has its key, and to the end
      of the expired ones if its time is over; the rest of both lists stays. */
  lemma AddingToTheLists(names: Naming, contract: Contract, waivers: seq<Waiver>, v: Waiver, now: int)
    ensures
      var e, f := EvaluateResolution(names, contract, waivers, now),
        EvaluateResolution(names, contract, waivers + [v], now);
      && f.staleWaivers == e.staleWaivers + (if IsErrorKey(names, contract, WaiverKey(v)) then [] else [v])
      && f.expiredWaivers == e.expiredWaivers + (if v.expiry.At? && v.expiry.time <= now then [v] else [])
  {
    ErrorKeysAre(names, contract, WaiverKey(v));
    assert (waivers + [v])[..|waivers|] == waivers;
  }

  /** The status told besides: blocked without operations, complete with some and no error warning. */
  lemma StatusIff(names: Naming, contract: Contract, waivers: seq<Waiver>, now: int)
    ensures var status := EvaluateResolution(names, contract, waivers, now).status;
      && (status == Blocked <==> contract.operations == map[])
      && (status == Complete <==> contract.operations != map[] && forall w | w in contract.warnings ::
         w.severity != Error)
  {
  }

  // ------------------------------------------------------------------ adding a waiver

  /** The warnings a waiver speaks of: same code, same subject, '*' and no subject being alike. */
  predicate SpeaksOf(names: Naming, v: Waiver, w: Warning) {
    names(w.code) == v.code && Subject(w.subject) == Subject(v.subject)
  }

  lemma CoverAfterAdding(waivers: seq<Waiver>, v: Waiver, now: int, key: string)
    requires !IsExpired(v, now) && forall w :: w in waivers ==> WaiverKey(w) != WaiverKey(v)
    ensures Covers(waivers + [v], now, key) <==> Covers(waivers, now, key) || key == WaiverKey(v)
  {
    assert v in waivers + [v];
    assert forall w :: w in waivers ==> w in waivers + [v];
  }

  /** A running waiver under a new key moves exactly the error warnings it speaks of from unwaived to
      waived, in order, leaves every other one where it was, and never unblocks a contract without
      operations. */
  lemma AddingAWaiverIsExact(names: Naming, contract: Contract, waivers: seq<Waiver>, v: Waiver, now: int)
    requires Proper(names) && ':' !in v.code
    requires !IsExpired(v, now) && forall w :: w in waivers ==> WaiverKey(w) != WaiverKey(v)
    ensures
      var e, f := EvaluateResolution(names, contract, waivers, now),
        EvaluateResolution(names, contract, waivers + [v], now);
      && f.unwaived == Filter((w: Warning) => !SpeaksOf(names, v, w), e.unwaived)
      && IsMerge(e.waived, Filter((w: Warning) => SpeaksOf(names, v, w), e.unwaived), f.waived)
      && f.status == e.status
      && (contract.operations == map[] ==> f.blocking)
  {
    var e, f := EvaluateResolution(names, contract, waivers, now),
      EvaluateResolution(names, contract, waivers + [v], now);
    var k, l := WaivedKeys(waivers, now), WaivedKeys(waivers + [v], now);
    forall w: Warning ensures WarningKey(names, w) in l <==> WarningKey(names, w) in k || SpeaksOf(names, v, w) {
      WaivedKeysAreTheCovered(waivers, now, WarningKey(names, w));
      WaivedKeysAreTheCovered(waivers + [v], now, WarningKey(names, w));
      CoverAfterAdding(waivers, v, now, WarningKey(names, w));
      KeysAreExact(names(w.code), w.subject, v.code, v.subject);
    }
    var errors := ErrorWarnings(contract.warnings);
    FilterTwice((w: Warning) => WarningKey(names, w) !in k, (w: Warning) => !SpeaksOf(names, v, w),
      (w: Warning) => WarningKey(names, w) !in l, errors);
    var moved := (w: Warning) => WarningKey(names, w) !in k && SpeaksOf(names, v, w);
    FilterTwice((w: Warning) => WarningKey(names, w) !in k, (w: Warning) => SpeaksOf(names, v, w), moved, errors);
    FilterMerges((w: Warning) => WarningKey(names, w) in k, moved, (w: Warning) => WarningKey(names, w) in l, errors);
  }

  // ------------------------------------------------------------------ stamped severities

  ghost predicate Stamped(warnings: seq<Warning>) {
    forall w :: w in warnings ==> w.severity == SeverityOf(w.code)
  }

  /** Warnings with the severity the code table gives, whatever was written in the file. */
  function Restamped(warnings: seq<Warning>): seq<Warning> {
    seq(|warnings|, i requires 0 <= i < |warnings| => MakeWarning(warnings[i].code, warnings[i].subject))
  }

  /** If no stamp is above the table's, the table finds as many error warnings, and just as many only
      if every stamp is the table's. */
  lemma {:induction false} TableFindsMore(warnings: seq<Warning>)
    requires forall w | w in warnings && w.severity == Error :: SeverityOf(w.code) == Error
    ensures |ErrorWarnings(warnings)| <= |ErrorWarnings(Restamped(warnings))|
    ensures |ErrorWarnings(warnings)| == |ErrorWarnings(Restamped(warnings))| ==> Stamped(warnings)
  {
    if warnings != [] {
      var n := |warnings| - 1;
      TableFindsMore(warnings[..n]);
      assert Restamped(warnings)[..n] == Restamped(warnings[..n]);
      assert warnings == warnings[..n] + [warnings[n]];
    }
  }

  lemma SameListsSameErrors(names: Naming, contract: Contract, other: Contract, waivers: seq<Waiver>, now: int)
    requires EvaluateResolution(names, contract, waivers, now) == EvaluateResolution(names, other, waivers, now)
    ensures |ErrorWarnings(contract.warnings)| == |ErrorWarnings(other.warnings)|
    ensures forall w :: w in ErrorWarnings(contract.warnings) <==> w in ErrorWarnings(other.warnings)
  {
    var e := EvaluateResolution(names, contract, waivers, now);
    WaiversPartitionErrors(names, contract, waivers, now);
    WaiversPartitionErrors(names, other, waivers, now);
    MergeHasBoth(e.waived, e.unwaived, ErrorWarnings(contract.warnings));
    MergeHasBoth(e.waived, e.unwaived, ErrorWarnings(other.warnings));
  }

  /** Reading the stamps and deriving the severities from the table agree exactly if every stamp is the
      table's, whatever the waivers and the time... */
  lemma StampAgreesWithTableIff(names: Naming, contract: Contract, waivers: seq<Waiver>, now: int)
    ensures EvaluateResolution(names, contract.(warnings := Restamped(contract.warnings)), waivers, now)
         == EvaluateResolution(names, contract, waivers, now)
         <==> Stamped(contract.warnings)
  {
    var warnings := contract.warnings;
    var table := contract.(warnings := Restamped(warnings));
    if Stamped(warnings) {
      assert Restamped(warnings) == warnings;
    } else if EvaluateResolution(names, table, waivers, now) == EvaluateResolution(names, contract, waivers, now) {
      SameListsSameErrors(names, contract, table, waivers, now);
      forall w | w in warnings && w.severity == Error ensures SeverityOf(w.code) == Error {
        assert w in ErrorWarnings(warnings);
        assert w in Restamped(warnings);
      }
      TableFindsMore(warnings);
    }
  }

  lemma BlocksByKeys(names: Naming, contract: Contract, waivers: seq<Waiver>, now: int)
    ensures EvaluateResolution(names, contract, waivers, now).blocking <==>
      contract.operations == map[] || exists key :: IsErrorKey(names, contract, key) && !Covers(waivers, now, key)
  {
    BlocksIff(names, contract, waivers, now);
    if w :| w in contract.warnings && w.severity == Error && !Covers(waivers, now, WarningKey(names, w)) {
      assert IsErrorKey(names, contract, WarningKey(names, w));
    }
  }

  /** One waiver without expiry for each of the error warnings. */
  function WaiveAll(names: Naming, warnings: seq<Warning>): seq<Waiver> {
    var errors := ErrorWarnings(warnings);
    seq(|errors|, i requires 0 <= i < |errors| => Waiver(names(errors[i].code), errors[i].subject, Never))
  }

  lemma WaiveAllCovers(names: Naming, contract: Contract, now: int, key: string)
    ensures Covers(WaiveAll(names, contract.warnings), now, key) <==> IsErrorKey(names, contract, key)
  {
    var errors, waivers := ErrorWarnings(contract.warnings), WaiveAll(names, contract.warnings);
    forall w | w in contract.warnings && w.severity == Error && WarningKey(names, w) == key
      ensures Covers(waivers, now, key) {
      assert w in errors;
      var i :| 0 <= i < |errors| && errors[i] == w;
      assert waivers[i] in waivers && WaiverKey(waivers[i]) == key;
    }
    if v :| v in waivers && WaiverKey(v) == key {
      var i :| 0 <= i < |waivers| && waivers[i] == v;
      assert errors[i] in errors;
    }
  }

  lemma SeparatingKey(names: Naming, c: Contract, d: Contract, now: int, key: string)
    requires d.operations != map[] && IsErrorKey(names, c, key) && !IsErrorKey(names, d, key)
    ensures EvaluateResolution(names, c, WaiveAll(names, d.warnings), now).blocking
    ensures !EvaluateResolution(names, d, WaiveAll(names, d.warnings), now).blocking
  {
    var waivers := WaiveAll(names, d.warnings);
    BlocksByKeys(names, c, waivers, now);
    BlocksByKeys(names, d, waivers, now);
    WaiveAllCovers(names, d, now, key);
    forall k | IsErrorKey(names, d, k) ensures Covers(waivers, now, k) {
      WaiveAllCovers(names, d, now, k);
    }
  }

  /** Two contracts over the same operations block alike under every list of waivers iff they have no
      operation or their error warnings have the same keys. */
  lemma BlockAlikeIff(names: Naming, c: Contract, d: Contract)
    requires c.operations == d.operations
    ensures
      (forall waivers, now ::
        EvaluateResolution(names, c, waivers, now).blocking == EvaluateResolution(names, d, waivers, now).blocking)
      <==> (c.operations == map[] || forall key :: IsErrorKey(names, c, key) <==> IsErrorKey(names, d, key))
  {
    if c.operations == map[] || forall key :: IsErrorKey(names, c, key) <==> IsErrorKey(names, d, key) {
      forall waivers, now ensures EvaluateResolution(names, c, waivers, now).blocking ==
        EvaluateResolution(names, d, waivers, now).blocking {
        BlocksByKeys(names, c, waivers, now);
        BlocksByKeys(names, d, waivers, now);
      }
    } else {
      var key :| IsErrorKey(names, c, key) != IsErrorKey(names, d, key);
      if IsErrorKey(names, c, key) {
        SeparatingKey(names, c, d, 0, key);
      } else {
        SeparatingKey(names, d, c, 0, key);
      }
    }
  }

  /** Some warning that the table calls an error has this key, whatever its stamp. */
  ghost predicate IsTableErrorKey(names: Naming, contract: Contract, key: string) {
    exists w :: w in contract.warnings && SeverityOf(w.code) == Error && WarningKey(names, w) == key
  }

  /** So trusting the stamps goes unnoticed on an edited file, whatever the waivers, only if, key by key,
      there is a warning stamped as an error exactly where there is one that the table calls an error. */
  lemma StampsBlockAlikeIff(names: Naming, contract: Contract)
    ensures var table := contract.(warnings := Restamped(contract.warnings));
      (forall waivers, now ::
        EvaluateResolution(names, contract, waivers, now).blocking ==
          EvaluateResolution(names, table, waivers, now).blocking)
      <==>
      (contract.operations == map[]
       || forall key :: IsErrorKey(names, contract, key) <==> IsTableErrorKey(names, contract, key))
  {
    var table := contract.(warnings := Restamped(contract.warnings));
    BlockAlikeIff(names, contract, table);
    forall key ensures IsErrorKey(names, table, key) <==> IsTableErrorKey(names, contract, key) {
      forall w | w in contract.warnings && SeverityOf(w.code) == Error && WarningKey(names, w) == key
        ensures IsErrorKey(names, table, key) {
        var i :| 0 <= i < |contract.warnings| && contract.warnings[i] == w;
        assert table.warnings[i] in table.warnings;
      }
      if w :| w in table.warnings && w.severity == Error && WarningKey(names, w) == key {
        var i :| 0 <= i < |table.warnings| && table.warnings[i] == w;
        assert contract.warnings[i] in contract.warnings;
      }
    }
  }

  /** ...and on a file whose stamp was edited they may block differently: a weakened stamp hides an error. */
  lemma EditedStampHidesAnError(names: Naming, contract: Contract, now: int)
    requires contract.operations != map[] && contract.warnings == [Warning(OpenapiDrift, Warn, None)]
    ensures !EvaluateResolution(names, contract, [], now).blocking
    ensures EvaluateResolution(names, contract.(warnings := Restamped(contract.warnings)), [], now).blocking
  {
    BlocksIff(names, contract, [], now);
    var table := contract.(warnings := Restamped(contract.warnings));
    assert table.warnings[0] == Warning(OpenapiDrift, Error, None);
    assert table.warnings[0] in table.warnings;
    BlocksIff(names, table, [], now);
  }
}
