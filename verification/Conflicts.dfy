/**
  `resolve` of `signal_fusion.py`: opposing signals are arbitrated instrument by instrument under a policy.
*/
module Conflicts {
  import opened Grouping
  import opened Text

  // ---------------------------------------------------------------- Python's sorting of the bucket names

  /** `a <= b` on strings, by code point. */
  predicate StrLe(a: string, b: string) {
    if a == "" then true
    else if b == "" then false
    else a[0] < b[0] || (a[0] == b[0] && StrLe(a[1..], b[1..]))
  }

  lemma {:induction false} StrLeIsTotal(a: string, b: string)
    ensures StrLe(a, b) || StrLe(b, a)
    ensures StrLe(a, b) && StrLe(b, a) ==> a == b
  {
    if a == "" || b == "" {
    } else {
      StrLeIsTotal(a[1..], b[1..]);
      assert a == [a[0]] + a[1..] && b == [b[0]] + b[1..];
    }
  }

  lemma {:induction false} StrLeIsTransitive(a: string, b: string, c: string)
    requires StrLe(a, b) && StrLe(b, c)
    ensures StrLe(a, c)
  {
    if a == "" || b == "" || c == "" {
    } else if a[0] == b[0] == c[0] {
      StrLeIsTransitive(a[1..], b[1..], c[1..]);
    }
  }

  /** The first difference is at `i`, and there `a` has the lesser character. */
  ghost predicate LessAt(a: string, b: string, i: nat) {
    i < |a| && i < |b| && a[i] < b[i] && forall j | 0 <= j < i :: a[j] == b[j]
  }

  /** A string comes before another if it is its beginning, or has the lesser character where they first differ. */
  lemma {:induction false} StrLeMeans(a: string, b: string)
    ensures StrLe(a, b) <==> a <= b || exists i: nat :: LessAt(a, b, i)
  {
    if a == "" || b == "" {
    } else if a[0] != b[0] {
      if a[0] < b[0] { assert LessAt(a, b, 0); }
      forall i: nat | LessAt(a, b, i) ensures i == 0 {}
    } else {
      StrLeMeans(a[1..], b[1..]);
      assert a <= b <==> a[1..] <= b[1..] by { assert a == [a[0]] + a[1..] && b == [b[0]] + b[1..]; }
      forall i: nat ensures LessAt(a[1..], b[1..], i) <==> LessAt(a, b, i + 1) {
        assert forall j | 0 <= j < i && j + 1 < |a| && j + 1 < |b| ::
            a[1..][j] == a[j + 1] && b[1..][j] == b[j + 1];
        assert forall j | 0 < j < i + 1 && j < |a| && j < |b| :: a[j] == a[1..][j - 1] && b[j] == b[1..][j - 1];
      }
      if i: nat :| LessAt(a, b, i) { assert LessAt(a[1..], b[1..], i - 1); }
    }
  }

  predicate Ascending(ks: seq<string>) { forall i, j | 0 <= i < j < |ks| :: StrLe(ks[i], ks[j]) && ks[i] != ks[j] }

  function InsertKey(k: string, ks: seq<string>): seq<string> {
    if ks == [] then [k]
    else if StrLe(k, ks[0]) then [k] + ks
    else [ks[0]] + InsertKey(k, ks[1..])
  }

  function SortKeys(ks: seq<string>): seq<string> {
    if ks == [] then [] else InsertKey(ks[0], SortKeys(ks[1..]))
  }

  lemma {:induction false} InsertKeyHas(k: string, ks: seq<string>)
    ensures forall j :: j in InsertKey(k, ks) <==> j == k || j in ks
  {
    hide StrLe;
    if ks == [] {
    } else {
      assert ks == [ks[0]] + ks[1..];
      InsertKeyHas(k, ks[1..]);
    }
  }

  lemma PrependAscends(k: string, ks: seq<string>)
    requires Ascending(ks) && forall j | j in ks :: StrLe(k, j) && k != j
    ensures Ascending([k] + ks)
  {
    hide StrLe;
  }

  lemma {:induction false} InsertKeyAscends(k: string, ks: seq<string>)
    requires Ascending(ks) && k !in ks
    ensures Ascending(InsertKey(k, ks))
  {
    if ks == [] {
    } else {
      StrLeIsTotal(k, ks[0]);
      if StrLe(k, ks[0]) {
        forall i | 0 <= i < |ks| ensures StrLe(k, ks[i]) { if i > 0 { StrLeIsTransitive(k, ks[0], ks[i]); } }
        hide StrLe;
        PrependAscends(k, ks);
      } else {
        hide StrLe;
        InsertKeyAscends(k, ks[1..]);
        InsertKeyHas(k, ks[1..]);
        PrependAscends(ks[0], InsertKey(k, ks[1..]));
      }
    }
  }

  lemma {:induction false} SortKeysAscends(ks: seq<string>)
    requires Distinct(ks)
    ensures Ascending(SortKeys(ks)) && Distinct(SortKeys(ks))
    ensures forall k :: k in SortKeys(ks) <==> k in ks
  {
    hide StrLe, InsertKey;
    if ks == [] {
    } else {
      assert ks == [ks[0]] + ks[1..];
      InsertKeyHas(ks[0], SortKeys(ks[1..]));
      SortKeysAscends(ks[1..]);
      InsertKeyAscends(ks[0], SortKeys(ks[1..]));
    }
  }

  // ---------------------------------------------------------------- resolve

  datatype Signal = Signal(strategyId: string, direction: string, rank: int, confidence: Option<int>,
                           instrumentId: Option<string>, symbol: string)

  datatype Policy = RejectBothAndAlert | PrioritizeByRank | Net | Unknown

  /** How a signal's bucket is found: `clean` is upper-casing and trimming; an equivalence function may raise. */
  datatype Bucketing =
    | ByInstrument(clean: string -> string)
    | ByEquivalence(clean: string -> string, same: string -> Option<string>)

  function InstrumentOf(s: Signal): string {
    if s.instrumentId.Some? && s.instrumentId.value != "" then s.instrumentId.value else s.symbol
  }

  function BucketOf(s: Signal, how: Bucketing): string {
    var own := if InstrumentOf(s) == "" then "UNKNOWN" else how.clean(InstrumentOf(s));
    match how
    case ByInstrument(_) => own
    case ByEquivalence(_, same) =>
      var name := if s.symbol != "" then s.symbol else if InstrumentOf(s) != "" then InstrumentOf(s) else "UNKNOWN";
      match same(name) case Some(b) => b case None => own
  }

  function By(how: Bucketing): Signal -> string { s => BucketOf(s, how) }

  predicate OneDirection(ss: seq<Signal>) { forall i, j | 0 <= i < j < |ss| :: ss[i].direction == ss[j].direction }

  function Count(ss: seq<Signal>, direction: string): nat {
    if ss == [] then 0 else Count(ss[1..], direction) + if ss[0].direction == direction then 1 else 0
  }

  function InDirection(ss: seq<Signal>, direction: string): (r: seq<Signal>)
    ensures forall s :: s in r <==> s in ss && s.direction == direction
    ensures |r| == Count(ss, direction)
  {
    if ss == [] then []
    else (if ss[0].direction == direction then [ss[0]] else []) + InDirection(ss[1..], direction)
  }

  /** `sorted(group, key=rank)[0]`: the first signal of the least rank. */
  function LeastRank(ss: seq<Signal>): (i: nat)
    requires ss != []
    ensures i < |ss| && forall j | 0 <= j < |ss| :: ss[i].rank <= ss[j].rank && (j < i ==> ss[i].rank < ss[j].rank)
  {
    if |ss| == 1 then 0
    else
      var rest := LeastRank(ss[..|ss| - 1]);
      if ss[|ss| - 1].rank < ss[rest].rank then |ss| - 1 else rest
  }

  predicate AllMeasured(ss: seq<Signal>) { forall i | 0 <= i < |ss| :: ss[i].confidence.Some? }

  /** `sorted(candidates, key=confidence, reverse=True)[0]`: the first of the greatest confidence. */
  function GreatestConfidence(ss: seq<Signal>): (i: nat)
    requires ss != [] && AllMeasured(ss)
    ensures i < |ss| && forall j | 0 <= j < |ss| ::
              ss[i].confidence.value >= ss[j].confidence.value
              && (j < i ==> ss[i].confidence.value > ss[j].confidence.value)
  {
    if |ss| == 1 then 0
    else
      var rest := GreatestConfidence(ss[..|ss| - 1]);
      if ss[|ss| - 1].confidence.value > ss[rest].confidence.value then |ss| - 1 else rest
  }

  /** What a bucket lets through; `None` when comparing a missing confidence raises. */
  function ResolveGroup(g: seq<Signal>, policy: Policy): Option<seq<Signal>>
    requires g != []
  {
    if OneDirection(g) then Some(g)
    else match policy
      case RejectBothAndAlert => Some([])
      case PrioritizeByRank => Some([g[LeastRank(g)]])
      case Net =>
        var net := Count(g, "LONG") - Count(g, "SHORT");
        var wanted := InDirection(g, if net > 0 then "LONG" else "SHORT");
        if net == 0 then Some([])
        else if |wanted| == 1 then Some(wanted)
        else if AllMeasured(wanted) then Some([wanted[GreatestConfidence(wanted)]])
        else None
      case Unknown => Some([])
  }

  datatype Outcome = Raised | Resolved(approved: seq<Signal>)

  predicate Peaceful(ss: seq<Signal>, key: Signal -> string) {
    forall k | k in Keys(ss, key) :: OneDirection(Group(ss, key, k))
  }

  predicate GroupRaises(g: seq<Signal>, policy: Policy) { g != [] && ResolveGroup(g, policy).None? }

  predicate Raises(ss: seq<Signal>, policy: Policy, key: Signal -> string) {
    exists k | k in Keys(ss, key) :: GroupRaises(Group(ss, key, k), policy)
  }

  /** What bucket `k` lets through. */
  function Approval(ss: seq<Signal>, policy: Policy, key: Signal -> string, k: string): seq<Signal> {
    var g := Group(ss, key, k);
    if g == [] then [] else match ResolveGroup(g, policy) case Some(approved) => approved case None => []
  }

  function Approvals(ss: seq<Signal>, policy: Policy, key: Signal -> string): string -> seq<Signal> {
    k => Approval(ss, policy, key, k)
  }

  function ResolveAll(ss: seq<Signal>, policy: Policy, how: Bucketing): Outcome {
    var key := By(how);
    if |ss| <= 1 || Peaceful(ss, key) then Resolved(ss)
    else if Raises(ss, policy, key) then Raised
    else Resolved(Merge(SortKeys(Keys(ss, key)), Approvals(ss, policy, key)))
  }

  method AnyOpposed(keys: seq<string>, byBucket: map<string, seq<Signal>>) returns (opposed: bool)
    requires forall k | k in keys :: k in byBucket
    ensures !opposed <==> forall k | k in keys :: OneDirection(byBucket[k])
  {
    hide OneDirection;
    opposed := false;
    for i := 0 to |keys|
      invariant !opposed <==> forall j | 0 <= j < i :: OneDirection(byBucket[keys[j]])
    {
      opposed := opposed || !OneDirection(byBucket[keys[i]]);
    }
  }

  method ResolveBuckets(sorted: seq<string>, byBucket: map<string, seq<Signal>>, policy: Policy,
      ghost result: string -> seq<Signal>)
    returns (raised: bool, approved: seq<Signal>)
    requires forall i | 0 <= i < |sorted| :: sorted[i] in byBucket && byBucket[sorted[i]] != []
    requires forall i | 0 <= i < |sorted| && !GroupRaises(byBucket[sorted[i]], policy) ::
               ResolveGroup(byBucket[sorted[i]], policy).value == result(sorted[i])
    ensures raised <==> exists i | 0 <= i < |sorted| :: GroupRaises(byBucket[sorted[i]], policy)
    ensures !raised ==> approved == Merge(sorted, result)
  {
    hide ResolveGroup, Merge;
    raised, approved := false, [];
    MergeNone(sorted, result);
    for i := 0 to |sorted|
      invariant !raised <==> forall j | 0 <= j < i :: !GroupRaises(byBucket[sorted[j]], policy)
      invariant !raised ==> approved == Merge(sorted[..i], result)
    {
      MergeSnoc(sorted, i, result);
      var passed := ResolveGroup(byBucket[sorted[i]], policy);
      if passed.None? { raised := true; } else { approved := approved + passed.value; }
    }
    assert sorted[..|sorted|] == sorted;
  }

  method Resolve(ss: seq<Signal>, policy: Policy, how: Bucketing) returns (outcome: Outcome)
    ensures outcome == ResolveAll(ss, policy, how)
  {
    if |ss| <= 1 { return Resolved(ss); }
    var key := By(how);
    var keys, byBucket := GroupBy(ss, key);
    NoGroupIsEmpty(ss, key);
    hide Group, Keys, ResolveGroup, SortKeys, OneDirection, Merge, BucketOf;
    var opposed := AnyOpposed(keys, byBucket);
    if !opposed { return Resolved(ss); }
    var sorted := SortKeys(keys);
    forall i | 0 <= i < |sorted| ensures sorted[i] in byBucket && byBucket[sorted[i]] == Group(ss, key, sorted[i]) {}
    var raised, approved := ResolveBuckets(sorted, byBucket, policy, Approvals(ss, policy, key));
    outcome := if raised then Raised else Resolved(approved);
  }

  lemma NoGroupIsEmpty(ss: seq<Signal>, key: Signal -> string)
    ensures forall k | k in Keys(ss, key) :: Group(ss, key, k) != []
    ensures forall k :: k in SortKeys(Keys(ss, key)) <==> k in Keys(ss, key)
  {
    KeysAreKeys(ss, key);
    forall k | k in Keys(ss, key) ensures Group(ss, key, k) != [] { GroupHas(ss, key, k); }
    SortKeysAscends(Keys(ss, key));
  }

  lemma GroupPassesItsOwn(g: seq<Signal>, policy: Policy)
    requires g != [] && ResolveGroup(g, policy).Some?
    ensures var passed := ResolveGroup(g, policy).value;
            OneDirection(passed) && (forall s | s in passed :: s in g) && (|passed| <= 1 || passed == g)
  {
  }

  /** The signals a call approves in bucket `k`. */
  lemma ApprovedInBucket(ss: seq<Signal>, policy: Policy, how: Bucketing, k: string)
    requires ResolveAll(ss, policy, how).Resolved?
    ensures Group(ResolveAll(ss, policy, how).approved, By(how), k) == Approval(ss, policy, By(how), k)
  {
    hide Group, Keys, ResolveGroup, Merge, SortKeys, OneDirection;
    var key := By(how);
    var g := Group(ss, key, k);
    KeysAreKeys(ss, key);
    GroupHas(ss, key, k);
    if |ss| <= 1 || Peaceful(ss, key) {
      if g != [] {
        assert g[0] in g && k in Keys(ss, key);
        OneDirectionPasses(g, policy);
      }
    } else {
      var ks, result := SortKeys(Keys(ss, key)), Approvals(ss, policy, key);
      SortKeysAscends(Keys(ss, key));
      forall j, x | j in ks && x in result(j) ensures key(x) == j {
        GroupHas(ss, key, j);
        var group := Group(ss, key, j);
        if group != [] && ResolveGroup(group, policy).Some? { GroupPassesItsOwn(group, policy); }
      }
      GroupOfMerge(ks, result, key, k);
      if k !in ks { assert forall x :: x !in g; }
    }
  }

  /** Resolving signals that share a bucket. */
  lemma OneBucket(g: seq<Signal>, policy: Policy, how: Bucketing, k: string)
    requires forall x | x in g :: BucketOf(x, how) == k
    ensures ResolveAll(g, policy, how)
            == if g == [] then Resolved([])
               else match ResolveGroup(g, policy) case Some(approved) => Resolved(approved) case None => Raised
  {
    hide Group, Keys, SortKeys, Merge, OneDirection, BucketOf, ResolveGroup;
    var key := By(how);
    assert forall i | 0 <= i < |g| :: key(g[i]) == k;
    GroupOfOneKey(g, key, k);
    KeysOfOneKey(g, key, k);
    if |g| <= 1 {
      if |g| == 1 { OneDirectionPasses(g, policy); }
    } else {
      SortOne(k);
      MergeOne(k, Approvals(g, policy, key));
      assert k in Keys(g, key);
      if OneDirection(g) { OneDirectionPasses(g, policy); }
    }
  }

  lemma SortOne(k: string)
    ensures SortKeys([k]) == [k]
  {
    assert SortKeys([k]) == InsertKey(k, SortKeys([]));
  }

  lemma OneDirectionPasses(g: seq<Signal>, policy: Policy)
    requires g != [] && (|g| == 1 || OneDirection(g))
    ensures ResolveGroup(g, policy) == Some(g)
  {
  }

  lemma MergeOne(k: string, result: string -> seq<Signal>)
    ensures Merge([k], result) == result(k)
  {
    assert [k][..0] == [];
  }

  /** Resolving one bucket's signals on their own. */
  lemma BucketAlone(ss: seq<Signal>, policy: Policy, how: Bucketing, k: string)
    ensures var g := Group(ss, By(how), k);
            ResolveAll(g, policy, how)
            == if GroupRaises(g, policy) then Raised else Resolved(Approval(ss, policy, By(how), k))
  {
    GroupHas(ss, By(how), k);
    OneBucket(Group(ss, By(how), k), policy, how, k);
    hide ResolveAll, ResolveGroup, Group;
  }

  /**
    Resolution is local: a call raises exactly when resolving some bucket alone raises, and otherwise approves in
    each bucket exactly what resolving that bucket alone approves, in the same order.
  */
  lemma ResolutionIsLocal(ss: seq<Signal>, policy: Policy, how: Bucketing)
    ensures ResolveAll(ss, policy, how).Raised?
         == exists k :: k in Keys(ss, By(how)) && ResolveAll(Group(ss, By(how), k), policy, how).Raised?
    ensures ResolveAll(ss, policy, how).Resolved? ==> forall k ::
              ResolveAll(Group(ss, By(how), k), policy, how)
              == Resolved(Group(ResolveAll(ss, policy, how).approved, By(how), k))
  {
    hide Group, Keys, ResolveGroup, Merge, SortKeys, BucketOf, OneDirection;
    var key := By(how);
    forall k ensures ResolveAll(Group(ss, key, k), policy, how)
                     == if GroupRaises(Group(ss, key, k), policy) then Raised
                        else Resolved(Approval(ss, policy, key, k))
    {
      BucketAlone(ss, policy, how, k);
    }
    KeysAreKeys(ss, key);
    forall k ensures Group(ss, key, k) != [] <==> k in Keys(ss, key) {
      GroupHas(ss, key, k);
      if Group(ss, key, k) != [] { assert Group(ss, key, k)[0] in Group(ss, key, k); }
    }
    if ResolveAll(ss, policy, how).Resolved? {
      forall k ensures Group(ResolveAll(ss, policy, how).approved, key, k) == Approval(ss, policy, key, k) {
        ApprovedInBucket(ss, policy, how, k);
      }
    }
  }

  /** Never two directions in one bucket, whatever the policy, and nothing that was not submitted. */
  lemma NoBucketIsTornBothWays(ss: seq<Signal>, policy: Policy, how: Bucketing, x: Signal, y: Signal)
    requires ResolveAll(ss, policy, how).Resolved?
    requires x in ResolveAll(ss, policy, how).approved && y in ResolveAll(ss, policy, how).approved
    requires BucketOf(x, how) == BucketOf(y, how)
    ensures x.direction == y.direction && x in ss && y in ss
  {
    hide Group, Keys, ResolveGroup, Merge, SortKeys, ResolveAll;
    var key, k := By(how), BucketOf(x, how);
    var approved, g := ResolveAll(ss, policy, how).approved, Group(ss, By(how), BucketOf(x, how));
    ApprovedInBucket(ss, policy, how, k);
    GroupHas(approved, key, k);
    GroupHas(ss, key, k);
    GroupPassesItsOwn(g, policy);
  }

  /** Who wins an opposed bucket under each policy, told without the sort. */
  lemma WinnerOfOpposedBucket(g: seq<Signal>, policy: Policy, s: Signal)
    requires !OneDirection(g) && ResolveGroup(g, policy).Some?
    ensures s in ResolveGroup(g, policy).value ==> s in g && match policy
              case PrioritizeByRank => forall t | t in g :: s.rank <= t.rank
              case Net =>
                && (if Count(g, "LONG") > Count(g, "SHORT") then s.direction == "LONG"
                    else s.direction == "SHORT" && Count(g, "SHORT") > Count(g, "LONG"))
                && forall t | t in g && t.direction == s.direction && t != s ::
                     s.confidence.Some? && t.confidence.Some? && s.confidence.value >= t.confidence.value
              case _ => false
    ensures (|ResolveGroup(g, policy).value| == 1)
         == (policy.PrioritizeByRank? || (policy.Net? && Count(g, "LONG") != Count(g, "SHORT")))
  {
    match policy
    case Net =>
      var wanted := InDirection(g, if Count(g, "LONG") > Count(g, "SHORT") then "LONG" else "SHORT");
      hide OneDirection, Count, InDirection;
      if |wanted| == 1 { assert forall t | t in wanted :: t == wanted[0]; }
    case _ => hide OneDirection, Count, InDirection;
  }

  // ---------------------------------------------------------------- which signals meet in a bucket

  /**
    Without an equivalence a signal's bucket is its instrument id, else its symbol, cleaned, else UNKNOWN; with one it
    is what the equivalence makes of its symbol, else its instrument id, and the former when that raises.
  */
  lemma BucketMeans(s: Signal, clean: string -> string, same: string -> Option<string>)
    ensures var id := if s.instrumentId.Some? then s.instrumentId.value else "";
            var own := if id != "" then clean(id) else if s.symbol != "" then clean(s.symbol) else "UNKNOWN";
            var name := if s.symbol != "" then s.symbol else if id != "" then id else "UNKNOWN";
            && BucketOf(s, ByInstrument(clean)) == own
            && BucketOf(s, ByEquivalence(clean, same)) == match same(name) case Some(b) => b case None => own
  {
  }

  /** Two signals conflict exactly when they share a bucket and differ in direction; the policy then decides. */
  lemma TwoSignals(x: Signal, y: Signal, policy: Policy, how: Bucketing)
    ensures var r := ResolveAll([x, y], policy, how);
            if BucketOf(x, how) != BucketOf(y, how) || x.direction == y.direction then r == Resolved([x, y])
            else match policy
              case RejectBothAndAlert => r == Resolved([])
              case PrioritizeByRank => r == Resolved([if y.rank < x.rank then y else x])
              case Net => LongAgainstShort(x, y) || LongAgainstShort(y, x) ==> r == Resolved([])
              case Unknown => r == Resolved([])
  {
    var key := By(how);
    hide BucketOf;
    forall k ensures Group([x, y], key, k) == (if key(x) == k then [x] else []) + if key(y) == k then [y] else [] {
      PairGroups(x, y, key, k);
    }
    PairGroups(x, y, key, key(x));
    hide Group, Keys, SortKeys, Merge;
    if key(x) != key(y) || x.direction == y.direction {
      forall k | k in Keys([x, y], key) ensures OneDirection(Group([x, y], key, k)) {}
    } else {
      assert Group([x, y], key, key(x)) == [x] + [y] == [x, y];
      assert !OneDirection([x, y]) by { assert [x, y][0].direction != [x, y][1].direction; }
      OneBucket([x, y], policy, how, key(x));
      PairResolves(x, y, policy);
    }
  }

  lemma PairResolves(x: Signal, y: Signal, policy: Policy)
    requires x.direction != y.direction
    ensures !OneDirection([x, y])
    ensures var r := ResolveGroup([x, y], policy);
            match policy
            case RejectBothAndAlert => r == Some([])
            case PrioritizeByRank => r == Some([if y.rank < x.rank then y else x])
            case Net => LongAgainstShort(x, y) || LongAgainstShort(y, x) ==> r == Some([])
            case Unknown => r == Some([])
  {
    assert [x, y][0].direction != [x, y][1].direction;
    assert [x, y][..1] == [x] && [x] + [y] == [x, y];
    CountSplits([x], [y], x, "LONG");
    CountSplits([x], [y], y, "LONG");
    CountSplits([x], [y], x, "SHORT");
    CountSplits([x], [y], y, "SHORT");
    hide InDirection, GreatestConfidence, Count;
  }

  predicate LongAgainstShort(x: Signal, y: Signal) { x.direction == "LONG" && y.direction == "SHORT" }

  /** Signals for two instruments never conflict, whatever their directions. */
  lemma UnlikeInstrumentsDoNotConflict(x: Signal, y: Signal, policy: Policy, clean: string -> string)
    requires x.instrumentId.Some? && x.instrumentId.value != "" && y.instrumentId.Some? && y.instrumentId.value != ""
    requires clean(x.instrumentId.value) != clean(y.instrumentId.value)
    ensures ResolveAll([x, y], policy, ByInstrument(clean)) == Resolved([x, y])
  {
    TwoSignals(x, y, policy, ByInstrument(clean));
  }

  /** Counting goes signal by signal. */
  lemma {:induction false} CountSplits(a: seq<Signal>, b: seq<Signal>, s: Signal, direction: string)
    ensures Count(a + b, direction) == Count(a, direction) + Count(b, direction)
    ensures Count([s], direction) == if s.direction == direction then 1 else 0
    decreases |a|
  {
    assert [s][1..] == [];
    if a == [] {
      assert a + b == b;
    } else {
      Uncons(a, b);
      CountSplits(a[1..], b, s, direction);
    }
  }
}
