/**
  `resolve_candidate_conflicts` of `signal_fusion.py`: on each underlying, calls are arbitrated against puts by
  confidence, and correlated candidates on one side are capped.  Confidences are exact.
*/
module CandidateConflicts {
  import opened Grouping
  import opened Text

  datatype Candidate = Candidate(underlying: Option<string>, direction: string, strategy: string,
      confidence: Option<real>)

  function Conf(c: Candidate): real { match c.confidence case Some(v) => v case None => 50.0 }
  predicate IsCall(c: Candidate) { Contains(c.direction, "CALL") }
  predicate IsPut(c: Candidate) { Contains(c.direction, "PUT") }

  /** `upper` is Python's upper-casing. */
  function ByUnderlying(upper: string -> string): Candidate -> string {
    (c: Candidate) => upper(match c.underlying case Some(u) => if u == "" then "UNKNOWN" else u case None => "UNKNOWN")
  }

  function Calls(cs: seq<Candidate>): (r: seq<Candidate>)
    ensures forall c :: c in r <==> c in cs && IsCall(c)
  {
    if cs == [] then [] else (if IsCall(cs[0]) then [cs[0]] else []) + Calls(cs[1..])
  }

  function Puts(cs: seq<Candidate>): (r: seq<Candidate>)
    ensures forall c :: c in r <==> c in cs && IsPut(c)
  {
    if cs == [] then [] else (if IsPut(cs[0]) then [cs[0]] else []) + Puts(cs[1..])
  }

  function Others(cs: seq<Candidate>): (r: seq<Candidate>)
    ensures forall c :: c in r <==> c in cs && !IsCall(c) && !IsPut(c)
  {
    if cs == [] then [] else (if !IsCall(cs[0]) && !IsPut(cs[0]) then [cs[0]] else []) + Others(cs[1..])
  }

  /** `max(cs, key=_conf)`: the first of the greatest confidence. */
  function Best(cs: seq<Candidate>): (i: nat)
    requires cs != []
    ensures i < |cs| && forall j | 0 <= j < |cs| :: Conf(cs[i]) >= Conf(cs[j]) && (j < i ==> Conf(cs[i]) > Conf(cs[j]))
  {
    if |cs| == 1 then 0
    else
      var rest := Best(cs[..|cs| - 1]);
      if Conf(cs[|cs| - 1]) > Conf(cs[rest]) then |cs| - 1 else rest
  }

  // ---------------------------------------------------------------- ranking: stable, by descending confidence

  function Place(ranked: seq<Candidate>, c: Candidate): (r: seq<Candidate>)
    ensures |r| == |ranked| + 1
  {
    if ranked == [] || Conf(ranked[|ranked| - 1]) >= Conf(c) then ranked + [c]
    else Place(ranked[..|ranked| - 1], c) + [ranked[|ranked| - 1]]
  }

  /** `sorted(cs, key=_conf, reverse=True)`. */
  function Ranked(cs: seq<Candidate>): (r: seq<Candidate>)
    ensures |r| == |cs|
  {
    if cs == [] then [] else Place(Ranked(cs[..|cs| - 1]), cs[|cs| - 1])
  }

  predicate Descending(cs: seq<Candidate>) { forall i, j | 0 <= i < j < |cs| :: Conf(cs[i]) >= Conf(cs[j]) }

  function AtLevel(cs: seq<Candidate>, level: real): seq<Candidate> {
    if cs == [] then []
    else AtLevel(cs[..|cs| - 1], level) + if Conf(cs[|cs| - 1]) == level then [cs[|cs| - 1]] else []
  }

  lemma AtLevelSnoc(cs: seq<Candidate>, c: Candidate, level: real)
    ensures AtLevel(cs + [c], level) == AtLevel(cs, level) + if Conf(c) == level then [c] else []
  {
    assert (cs + [c])[..|cs|] == cs;
  }

  lemma {:induction false} PlaceHas(ranked: seq<Candidate>, c: Candidate)
    ensures forall d :: d in Place(ranked, c) <==> d in ranked || d == c
    ensures multiset(Place(ranked, c)) == multiset(ranked) + multiset{c}
    decreases |ranked|
  {
    hide Conf;
    if ranked == [] {
    } else {
      assert ranked == ranked[..|ranked| - 1] + [ranked[|ranked| - 1]];
      PlaceHas(ranked[..|ranked| - 1], c);
    }
  }

  lemma AppendDescends(ranked: seq<Candidate>, c: Candidate)
    requires Descending(ranked) && forall d | d in ranked :: Conf(d) >= Conf(c)
    ensures Descending(ranked + [c])
  {
    hide Conf;
  }

  lemma {:induction false} PlaceDescends(ranked: seq<Candidate>, c: Candidate)
    requires Descending(ranked)
    ensures Descending(Place(ranked, c))
    decreases |ranked|
  {
    hide Conf;
    if ranked == [] || Conf(ranked[|ranked| - 1]) >= Conf(c) {
      AppendDescends(ranked, c);
    } else {
      var init, last := ranked[..|ranked| - 1], ranked[|ranked| - 1];
      PlaceDescends(init, c);
      PlaceHas(init, c);
      AppendDescends(Place(init, c), last);
    }
  }

  lemma {:induction false} PlaceKeepsLevels(ranked: seq<Candidate>, c: Candidate, level: real)
    requires Descending(ranked)
    ensures AtLevel(Place(ranked, c), level) == AtLevel(ranked, level) + if Conf(c) == level then [c] else []
    decreases |ranked|
  {
    hide Conf;
    if ranked == [] || Conf(ranked[|ranked| - 1]) >= Conf(c) {
      AtLevelSnoc(ranked, c, level);
    } else {
      var init, last := ranked[..|ranked| - 1], ranked[|ranked| - 1];
      PlaceKeepsLevels(init, c, level);
      AtLevelSnoc(Place(init, c), last, level);
    }
  }

  /** The ranking is a permutation in descending confidence that keeps equals in their order. */
  lemma {:induction false} RankedIsAStableSort(cs: seq<Candidate>, level: real)
    ensures Descending(Ranked(cs)) && multiset(Ranked(cs)) == multiset(cs)
    ensures AtLevel(Ranked(cs), level) == AtLevel(cs, level)
    decreases |cs|
  {
    if cs == [] {
    } else {
      var init, last := cs[..|cs| - 1], cs[|cs| - 1];
      assert cs == init + [last];
      RankedIsAStableSort(init, level);
      PlaceHas(Ranked(init), last);
      PlaceDescends(Ranked(init), last);
      PlaceKeepsLevels(Ranked(init), last, level);
    }
  }

  // ---------------------------------------------------------------- one underlying

  /** Where Python's `[:m]` ends in a list of `n`. */
  function SliceEnd(n: nat, m: int): nat { if m >= 0 then (if m < n then m else n) else if n + m > 0 then n + m else 0 }

  /** The candidates of one side that are kept, before any haircut, and those that are dropped. */
  function Kept(items: seq<Candidate>, m: int): seq<Candidate> {
    if |items| <= m then items else Ranked(items)[..SliceEnd(|items|, m)]
  }

  function Dropped(items: seq<Candidate>, m: int): seq<Candidate> {
    if |items| <= m then [] else Ranked(items)[SliceEnd(|items|, m)..]
  }

  /** `round(x, 1)`: to the nearest tenth, a tie to the even one. */
  function RoundTenth(x: real): real {
    var below := (x * 10.0).Floor;
    var over := x * 10.0 - below as real;
    (if over < 0.5 || (over == 0.5 && below % 2 == 0) then below else below + 1) as real / 10.0
  }

  function Halved(c: Candidate): Candidate { c.(confidence := Some(RoundTenth(Conf(c) * 0.5))) }

  /** `_cap_same_direction`; `None` when reporting a drop raises because nothing was kept to compare with. */
  function Capped(items: seq<Candidate>, m: int): Option<seq<Candidate>> {
    var keep := Kept(items, m);
    if |items| <= m then Some(items)
    else if keep == [] && Dropped(items, m) != [] then None
    else Some(if m >= 2 && |keep| == 2 then keep[1 := Halved(keep[1])] else keep)
  }

  function Without(cs: seq<Candidate>, i: nat): seq<Candidate>
    requires i < |cs|
  {
    cs[..i] + cs[i + 1..]
  }

  /** The side that is capped when calls and puts do not oppose each other. */
  function Side(g: seq<Candidate>): seq<Candidate> {
    if Calls(g) != [] then Calls(g) else if Puts(g) != [] then Puts(g) else Others(g)
  }

  predicate Opposed(g: seq<Candidate>) { Calls(g) != [] && Puts(g) != [] }

  /** Opposed sides: none when their best are too close, else the better of the two. */
  function Duel(calls: seq<Candidate>, puts: seq<Candidate>, epsilon: real, m: int): Option<seq<Candidate>>
    requires calls != [] && puts != []
  {
    var c, p := Best(calls), Best(puts);
    var gap := Conf(calls[c]) - Conf(puts[p]);
    if (if gap < 0.0 then -gap else gap) < epsilon then Some([])
    else
      var winner := if gap > 0.0 then calls[c] else puts[p];
      var leftovers := if gap > 0.0 then Without(calls, c) else Without(puts, p);
      if Capped(leftovers, m).Some? then Some([winner]) else None
  }

  /** What one underlying lets through. */
  function Arbitrate(g: seq<Candidate>, epsilon: real, m: int): Option<seq<Candidate>> {
    if !Opposed(g) then Capped(Side(g), m) else Duel(Calls(g), Puts(g), epsilon, m)
  }

  lemma PositiveCapNeverRaises(items: seq<Candidate>, m: int)
    requires m >= 1
    ensures Capped(items, m).Some? && |Capped(items, m).value| == if |items| <= m then |items| else m
  {
  }

  /** A side is split into kept and dropped, and nobody dropped is more confident than anybody kept. */
  lemma KeptAreTheBest(items: seq<Candidate>, m: int, i: nat, j: nat)
    ensures multiset(Kept(items, m)) + multiset(Dropped(items, m)) == multiset(items)
    ensures i < |Kept(items, m)| && j < |Dropped(items, m)| ==> Conf(Dropped(items, m)[j]) <= Conf(Kept(items, m)[i])
  {
    hide Ranked, Conf;
    if |items| > m {
      RankedIsAStableSort(items, 0.0);
      var ranked, n := Ranked(items), SliceEnd(|items|, m);
      MultisetSplit(ranked, n);
      if i < n && n + j < |ranked| { assert Conf(ranked[i]) >= Conf(ranked[n + j]); }
    }
  }

  lemma MultisetSplit(cs: seq<Candidate>, n: nat)
    requires n <= |cs|
    ensures multiset(cs[..n]) + multiset(cs[n..]) == multiset(cs)
  {
    assert cs == cs[..n] + cs[n..];
  }

  lemma KeptComeFromTheSide(items: seq<Candidate>, m: int, i: nat)
    requires i < |Kept(items, m)|
    ensures Kept(items, m)[i] in items
  {
    KeptAreTheBest(items, m, 0, 0);
    hide Kept, Dropped;
    assert Kept(items, m)[i] in multiset(Kept(items, m)) + multiset(Dropped(items, m));
  }

  /**
    The documented haircut on the second of two kept candidates is applied only when the cap is exactly two and
    there were more than two: a larger cap, or exactly two candidates, leaves confidences alone.
  */
  lemma HaircutOnlyAtExactlyTwo(items: seq<Candidate>, m: int)
    ensures m >= 1 ==> Capped(items, m).Some?
    ensures Capped(items, m).Some? ==>
              var approved := Capped(items, m).value;
              && |approved| == |Kept(items, m)|
              && forall i | 0 <= i < |approved| ::
                   approved[i] == if m == 2 && |items| > 2 && i == 1 then Halved(Kept(items, m)[i])
                                  else Kept(items, m)[i]
  {
    hide Conf, RoundTenth;
  }

  /** A cap of two on two candidates, and a cap of three on any number, halve nothing. */
  lemma HaircutIsSkipped(x: Candidate, y: Candidate, items: seq<Candidate>)
    ensures Capped([x, y], 2) == Some([x, y]) && Capped(items, 3) == Some(Kept(items, 3))
  {
    HaircutOnlyAtExactlyTwo(items, 3);
  }

  // ---------------------------------------------------------------- all underlyings

  function Approval(cs: seq<Candidate>, upper: string -> string, epsilon: real, m: int, k: string): seq<Candidate> {
    match Arbitrate(Group(cs, ByUnderlying(upper), k), epsilon, m) case Some(approved) => approved case None => []
  }

  function Approvals(cs: seq<Candidate>, upper: string -> string, epsilon: real, m: int): string -> seq<Candidate> {
    k => Approval(cs, upper, epsilon, m, k)
  }

  /** The approved candidates, underlyings in order of first appearance; `None` when the call raises. */
  function ResolveCandidates(cs: seq<Candidate>, upper: string -> string, epsilon: real, m: int)
    : Option<seq<Candidate>>
  {
    var key := ByUnderlying(upper);
    if |cs| <= 1 then Some(cs)
    else if exists k | k in Keys(cs, key) :: Arbitrate(Group(cs, key, k), epsilon, m).None? then None
    else Some(Merge(Keys(cs, key), Approvals(cs, upper, epsilon, m)))
  }

  /** Arbitrating a whole list, one underlying after the other. */
  method Resolve(cs: seq<Candidate>, upper: string -> string, epsilon: real, m: int)
    returns (raised: bool, approved: seq<Candidate>)
    ensures raised == ResolveCandidates(cs, upper, epsilon, m).None?
    ensures !raised ==> Some(approved) == ResolveCandidates(cs, upper, epsilon, m)
  {
    hide Arbitrate, Merge, Group, Keys;
    raised, approved := false, cs;
    if |cs| <= 1 { return; }
    var key := ByUnderlying(upper);
    var keys, groups := GroupBy(cs, key);
    approved := [];
    ghost var result := Approvals(cs, upper, epsilon, m);
    MergeNone(keys, result);
    for i := 0 to |keys|
      invariant raised <==> exists j | 0 <= j < i :: Arbitrate(Group(cs, key, keys[j]), epsilon, m).None?
      invariant !raised ==> approved == Merge(keys[..i], result)
    {
      MergeSnoc(keys, i, result);
      var survivors := Arbitrate(groups[keys[i]], epsilon, m);
      if survivors.None? { raised := true; } else { approved := approved + survivors.value; }
    }
    assert keys[..|keys|] == keys;
  }

  /** `key` does not look at confidences. */
  ghost predicate ConfidenceFree(key: Candidate -> string) { forall c: Candidate :: key(Halved(c)) == key(c) }

  lemma CappedInside(items: seq<Candidate>, m: int, key: Candidate -> string, k: string, i: nat)
    requires ConfidenceFree(key) && forall c | c in items :: key(c) == k
    requires Capped(items, m).Some? && i < |Capped(items, m).value|
    ensures key(Capped(items, m).value[i]) == k
  {
    HaircutOnlyAtExactlyTwo(items, m);
    KeptComeFromTheSide(items, m, i);
    hide Capped, Kept;
  }

  /** An underlying's approvals are candidates of that underlying. */
  lemma ArbitratedInside(g: seq<Candidate>, epsilon: real, m: int, key: Candidate -> string, k: string, i: nat)
    requires ConfidenceFree(key) && forall c | c in g :: key(c) == k
    requires Arbitrate(g, epsilon, m).Some? && i < |Arbitrate(g, epsilon, m).value|
    ensures key(Arbitrate(g, epsilon, m).value[i]) == k
  {
    hide Capped, Conf;
    if !Opposed(g) { CappedInside(Side(g), m, key, k, i); }
  }

  lemma KeysAreConfidenceFree(upper: string -> string)
    ensures ConfidenceFree(ByUnderlying(upper))
  {
  }

  /** A lone candidate is let through as it is, unless the cap is below one or it ties with itself. */
  lemma LoneCandidate(c: Candidate, epsilon: real, m: int)
    ensures Arbitrate([c], epsilon, m)
         == if IsCall(c) && IsPut(c) then Some(if 0.0 < epsilon then [] else [c])
            else if m >= 1 then Some([c]) else None
  {
    hide IsCall, IsPut, Conf;
    assert [c][1..] == [];
    assert Calls([c]) == if IsCall(c) then [c] else [];
    assert Puts([c]) == if IsPut(c) then [c] else [];
    assert Others([c]) == if IsCall(c) || IsPut(c) then [] else [c];
    if !Opposed([c]) {
      assert Side([c]) == [c];
    } else {
      assert Without([c], 0) == [];
    }
  }

  /** What a call approves on one underlying. */
  lemma ApprovedOnUnderlying(cs: seq<Candidate>, upper: string -> string, epsilon: real, m: int, k: string)
    requires |cs| > 1 && ResolveCandidates(cs, upper, epsilon, m).Some?
    ensures Group(ResolveCandidates(cs, upper, epsilon, m).value, ByUnderlying(upper), k)
            == Approval(cs, upper, epsilon, m, k)
    ensures Arbitrate(Group(cs, ByUnderlying(upper), k), epsilon, m).Some?
  {
    hide Group, Keys, Merge, Arbitrate;
    var key, result := ByUnderlying(upper), Approvals(cs, upper, epsilon, m);
    KeysAreConfidenceFree(upper);
    KeysAreKeys(cs, key);
    forall j, i | j in Keys(cs, key) && 0 <= i < |result(j)| ensures key(result(j)[i]) == j {
      GroupHas(cs, key, j);
      ArbitratedInside(Group(cs, key, j), epsilon, m, key, j, i);
    }
    GroupOfMerge(Keys(cs, key), result, key, k);
    if k !in Keys(cs, key) {
      KeysHaveGroups(cs, key, k);
      NoCandidates(epsilon, m);
    }
  }

  lemma NoCandidates(epsilon: real, m: int)
    ensures Arbitrate([], epsilon, m) == Some([])
  {
  }

  /** A positive cap never raises. */
  lemma PositiveCapResolves(cs: seq<Candidate>, upper: string -> string, epsilon: real, m: int)
    requires m >= 1
    ensures ResolveCandidates(cs, upper, epsilon, m).Some?
  {
    forall k ensures Arbitrate(Group(cs, ByUnderlying(upper), k), epsilon, m).Some? {
      var g := Group(cs, ByUnderlying(upper), k);
      PositiveCapNeverRaises(Side(g), m);
      if Opposed(g) {
        PositiveCapNeverRaises(Without(Calls(g), Best(Calls(g))), m);
        PositiveCapNeverRaises(Without(Puts(g), Best(Puts(g))), m);
      }
    }
    hide Arbitrate;
  }

  /** What arbitrating the candidates of one underlying alone gives. */
  lemma AloneIs(g: seq<Candidate>, upper: string -> string, epsilon: real, m: int, k: string)
    requires forall i | 0 <= i < |g| :: ByUnderlying(upper)(g[i]) == k
    ensures ResolveCandidates(g, upper, epsilon, m) == if |g| == 1 then Some(g) else Arbitrate(g, epsilon, m)
  {
    hide Group, Keys, Merge, Arbitrate;
    if |g| == 0 {
      NoCandidates(epsilon, m);
    } else if |g| > 1 {
      OneUnderlying(g, upper, epsilon, m, k);
    }
  }

  /** Company changes nothing but for a lone candidate that ties with itself. */
  lemma CompanyMattersIff(g: seq<Candidate>, epsilon: real, m: int)
    requires Arbitrate(g, epsilon, m).Some?
    ensures (if |g| == 1 then Some(g) else Arbitrate(g, epsilon, m)) == Arbitrate(g, epsilon, m)
       <==> !(|g| == 1 && IsCall(g[0]) && IsPut(g[0]) && 0.0 < epsilon)
  {
    hide Arbitrate, IsCall, IsPut;
    if |g| == 1 {
      assert g == [g[0]];
      LoneCandidate(g[0], epsilon, m);
    }
  }

  /**
    Arbitration is local: a call raises exactly when arbitrating some underlying does, and otherwise approves on an
    underlying, in the same order, what arbitrating that underlying's candidates alone approves; but for a candidate
    that is both a call and a put and alone on its underlying, which ties with itself only in company.
  */
  lemma ArbitrationIsLocalIff(cs: seq<Candidate>, upper: string -> string, epsilon: real, m: int, k: string)
    ensures ResolveCandidates(cs, upper, epsilon, m).None?
         == (|cs| > 1 && exists j | j in Keys(cs, ByUnderlying(upper)) ::
               Arbitrate(Group(cs, ByUnderlying(upper), j), epsilon, m).None?)
    ensures var g := Group(cs, ByUnderlying(upper), k);
            ResolveCandidates(cs, upper, epsilon, m).Some? ==>
              (ResolveCandidates(g, upper, epsilon, m)
               == Some(Group(ResolveCandidates(cs, upper, epsilon, m).value, ByUnderlying(upper), k)))
              == !(|cs| > 1 && |g| == 1 && IsCall(g[0]) && IsPut(g[0]) && 0.0 < epsilon)
  {
    hide Group, Keys, Merge, Arbitrate, IsCall, IsPut, ByUnderlying;
    var key, g := ByUnderlying(upper), Group(cs, ByUnderlying(upper), k);
    GroupHas(cs, key, k);
    assert forall i | 0 <= i < |g| :: g[i] in g;
    AloneIs(g, upper, epsilon, m, k);
    if |cs| <= 1 {
      GroupOfOneKey(g, key, k);
      if |g| == 0 { NoCandidates(epsilon, m); }
    } else if ResolveCandidates(cs, upper, epsilon, m).Some? {
      ApprovedOnUnderlying(cs, upper, epsilon, m, k);
      CompanyMattersIff(g, epsilon, m);
    }
  }

  lemma OneUnderlying(g: seq<Candidate>, upper: string -> string, epsilon: real, m: int, k: string)
    requires |g| > 1 && forall i | 0 <= i < |g| :: ByUnderlying(upper)(g[i]) == k
    ensures ResolveCandidates(g, upper, epsilon, m) == Arbitrate(g, epsilon, m)
  {
    hide Group, Merge, Arbitrate, Keys;
    var key := ByUnderlying(upper);
    GroupOfOneKey(g, key, k);
    KeysOfOneKey(g, key, k);
    assert k in Keys(g, key);
    assert Merge([k], Approvals(g, upper, epsilon, m)) == Approval(g, upper, epsilon, m, k) by {
      MergeNone([k], Approvals(g, upper, epsilon, m));
      MergeSnoc([k], 0, Approvals(g, upper, epsilon, m));
      assert [k][..1] == [k];
    }
  }

  /** On each underlying at most `m` candidates are approved when `m` is positive, and never a call beside a put. */
  lemma CappedAndOneSided(cs: seq<Candidate>, upper: string -> string, epsilon: real, m: int, k: string, i: nat, j: nat)
    requires ResolveCandidates(cs, upper, epsilon, m).Some?
    ensures var approved := Group(ResolveCandidates(cs, upper, epsilon, m).value, ByUnderlying(upper), k);
            && (m >= 1 ==> |approved| <= m)
            && (i < |approved| && j < |approved| && i != j ==> !(IsCall(approved[i]) && IsPut(approved[j])))
  {
    hide Group;
    GroupHas(cs, ByUnderlying(upper), k);
    if |cs| > 1 {
      ApprovedOnUnderlying(cs, upper, epsilon, m, k);
      hide ResolveCandidates;
      var g := Group(cs, ByUnderlying(upper), k);
      var side := Side(g);
      if m >= 1 { PositiveCapNeverRaises(side, m); }
      hide Capped, Conf;
      if !Opposed(g) {
        if i < |Capped(side, m).value| && j < |Capped(side, m).value| { SideIsOneSided(g, m, i, j); }
      }
    }
  }

  lemma SideIsOneSided(g: seq<Candidate>, m: int, i: nat, j: nat)
    requires !Opposed(g) && Capped(Side(g), m).Some? && i < |Capped(Side(g), m).value| && j < |Capped(Side(g), m).value|
    ensures !(IsCall(Capped(Side(g), m).value[i]) && IsPut(Capped(Side(g), m).value[j]))
  {
    var side := Side(g);
    HaircutOnlyAtExactlyTwo(side, m);
    KeptComeFromTheSide(side, m, i);
    KeptComeFromTheSide(side, m, j);
    var x, y := Kept(side, m)[i], Kept(side, m)[j];
    hide Kept, Capped, Conf;
    assert IsCall(x) ==> x in Calls(g) || (x in g && !IsCall(x));
    assert IsPut(y) ==> y in Puts(g) || (y in g && !IsPut(y));
  }

  /** The greatest confidence on one side. */
  function Top(cs: seq<Candidate>): real
    requires cs != []
  {
    Conf(cs[Best(cs)])
  }

  lemma TopIsGreatest(cs: seq<Candidate>)
    requires cs != []
    ensures (exists c | c in cs :: Conf(c) == Top(cs)) && forall c | c in cs :: Conf(c) <= Top(cs)
  {
    assert cs[Best(cs)] in cs;
  }

  lemma DuelIsDecided(calls: seq<Candidate>, puts: seq<Candidate>, epsilon: real, m: int)
    requires calls != [] && puts != []
    ensures m >= 1 ==> Duel(calls, puts, epsilon, m).Some?
    ensures var c, p := Top(calls), Top(puts);
            && (Duel(calls, puts, epsilon, m) == Some([]) <==> -epsilon < c - p < epsilon)
            && (Duel(calls, puts, epsilon, m).Some? && Duel(calls, puts, epsilon, m).value != [] ==>
                  var approved := Duel(calls, puts, epsilon, m).value;
                  && |approved| == 1 && (approved[0] in calls || approved[0] in puts)
                  && Conf(approved[0]) == (if c > p then c else p) >= epsilon + (if c > p then p else c))
  {
    var c, p := Best(calls), Best(puts);
    if m >= 1 {
      PositiveCapNeverRaises(Without(calls, c), m);
      PositiveCapNeverRaises(Without(puts, p), m);
    }
    hide Capped, Conf, Without;
    assert calls[c] in calls && puts[p] in puts;
  }

  /**
    Opposed calls and puts: the whole underlying is refused exactly when the best of each are less than `epsilon`
    apart; otherwise one candidate survives, the most confident of all, ahead of the whole other side by `epsilon`.
  */
  lemma OpposedUnderlying(g: seq<Candidate>, epsilon: real, m: int)
    requires Opposed(g)
    ensures m >= 1 ==> Arbitrate(g, epsilon, m).Some?
    ensures var c, p := Top(Calls(g)), Top(Puts(g));
            && (Arbitrate(g, epsilon, m) == Some([]) <==> -epsilon < c - p < epsilon)
            && (Arbitrate(g, epsilon, m).Some? && Arbitrate(g, epsilon, m).value != [] ==>
                  var approved := Arbitrate(g, epsilon, m).value;
                  && |approved| == 1 && approved[0] in g
                  && Conf(approved[0]) == (if c > p then c else p) >= epsilon + (if c > p then p else c))
  {
    hide Duel, Top, Conf;
    DuelIsDecided(Calls(g), Puts(g), epsilon, m);
  }

  // ---------------------------------------------------------------- two candidates

  /** A candidate is grouped under its underlying, upper-cased, or under UNKNOWN without one. */
  lemma UnderlyingMeans(c: Candidate, upper: string -> string)
    ensures ByUnderlying(upper)(c)
            == upper(if c.underlying.Some? && c.underlying.value != "" then c.underlying.value else "UNKNOWN")
  {
  }

  /** The direction names a side. */
  ghost predicate Names(direction: string, side: string) { exists i :: At(direction, i, side) }

  /** A call and a put. */
  ghost predicate Opposite(x: Candidate, y: Candidate) {
    && Names(x.direction, "CALL") && !Names(x.direction, "PUT")
    && Names(y.direction, "PUT") && !Names(y.direction, "CALL")
  }

  lemma SidesMean(c: Candidate)
    ensures IsCall(c) <==> Names(c.direction, "CALL")
    ensures IsPut(c) <==> Names(c.direction, "PUT")
  {
    NamesIff(c.direction, "CALL");
    NamesIff(c.direction, "PUT");
  }

  lemma NamesIff(direction: string, side: string)
    ensures Contains(direction, side) <==> Names(direction, side)
  {
    FindLeast(direction, side);
    match Find(direction, side)
    case Some(i) => assert At(direction, i, side);
    case None =>
  }

  /** A candidate that names both sides ties with itself under a positive margin. */
  predicate TiesWithItself(c: Candidate, epsilon: real) { IsCall(c) && IsPut(c) && 0.0 < epsilon }

  /** On two underlyings each is approved whatever the other's direction and confidence, unless it ties with itself. */
  lemma UnlikeUnderlyingsDoNotConflict(x: Candidate, y: Candidate, upper: string -> string, epsilon: real, m: int)
    requires ByUnderlying(upper)(x) != ByUnderlying(upper)(y) && m >= 1
    ensures ResolveCandidates([x, y], upper, epsilon, m)
            == Some((if TiesWithItself(x, epsilon) then [] else [x]) + if TiesWithItself(y, epsilon) then [] else [y])
  {
    var key := ByUnderlying(upper);
    PairGroups(x, y, key, key(x));
    PairGroups(x, y, key, key(y));
    LoneCandidate(x, epsilon, m);
    LoneCandidate(y, epsilon, m);
    hide Group, Keys, Arbitrate, ByUnderlying, IsCall, IsPut;
    var result := Approvals([x, y], upper, epsilon, m);
    var keys := Keys([x, y], key);
    assert Group([x, y], key, key(x)) == [x] && Group([x, y], key, key(y)) == [y];
    assert keys == [key(x), key(y)];
    assert forall k | k in keys :: Arbitrate(Group([x, y], key, k), epsilon, m).Some?;
    assert result(key(x)) == if TiesWithItself(x, epsilon) then [] else [x];
    assert result(key(y)) == if TiesWithItself(y, epsilon) then [] else [y];
    MergeNone(keys, result);
    MergeSnoc(keys, 0, result);
    MergeSnoc(keys, 1, result);
    assert keys[..2] == keys && keys[0] == key(x) && keys[1] == key(y);
    assert Merge(keys, result) == [] + result(key(x)) + result(key(y)) == result(key(x)) + result(key(y));
    hide Merge, Approvals;
    assert ResolveCandidates([x, y], upper, epsilon, m) == Some(Merge(keys, result));
  }

  /** On one underlying the more confident of a call and a put wins, unless they are less than the margin apart. */
  lemma CallAgainstPut(x: Candidate, y: Candidate, upper: string -> string, epsilon: real, m: int)
    requires ByUnderlying(upper)(x) == ByUnderlying(upper)(y) && Opposite(x, y) && m >= 0
    ensures var c := if x.confidence.Some? then x.confidence.value else 50.0;
            var p := if y.confidence.Some? then y.confidence.value else 50.0;
            ResolveCandidates([x, y], upper, epsilon, m)
            == Some(if c - p < epsilon && p - c < epsilon then [] else if c > p then [x] else [y])
  {
    SidesMean(x);
    SidesMean(y);
    hide Names, IsCall, IsPut, Arbitrate, ResolveCandidates;
    OneUnderlying([x, y], upper, epsilon, m, ByUnderlying(upper)(x));
    PairIsArbitrated(x, y, epsilon, m);
  }

  lemma PairIsArbitrated(x: Candidate, y: Candidate, epsilon: real, m: int)
    requires IsCall(x) && !IsPut(x) && IsPut(y) && !IsCall(y) && m >= 0
    ensures Arbitrate([x, y], epsilon, m)
            == Some(if Conf(x) - Conf(y) < epsilon && Conf(y) - Conf(x) < epsilon then []
                    else if Conf(x) > Conf(y) then [x] else [y])
  {
    hide IsCall, IsPut, Conf;
    assert [x, y][1..] == [y] && [y][1..] == [];
    assert Calls([y]) == [] && Puts([y]) == if IsPut(y) then [y] else [];
    assert Calls([x, y]) == [x] + Calls([y]) && Puts([x, y]) == [] + Puts([y]);
    assert Without([x], 0) == [] && Without([y], 0) == [];
    hide Calls, Puts, Without;
  }

  /** Rounding to a tenth: the nearest whole number of tenths, the even one when two are equally near. */
  lemma RoundTenthMeans(x: real) returns (n: int)
    ensures RoundTenth(x) * 10.0 == n as real
    ensures -0.5 <= x * 10.0 - n as real <= 0.5
    ensures x * 10.0 - n as real == 0.5 || x * 10.0 - n as real == -0.5 ==> n % 2 == 0
  {
    var below := (x * 10.0).Floor;
    var over := x * 10.0 - below as real;
    n := if over < 0.5 || (over == 0.5 && below % 2 == 0) then below else below + 1;
  }

  /** The haircut halves the confidence, fifty if there is none, rounded to a tenth, and changes nothing else. */
  lemma HalvedMeans(c: Candidate)
    ensures var h := Halved(c);
            && h.underlying == c.underlying && h.direction == c.direction && h.strategy == c.strategy
            && h.confidence == Some(RoundTenth(if c.confidence.Some? then c.confidence.value / 2.0 else 25.0))
  {
    assert Conf(c) * 0.5 == if c.confidence.Some? then c.confidence.value / 2.0 else 25.0;
  }

  /** How many of a side are kept: the cap, or for a cap below zero all but that many, and never fewer than none. */
  lemma KeptCount(items: seq<Candidate>, m: int)
    ensures |Kept(items, m)| == if |items| <= m then |items| else if m >= 0 then m
                                else if |items| + m >= 0 then |items| + m else 0
  {
  }

  /** Capping raises exactly when it keeps nobody of a side that has somebody. */
  lemma CapRaisesIff(items: seq<Candidate>, m: int)
    ensures Capped(items, m).None? <==> items != [] && m <= 0 && (m == 0 || |items| + m <= 0)
  {
    KeptCount(items, m);
    KeptAreTheBest(items, m, 0, 0);
    hide Kept, Dropped;
    assert |multiset(items)| == |items| && |multiset(Kept(items, m))| == |Kept(items, m)|
        && |multiset(Dropped(items, m))| == |Dropped(items, m)|;
  }

  /** Opposed sides raise exactly when one wins and capping the rest of it does. */
  lemma OpposedRaisesIff(g: seq<Candidate>, epsilon: real, m: int)
    requires Opposed(g)
    ensures var c, p := Top(Calls(g)), Top(Puts(g));
            var others := (if c > p then |Calls(g)| else |Puts(g)|) - 1;
            Arbitrate(g, epsilon, m).None? <==>
              !(-epsilon < c - p < epsilon) && others > 0 && m <= 0 && (m == 0 || others + m <= 0)
  {
    CapRaisesIff(Without(Calls(g), Best(Calls(g))), m);
    CapRaisesIff(Without(Puts(g), Best(Puts(g))), m);
    hide Capped, Conf;
  }
}
