/** The path-dependent labelling of `build_ml_dataset.py`: which barrier a trade touches first, over exact prices. */
module TripleBarrier {
  import opened Basics
  import opened Text

  datatype Candle = Candle(high: real, low: real)

  datatype Label = StopFirst | Timeout | TargetFirst

  /** A call pays above its entry and is stopped below it; a put is its mirror. */
  datatype Trade = Trade(call: bool, entry: real, target: real, stop: real)

  /** `mfe` and `mae` are the best and worst excursions in units of risk. */
  datatype Outcome = Outcome(verdict: Label, mfe: real, mae: real, barsToExit: nat)

  function Max(x: real, y: real): real { if x >= y then x else y }

  /** The distance to the stop, or a fifth of a percent of the entry when there is none. */
  function Risk(t: Trade): real { if t.entry == t.stop then t.entry * 0.002 else Abs(t.entry - t.stop) }

  predicate StopTouched(t: Trade, c: Candle) { if t.call then c.low <= t.stop else c.high >= t.stop }
  predicate TargetTouched(t: Trade, c: Candle) { if t.call then c.high >= t.target else c.low <= t.target }
  predicate Touched(t: Trade, c: Candle) { StopTouched(t, c) || TargetTouched(t, c) }

  function Favourable(t: Trade, c: Candle): real { Max(0.0, if t.call then c.high - t.entry else t.entry - c.low) }
  function Adverse(t: Trade, c: Candle): real { Max(0.0, if t.call then t.entry - c.low else c.high - t.entry) }

  /** The first bar that touches a barrier, or the length of the window. */
  function FirstTouch(t: Trade, window: seq<Candle>): (n: nat)
    ensures n <= |window| && (forall i | 0 <= i < n :: !Touched(t, window[i]))
    ensures n < |window| ==> Touched(t, window[n])
  {
    if window == [] || Touched(t, window[0]) then 0 else 1 + FirstTouch(t, window[1..])
  }

  function MaxOver(window: seq<Candle>, excursion: Candle -> real): real {
    if window == [] then 0.0 else Max(MaxOver(window[..|window| - 1], excursion), excursion(window[|window| - 1]))
  }

  lemma {:induction false} MaxOverIsMax(window: seq<Candle>, excursion: Candle -> real)
    ensures MaxOver(window, excursion) >= 0.0
    ensures forall i | 0 <= i < |window| :: excursion(window[i]) <= MaxOver(window, excursion)
    ensures || MaxOver(window, excursion) == 0.0
            || exists i | 0 <= i < |window| :: excursion(window[i]) == MaxOver(window, excursion)
    decreases |window|
  {
    if window == [] {
    } else {
      MaxOverIsMax(window[..|window| - 1], excursion);
    }
  }

  function FavourableOf(t: Trade): Candle -> real { (c: Candle) => Favourable(t, c) }
  function AdverseOf(t: Trade): Candle -> real { (c: Candle) => Adverse(t, c) }

  /** `future[:timeout]`: a negative timeout counts from the end. */
  function Window(future: seq<Candle>, timeout: int): (w: seq<Candle>)
    ensures w <= future
  {
    if timeout >= 0 then (if timeout <= |future| then future[..timeout] else future)
    else if |future| + timeout >= 0 then future[..|future| + timeout]
    else []
  }

  /** The excursions in units of risk; `None` when dividing by a zero risk raises. */
  function InRisk(verdict: Label, fav: real, adv: real, risk: real, bars: nat): Option<Outcome> {
    if risk == 0.0 then None else Some(Outcome(verdict, fav / risk, adv / risk, bars))
  }

  /** What the barriers decide: the first touch, stop before target, and the extremes up to and including that bar. */
  function Result(t: Trade, future: seq<Candle>, timeout: int): Option<Outcome> {
    var window := Window(future, timeout);
    var n := FirstTouch(t, window);
    var bars := if n < |window| then n + 1 else n;
    InRisk(if n == |window| then Timeout else if StopTouched(t, window[n]) then StopFirst else TargetFirst,
           MaxOver(window[..bars], FavourableOf(t)), MaxOver(window[..bars], AdverseOf(t)), Risk(t), bars)
  }

  method EvaluateTripleBarrier(t: Trade, future: seq<Candle>, timeout: int) returns (r: Option<Outcome>)
    ensures r == Result(t, future, timeout)
  {
    hide InRisk, Window, FirstTouch, MaxOver, Result;
    var risk := Abs(t.entry - t.stop);
    if risk <= 0.0 { risk := t.entry * 0.002; }
    var maxFav, maxAdv := 0.0, 0.0;
    var window := Window(future, timeout);
    NoBars(window, FavourableOf(t));
    NoBars(window, AdverseOf(t));
    for i := 0 to |window|
      invariant forall j | 0 <= j < i :: !Touched(t, window[j])
      invariant maxFav == MaxOver(window[..i], FavourableOf(t)) && maxAdv == MaxOver(window[..i], AdverseOf(t))
    {
      var bar := window[i];
      MaxOverNext(window, i, FavourableOf(t));
      MaxOverNext(window, i, AdverseOf(t));
      maxFav := Max(maxFav, if t.call then Max(0.0, bar.high - t.entry) else Max(0.0, t.entry - bar.low));
      maxAdv := Max(maxAdv, if t.call then Max(0.0, t.entry - bar.low) else Max(0.0, bar.high - t.entry));
      if Touched(t, bar) { ResultAt(t, future, timeout, i); }
      if t.call {
        if bar.low <= t.stop { return InRisk(StopFirst, maxFav, maxAdv, risk, i + 1); }
        if bar.high >= t.target { return InRisk(TargetFirst, maxFav, maxAdv, risk, i + 1); }
      } else {
        if bar.high >= t.stop { return InRisk(StopFirst, maxFav, maxAdv, risk, i + 1); }
        if bar.low <= t.target { return InRisk(TargetFirst, maxFav, maxAdv, risk, i + 1); }
      }
    }
    ResultAt(t, future, timeout, |window|);
    r := InRisk(Timeout, maxFav, maxAdv, risk, |window|);
  }

  lemma NoBars(window: seq<Candle>, excursion: Candle -> real)
    ensures MaxOver(window[..0], excursion) == 0.0
  {
  }

  lemma MaxOverNext(window: seq<Candle>, i: nat, excursion: Candle -> real)
    requires i < |window|
    ensures MaxOver(window[..i + 1], excursion) == Max(MaxOver(window[..i], excursion), excursion(window[i]))
  {
    assert window[..i + 1][..i] == window[..i];
  }

  lemma {:induction false} FirstTouchIs(t: Trade, window: seq<Candle>, n: nat)
    requires n <= |window| && (forall i | 0 <= i < n :: !Touched(t, window[i]))
    requires n < |window| ==> Touched(t, window[n])
    ensures FirstTouch(t, window) == n
  {
    hide Touched;
    if n == 0 {
    } else {
      FirstTouchIs(t, window[1..], n - 1);
    }
  }

  /** The result, when the first touch of the window is known to be at `n`. */
  lemma ResultAt(t: Trade, future: seq<Candle>, timeout: int, n: nat)
    requires var w := Window(future, timeout);
             n <= |w| && (forall i | 0 <= i < n :: !Touched(t, w[i])) && (n < |w| ==> Touched(t, w[n]))
    ensures var w := Window(future, timeout);
            var bars := if n < |w| then n + 1 else n;
            Result(t, future, timeout) == InRisk(
              if n == |w| then Timeout else if StopTouched(t, w[n]) then StopFirst else TargetFirst,
              MaxOver(w[..bars], FavourableOf(t)), MaxOver(w[..bars], AdverseOf(t)), Risk(t), bars)
  {
    FirstTouchIs(t, Window(future, timeout), n);
  }

  /** The label is a first touch: of the target with no stop touch up to and including that bar, or of the stop. */
  lemma LabelIsFirstTouch(t: Trade, future: seq<Candle>, timeout: int)
    requires Risk(t) != 0.0
    ensures var w, verdict := Window(future, timeout), Result(t, future, timeout).value.verdict;
            && (verdict == TargetFirst <==>
                  exists i | 0 <= i < |w| :: TargetTouched(t, w[i]) && forall j | 0 <= j <= i :: !StopTouched(t, w[j]))
            && (verdict == StopFirst <==>
                  exists i | 0 <= i < |w| :: StopTouched(t, w[i]) && forall j | 0 <= j < i :: !TargetTouched(t, w[j]))
            && (verdict == Timeout <==> forall i | 0 <= i < |w| :: !Touched(t, w[i]))
  {
  }

  /** The label in prices: a call is stopped from below and pays above, a put the other way round, the stop first. */
  lemma LabelOnPrices(t: Trade, future: seq<Candle>, timeout: int)
    requires Risk(t) != 0.0
    ensures var w, verdict := Window(future, timeout), Result(t, future, timeout).value.verdict;
            t.call ==>
              && (verdict == TargetFirst <==>
                    exists i | 0 <= i < |w| :: w[i].high >= t.target && forall j | 0 <= j <= i :: w[j].low > t.stop)
              && (verdict == StopFirst <==>
                    exists i | 0 <= i < |w| :: w[i].low <= t.stop && forall j | 0 <= j < i :: w[j].high < t.target)
    ensures var w, verdict := Window(future, timeout), Result(t, future, timeout).value.verdict;
            !t.call ==>
              && (verdict == TargetFirst <==>
                    exists i | 0 <= i < |w| :: w[i].low <= t.target && forall j | 0 <= j <= i :: w[j].high < t.stop)
              && (verdict == StopFirst <==>
                    exists i | 0 <= i < |w| :: w[i].high >= t.stop && forall j | 0 <= j < i :: w[j].low > t.target)
  {
    LabelIsFirstTouch(t, future, timeout);
    hide Result, Window;
  }

  /** The exit is the first bar that touches a barrier, counted from one, or the end of the window. */
  lemma ExitIsFirstTouch(t: Trade, future: seq<Candle>, timeout: int)
    requires Risk(t) != 0.0
    ensures var w, r := Window(future, timeout), Result(t, future, timeout).value;
            && r.barsToExit <= |w|
            && (r.verdict == Timeout ==> r.barsToExit == |w|)
            && (r.verdict != Timeout ==> r.barsToExit > 0 && Touched(t, w[r.barsToExit - 1]))
            && (forall i | 0 <= i < r.barsToExit - 1 :: !Touched(t, w[i]))
  {
    hide MaxOver, Touched, StopTouched;
  }

  /** The risk is the distance from entry to stop, or a fifth of a percent of the entry where they coincide. */
  lemma RiskMeans(t: Trade)
    ensures t.entry > t.stop ==> Risk(t) == t.entry - t.stop
    ensures t.entry < t.stop ==> Risk(t) == t.stop - t.entry
    ensures t.entry == t.stop ==> 500.0 * Risk(t) == t.entry
  {
  }

  /** The bars looked at are the first `timeout`, or all but the last `-timeout`. */
  lemma WindowMeans(future: seq<Candle>, timeout: int)
    ensures var w := Window(future, timeout);
            && w <= future
            && (0 <= timeout <= |future| ==> |w| == timeout)
            && (timeout > |future| ==> w == future)
            && (timeout < 0 ==> |w| == if |future| + timeout < 0 then 0 else |future| + timeout)
  {
  }

  /** How far a bar's best and worst prices lie from the entry, for and against the trade. */
  function ForTrade(t: Trade, c: Candle): real { if t.call then c.high - t.entry else t.entry - c.low }
  function AgainstTrade(t: Trade, c: Candle): real { if t.call then t.entry - c.low else c.high - t.entry }

  /** `x` is the greatest of zero and `signed` over the first `n` bars, in units of risk. */
  ghost predicate IsExtreme(x: real, risk: real, w: seq<Candle>, n: nat, signed: Candle -> real)
    requires n <= |w|
  {
    && x * risk >= 0.0 && (forall i | 0 <= i < n :: signed(w[i]) <= x * risk)
    && (x == 0.0 || exists i | 0 <= i < n :: signed(w[i]) == x * risk)
  }

  lemma MaxIsExtreme(w: seq<Candle>, n: nat, excursion: Candle -> real, signed: Candle -> real, risk: real)
    requires n <= |w| && risk != 0.0
    requires forall i | 0 <= i < n :: excursion(w[i]) == Max(0.0, signed(w[i]))
    ensures IsExtreme(MaxOver(w[..n], excursion) / risk, risk, w, n, signed)
  {
    hide MaxOver;
    MaxOverIsMax(w[..n], excursion);
    var m := MaxOver(w[..n], excursion);
    Divided(m, risk);
    assert forall i | 0 <= i < n :: w[..n][i] == w[i];
    if m != 0.0 {
      var i :| 0 <= i < |w[..n]| && excursion(w[..n][i]) == m;
      assert signed(w[i]) == m / risk * risk;
    }
  }

  lemma Divided(x: real, risk: real)
    requires risk != 0.0
    ensures x / risk * risk == x && (x == 0.0 ==> x / risk == 0.0)
  {
  }

  /**
    In units of risk, the excursions are the extremes over the bars up to and including the exit, never on the wrong
    side of zero.
  */
  lemma ExcursionsAreExtremes(t: Trade, future: seq<Candle>, timeout: int)
    requires Risk(t) != 0.0
    ensures var r, w := Result(t, future, timeout).value, Window(future, timeout);
            && r.barsToExit <= |w|
            && IsExtreme(r.mfe, Risk(t), w, r.barsToExit, c => ForTrade(t, c))
            && IsExtreme(r.mae, Risk(t), w, r.barsToExit, c => AgainstTrade(t, c))
  {
    var r, w := Result(t, future, timeout).value, Window(future, timeout);
    var n := r.barsToExit;
    assert n <= |w| && r.mfe == MaxOver(w[..n], FavourableOf(t)) / Risk(t)
        && r.mae == MaxOver(w[..n], AdverseOf(t)) / Risk(t);
    hide MaxOver, Result, FirstTouch, Risk, IsExtreme;
    MaxIsExtreme(w, n, FavourableOf(t), c => ForTrade(t, c), Risk(t));
    MaxIsExtreme(w, n, AdverseOf(t), c => AgainstTrade(t, c), Risk(t));
  }

  /**
    The answer depends only on the first `barsToExit` bars of the window, and on where it ends if nothing was touched.
  */
  lemma OnlyBarsToExitMatter(t: Trade, future: seq<Candle>, other: seq<Candle>, timeout: int, later: int)
    requires Risk(t) != 0.0
    requires var r, w, v := Result(t, future, timeout).value, Window(future, timeout), Window(other, later);
             && |v| >= r.barsToExit && v[..r.barsToExit] == w[..r.barsToExit]
             && (r.verdict == Timeout ==> |v| == |w|)
    ensures Result(t, other, later) == Result(t, future, timeout)
  {
    hide MaxOver, Window;
    var w, v := Window(future, timeout), Window(other, later);
    var bars, n := Result(t, future, timeout).value.barsToExit, FirstTouch(t, w);
    assert forall i | 0 <= i < bars :: w[..bars][i] == v[..bars][i];
    FirstTouchIs(t, v, n);
  }

  // ---------------------------------------------------------------- calls and puts mirror each other

  function Mirror(t: Trade): Trade { Trade(!t.call, t.entry, 2.0 * t.entry - t.target, 2.0 * t.entry - t.stop) }
  function Reflected(entry: real, c: Candle): Candle { Candle(2.0 * entry - c.low, 2.0 * entry - c.high) }

  function ReflectedAll(entry: real, cs: seq<Candle>): (r: seq<Candle>)
    ensures |r| == |cs| && forall i | 0 <= i < |cs| :: r[i] == Reflected(entry, cs[i])
  {
    seq(|cs|, i requires 0 <= i < |cs| => Reflected(entry, cs[i]))
  }

  lemma TouchesReflect(t: Trade, c: Candle)
    ensures StopTouched(Mirror(t), Reflected(t.entry, c)) == StopTouched(t, c)
    ensures TargetTouched(Mirror(t), Reflected(t.entry, c)) == TargetTouched(t, c)
    ensures Favourable(Mirror(t), Reflected(t.entry, c)) == Favourable(t, c)
    ensures Adverse(Mirror(t), Reflected(t.entry, c)) == Adverse(t, c)
  {
  }

  lemma {:induction false} MaximaReflect(t: Trade, window: seq<Candle>, mirrored: seq<Candle>)
    requires |mirrored| == |window| && forall i | 0 <= i < |window| :: mirrored[i] == Reflected(t.entry, window[i])
    ensures MaxOver(mirrored, FavourableOf(Mirror(t))) == MaxOver(window, FavourableOf(t))
    ensures MaxOver(mirrored, AdverseOf(Mirror(t))) == MaxOver(window, AdverseOf(t))
    decreases |window|
  {
    if window == [] {
    } else {
      var n := |window| - 1;
      TouchesReflect(t, window[n]);
      MaximaReflect(t, window[..n], mirrored[..n]);
      hide Favourable, Adverse;
    }
  }

  /** Reflecting every price about the entry turns a call into a put with the same outcome, and a put into a call. */
  lemma ReflectionKeepsOutcome(t: Trade, future: seq<Candle>, timeout: int)
    ensures Result(Mirror(t), ReflectedAll(t.entry, future), timeout) == Result(t, future, timeout)
    ensures Mirror(Mirror(t)) == t
  {
    var w, v := Window(future, timeout), Window(ReflectedAll(t.entry, future), timeout);
    var n := FirstTouch(t, w);
    var bars := if n < |w| then n + 1 else n;
    assert |v| == |w| && forall i | 0 <= i < |w| :: v[i] == Reflected(t.entry, w[i]);
    assert Risk(Mirror(t)) == Risk(t);
    forall i | 0 <= i < |w|
      ensures Touched(Mirror(t), v[i]) == Touched(t, w[i]) && StopTouched(Mirror(t), v[i]) == StopTouched(t, w[i])
    {
      TouchesReflect(t, w[i]);
    }
    MaximaReflect(t, w[..bars], v[..bars]);
    hide MaxOver, FirstTouch, Window, StopTouched, TargetTouched, Touched, InRisk, Risk, Reflected, Result,
        ReflectedAll, Mirror;
    ResultAt(t, future, timeout, n);
    ResultAt(Mirror(t), ReflectedAll(t.entry, future), timeout, n);
  }
}
