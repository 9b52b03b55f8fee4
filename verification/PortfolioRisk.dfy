/**
  The portfolio limits: the exposure aggregation of `algo_service.py` and the checks of
  `PortfolioRiskEngine.evaluate` in `risk.py`, and what they guarantee over runs of approved orders.
*/
module PortfolioRisk {
  import opened Basics
  import opened Grouping
  import opened Text

  datatype Position = Position(
    side: Side, quantity: int, currentPrice: Option<real>, averageEntry: Option<real>,
    underlying: Option<string>, symbol: string, strategy: Option<string>, greeks: Greeks)

  /** A missing greek counts as zero. */
  datatype Greeks = Greeks(delta: real, gamma: real, theta: real, vega: real)

  const NO_GREEKS := Greeks(0.0, 0.0, 0.0, 0.0)

  function Plus(a: Greeks, b: Greeks): Greeks {
    Greeks(a.delta + b.delta, a.gamma + b.gamma, a.theta + b.theta, a.vega + b.vega)
  }

  function Times(g: Greeks, n: int): Greeks {
    Greeks(g.delta * n as real, g.gamma * n as real, g.theta * n as real, g.vega * n as real)
  }

  datatype Exposure = Exposure(
    gross: real, net: real, long: real, short: real, greeks: Greeks,
    byUnderlying: map<string, real>, byStrategy: map<string, real>, byExpiry: map<string, real>)

  /** Python's `x or default` on an optional number or string. */
  function NonZeroOr(x: Option<real>, default: real): real { if x.Some? && x.value != 0.0 then x.value else default }
  predicate Named(x: Option<string>) { x.Some? && x.value != "" }
  function NameOr(x: Option<string>, default: string): string { if Named(x) then x.value else default }

  function Notional(p: Position): (n: real)
    ensures n >= 0.0
  {
    Abs(p.quantity as real * NonZeroOr(p.currentPrice, NonZeroOr(p.averageEntry, 0.0)))
  }

  function UnderlyingOf(p: Position): string { NameOr(p.underlying, p.symbol) }
  function StrategyOf(p: Position): string { NameOr(p.strategy, "unknown") }

  // ---------------------------------------------------------------- exposure as sums over the book

  function Gross(ps: seq<Position>): (g: real)
    ensures g >= 0.0
  {
    if ps == [] then 0.0 else Gross(ps[..|ps| - 1]) + Notional(ps[|ps| - 1])
  }

  function OfSide(ps: seq<Position>, side: Side): real {
    if ps == [] then 0.0
    else OfSide(ps[..|ps| - 1], side) + if ps[|ps| - 1].side == side then Notional(ps[|ps| - 1]) else 0.0
  }

  function Bucket(ps: seq<Position>, name: Position -> string, u: string): (b: real)
    ensures b >= 0.0
  {
    if ps == [] then 0.0
    else Bucket(ps[..|ps| - 1], name, u) + if name(ps[|ps| - 1]) == u then Notional(ps[|ps| - 1]) else 0.0
  }

  function Buckets(ps: seq<Position>, name: Position -> string): map<string, real> {
    map u | u in Keys(ps, name) :: Bucket(ps, name, u)
  }

  function TotalGreeks(ps: seq<Position>): Greeks {
    if ps == [] then NO_GREEKS else Plus(TotalGreeks(ps[..|ps| - 1]), Times(ps[|ps| - 1].greeks, ps[|ps| - 1].quantity))
  }

  function ExposureOf(ps: seq<Position>): Exposure {
    var long, short := OfSide(ps, LONG), OfSide(ps, SHORT);
    Exposure(Gross(ps), long - short, long, short, TotalGreeks(ps), Buckets(ps, UnderlyingOf),
        Buckets(ps, StrategyOf), map[])
  }

  // What goes into the sums, in the position's own fields.

  /** The current price values a position, and only without one (or at a price of zero) its average entry. */
  lemma NotionalMeans(p: Position)
    ensures var price := if p.currentPrice.Some? && p.currentPrice.value != 0.0 then p.currentPrice.value
                         else if p.averageEntry.Some? then p.averageEntry.value else 0.0;
            Notional(p) >= 0.0 && Notional(p) in {p.quantity as real * price, -(p.quantity as real * price)}
  {
  }

  /**
    Positions are grouped under their underlying, or their symbol, and under their strategy, if these are not empty.
  */
  lemma NamesMean(p: Position)
    ensures p.underlying.Some? && p.underlying.value != "" ==> UnderlyingOf(p) == p.underlying.value
    ensures p.underlying.None? || p.underlying.value == "" ==> UnderlyingOf(p) == p.symbol
    ensures p.strategy.Some? && p.strategy.value != "" ==> StrategyOf(p) == p.strategy.value
    ensures p.strategy.None? || p.strategy.value == "" ==> StrategyOf(p) == "unknown"
  {
  }

  function SumOf(ps: seq<Position>, part: Position -> real): real {
    if ps == [] then 0.0 else SumOf(ps[..|ps| - 1], part) + part(ps[|ps| - 1])
  }

  /** Each greek of the book is the sum of the positions' own, times their quantities. */
  lemma {:induction false} GreeksAreSums(ps: seq<Position>)
    ensures TotalGreeks(ps).delta == SumOf(ps, (p: Position) => p.greeks.delta * p.quantity as real)
    ensures TotalGreeks(ps).gamma == SumOf(ps, (p: Position) => p.greeks.gamma * p.quantity as real)
    ensures TotalGreeks(ps).theta == SumOf(ps, (p: Position) => p.greeks.theta * p.quantity as real)
    ensures TotalGreeks(ps).vega == SumOf(ps, (p: Position) => p.greeks.vega * p.quantity as real)
    decreases |ps|
  {
    if ps == [] {
    } else {
      GreeksAreSums(ps[..|ps| - 1]);
    }
  }

  method BuildExposure(ps: seq<Position>) returns (e: Exposure)
    ensures e == ExposureOf(ps)
  {
    var gross, long, short, greeks := 0.0, 0.0, 0.0, NO_GREEKS;
    var byU: map<string, real>, byS: map<string, real> := map[], map[];
    for i := 0 to |ps|
      invariant Exposure(gross, long - short, long, short, greeks, byU, byS, map[]) == ExposureOf(ps[..i])
    {
      var p := ps[i];
      assert ps[..i + 1] == ps[..i] + [p];
      ExposureSnoc(ps[..i], p);
      hide *;
      var notional := Notional(p);
      gross := gross + notional;
      if p.side == LONG { long := long + notional; } else { short := short + notional; }
      var u, s := UnderlyingOf(p), StrategyOf(p);
      greeks := Plus(greeks, Times(p.greeks, p.quantity));
      byU, byS := Add(byU, u, notional), Add(byS, s, notional);
    }
    assert ps[..|ps|] == ps;
    e := Exposure(gross, long - short, long, short, greeks, byU, byS, map[]);
  }

  function Add(m: map<string, real>, u: string, notional: real): map<string, real> {
    m[u := (if u in m then m[u] else 0.0) + notional]
  }

  lemma ExposureSnoc(ps: seq<Position>, p: Position)
    ensures var e, n := ExposureOf(ps), Notional(p);
            var long := if p.side == LONG then e.long + n else e.long;
            var short := if p.side == LONG then e.short else e.short + n;
            ExposureOf(ps + [p]) == Exposure(e.gross + n, long - short, long, short,
                Plus(e.greeks, Times(p.greeks, p.quantity)),
              Add(e.byUnderlying, UnderlyingOf(p), n), Add(e.byStrategy, StrategyOf(p), n), map[])
  {
    SumsSnoc(ps, p);
    BucketsSnoc(ps, p, UnderlyingOf);
    BucketsSnoc(ps, p, StrategyOf);
    assert (ps + [p])[..|ps|] == ps;
    hide Notional, Buckets, Gross, OfSide, UnderlyingOf, StrategyOf, Plus, Times;
  }

  lemma BucketSnoc(ps: seq<Position>, p: Position, name: Position -> string, u: string)
    ensures Bucket(ps + [p], name, u) == Bucket(ps, name, u) + if name(p) == u then Notional(p) else 0.0
  {
    assert (ps + [p])[..|ps|] == ps;
  }

  lemma SumsSnoc(ps: seq<Position>, p: Position)
    ensures Gross(ps + [p]) == Gross(ps) + Notional(p)
    ensures forall side :: OfSide(ps + [p], side) == OfSide(ps, side) + if p.side == side then Notional(p) else 0.0
  {
    assert (ps + [p])[..|ps|] == ps;
  }

  lemma {:induction false} UnnamedIsEmpty(ps: seq<Position>, name: Position -> string, u: string)
    requires u !in Keys(ps, name)
    ensures Bucket(ps, name, u) == 0.0
    decreases |ps|
  {
    if ps == [] {
    } else {
      UnnamedIsEmpty(ps[..|ps| - 1], name, u);
    }
  }

  lemma BucketsSnoc(ps: seq<Position>, p: Position, name: Position -> string)
    ensures var m, u := Buckets(ps, name), name(p);
            Buckets(ps + [p], name) == Add(m, u, Notional(p))
  {
    hide Notional;
    KeysSnoc(ps, p, name);
    var m, m' := Buckets(ps, name), Buckets(ps + [p], name);
    forall v | v in m'
      ensures m'[v] == Bucket(ps, name, v) + if name(p) == v then Notional(p) else 0.0
    {
      BucketSnoc(ps, p, name, v);
    }
    if name(p) !in m { UnnamedIsEmpty(ps, name, name(p)); }
  }

  function SumBuckets(ps: seq<Position>, name: Position -> string, keys: seq<string>): real {
    if keys == [] then 0.0 else SumBuckets(ps, name, keys[..|keys| - 1]) + Bucket(ps, name, keys[|keys| - 1])
  }

  lemma {:induction false} SumBucketsSnoc(ps: seq<Position>, p: Position, name: Position -> string, keys: seq<string>)
    requires Distinct(keys)
    ensures SumBuckets(ps + [p], name, keys)
            == SumBuckets(ps, name, keys) + if name(p) in keys then Notional(p) else 0.0
    decreases |keys|
  {
    hide Notional;
    if keys == [] {
    } else {
      var init, last := keys[..|keys| - 1], keys[|keys| - 1];
      assert keys == init + [last];
      SumBucketsSnoc(ps, p, name, init);
      BucketSnoc(ps, p, name, last);
      assert last !in init;
    }
  }

  /** Gross exposure is long plus short, and the sum of the buckets under either grouping. */
  lemma {:induction false} GrossIsConserved(ps: seq<Position>, name: Position -> string)
    ensures Gross(ps) == OfSide(ps, LONG) + OfSide(ps, SHORT)
    ensures Distinct(Keys(ps, name)) && Gross(ps) == SumBuckets(ps, name, Keys(ps, name))
    decreases |ps|
  {
    hide Notional;
    if ps == [] {
    } else {
      var init, p := ps[..|ps| - 1], ps[|ps| - 1];
      assert ps == init + [p];
      GrossIsConserved(init, name);
      var before := Keys(init, name);
      SumBucketsSnoc(init, p, name, before);
      if name(p) !in before {
        assert (before + [name(p)])[..|before|] == before;
        BucketSnoc(init, p, name, name(p));
        UnnamedIsEmpty(init, name, name(p));
      }
    }
  }

  // ---------------------------------------------------------------- the portfolio checks

  datatype Limits = Limits(
    gross: Option<real>, net: Option<real>, marginPct: Option<real>,
    underlyingPct: Option<real>, strategyPct: Option<real>, expiryPct: Option<real>,
    delta: Option<real>, gamma: Option<real>, vega: Option<real>, valueAtRisk: Option<real>, stress: Option<real>)

  datatype Request = Request(
    notional: real, margin: real, greeks: Option<Greeks>,
    underlying: Option<string>, strategy: Option<string>, expiry: Option<string>,
    currentVar: Option<real>, incrementalVar: Option<real>, stressLoss: Option<real>,
    availableMargin: Option<real>, totalRequiredMargin: Option<real>)

  datatype Breach = GrossExposure | NetExposure | Margin | UnderlyingConcentration | StrategyConcentration
                  | ExpiryConcentration | DeltaBreach | GammaBreach | VegaBreach | VarBreach | StressBreach

  datatype Decision = Approved | Rejected(breach: Breach)

  predicate Exceeds(x: real, limit: Option<real>) { limit.Some? && x > limit.value }

  function MarginUse(r: Request): real
    requires r.availableMargin.Some? && r.totalRequiredMargin.Some?
  {
    var total := r.totalRequiredMargin.value + r.margin;
    if total + r.availableMargin.value > 0.0 then total / (total + r.availableMargin.value) * 100.0 else 0.0
  }

  function Percent(part: real, whole: real): real
    requires whole > 0.0
  {
    part / whole * 100.0
  }

  /** The share one concentration check compares: the bucket with the order added, or the order alone. */
  function Share(buckets: map<string, real>, key: Option<string>, size: real, projGross: real): real
    requires projGross > 0.0
  {
    Percent(if Named(key) && key.value in buckets then buckets[key.value] + size else size, projGross)
  }

  predicate Concentrated(limit: Option<real>, buckets: map<string, real>, key: Option<string>, size: real,
      projGross: real) {
    limit.Some? && projGross > 0.0 && Share(buckets, key, size, projGross) > limit.value
  }

  /** A greek limit of zero is no limit, and its sign does not matter. */
  predicate GreekExceeds(x: real, limit: Option<real>) {
    limit.Some? && limit.value != 0.0 && Abs(x) > Abs(limit.value)
  }

  /** The first of the three concentrations a request would break. */
  method CheckConcentration(e: Exposure, r: Request, lim: Limits, size: real, projGross: real)
    returns (b: Option<Breach>)
    ensures b == ConcentrationBreach(e, r, lim, size, projGross)
  {
    hide Percent;
    var kinds := [UnderlyingConcentration, StrategyConcentration, ExpiryConcentration];
    var limits := [lim.underlyingPct, lim.strategyPct, lim.expiryPct];
    var maps := [e.byUnderlying, e.byStrategy, e.byExpiry];
    var keys := [r.underlying, r.strategy, r.expiry];
    for i := 0 to 3
      invariant forall j | 0 <= j < i :: !Concentrated(limits[j], maps[j], keys[j], size, projGross)
    {
      assert i > 0 ==> !Concentrated(limits[0], maps[0], keys[0], size, projGross);
      assert i > 1 ==> !Concentrated(limits[1], maps[1], keys[1], size, projGross);
      if limits[i].None? { continue; }
      if projGross > 0.0 {
        var newPct := Percent(size, projGross);
        if Named(keys[i]) && keys[i].value in maps[i] {
          var combined := maps[i][keys[i].value] + size;
          if !(Percent(combined, projGross) <= limits[i].value) { return Some(kinds[i]); }
        } else {
          if !(newPct <= limits[i].value) { return Some(kinds[i]); }
        }
      }
    }
    assert !Concentrated(limits[0], maps[0], keys[0], size, projGross);
    assert !Concentrated(limits[1], maps[1], keys[1], size, projGross);
    assert !Concentrated(limits[2], maps[2], keys[2], size, projGross);
    b := None;
  }

  function ConcentrationBreach(e: Exposure, r: Request, lim: Limits, size: real, projGross: real): Option<Breach> {
    if Concentrated(lim.underlyingPct, e.byUnderlying, r.underlying, size, projGross) then Some(UnderlyingConcentration)
    else if Concentrated(lim.strategyPct, e.byStrategy, r.strategy, size, projGross) then Some(StrategyConcentration)
    else if Concentrated(lim.expiryPct, e.byExpiry, r.expiry, size, projGross) then Some(ExpiryConcentration)
    else None
  }

  /** The first of the three greeks, projected for the whole book, that a request would take beyond its limit. */
  method CheckGreeks(e: Exposure, g: Greeks, lim: Limits) returns (b: Option<Breach>)
    ensures b == GreekBreach(Plus(e.greeks, g), lim)
  {
    var projected := [e.greeks.delta + g.delta, e.greeks.gamma + g.gamma, e.greeks.vega + g.vega];
    var limits := [lim.delta, lim.gamma, lim.vega];
    var kinds := [DeltaBreach, GammaBreach, VegaBreach];
    for i := 0 to 3
      invariant forall j | 0 <= j < i :: !GreekExceeds(projected[j], limits[j])
    {
      assert i > 0 ==> !GreekExceeds(projected[0], limits[0]);
      assert i > 1 ==> !GreekExceeds(projected[1], limits[1]);
      if limits[i].Some? && limits[i].value != 0.0 {
        if !(Abs(projected[i]) <= Abs(limits[i].value)) { return Some(kinds[i]); }
      }
    }
    assert !GreekExceeds(projected[0], limits[0]) && !GreekExceeds(projected[1], limits[1])
        && !GreekExceeds(projected[2], limits[2]);
    b := None;
  }

  function GreekBreach(g: Greeks, lim: Limits): Option<Breach> {
    if GreekExceeds(g.delta, lim.delta) then Some(DeltaBreach)
    else if GreekExceeds(g.gamma, lim.gamma) then Some(GammaBreach)
    else if GreekExceeds(g.vega, lim.vega) then Some(VegaBreach)
    else None
  }

  method Evaluate(e: Exposure, r: Request, lim: Limits) returns (d: Decision)
    ensures d == Verdict(e, r, lim)
    ensures IsFirstBreach(e, r, lim, d)
  {
    VerdictIsFirstBreach(e, r, lim);
    hide IsFirstBreach, MarginUse, ConcentrationBreach, GreekBreach;
    var size := Abs(r.notional);
    var projGross := e.gross + size;
    var projNet := e.net + r.notional;
    if lim.gross.Some? && !(projGross <= lim.gross.value) { return Rejected(GrossExposure); }
    if lim.net.Some? && !(Abs(projNet) <= lim.net.value) { return Rejected(NetExposure); }
    if lim.marginPct.Some? && r.availableMargin.Some? && r.totalRequiredMargin.Some? {
      if !(MarginUse(r) <= lim.marginPct.value) { return Rejected(Margin); }
    }
    var concentration := CheckConcentration(e, r, lim, size, projGross);
    if concentration.Some? { return Rejected(concentration.value); }
    if r.greeks.Some? {
      var greek := CheckGreeks(e, r.greeks.value, lim);
      if greek.Some? { return Rejected(greek.value); }
    }
    if lim.valueAtRisk.Some? && r.currentVar.Some? {
      if !(r.currentVar.value + NonZeroOr(r.incrementalVar, 0.0) <= lim.valueAtRisk.value) {
        return Rejected(VarBreach);
      }
    }
    if lim.stress.Some? && r.stressLoss.Some? {
      if !(r.stressLoss.value <= lim.stress.value) { return Rejected(StressBreach); }
    }
    d := Approved;
  }

  /** The first limit a request would break. */
  function Verdict(e: Exposure, r: Request, lim: Limits): Decision {
    var size := Abs(r.notional);
    var concentration := ConcentrationBreach(e, r, lim, size, e.gross + size);
    if Exceeds(e.gross + size, lim.gross) then Rejected(GrossExposure)
    else if Exceeds(Abs(e.net + r.notional), lim.net) then Rejected(NetExposure)
    else if r.availableMargin.Some? && r.totalRequiredMargin.Some? && Exceeds(MarginUse(r), lim.marginPct) then
      Rejected(Margin)
    else if concentration.Some? then Rejected(concentration.value)
    else if r.greeks.Some? && GreekBreach(Plus(e.greeks, r.greeks.value), lim).Some?
      then Rejected(GreekBreach(Plus(e.greeks, r.greeks.value), lim).value)
    else if r.currentVar.Some? && Exceeds(r.currentVar.value + NonZeroOr(r.incrementalVar, 0.0), lim.valueAtRisk) then
      Rejected(VarBreach)
    else if r.stressLoss.Some? && Exceeds(r.stressLoss.value, lim.stress) then Rejected(StressBreach)
    else Approved
  }

  // ---------------------------------------------------------------- the same verdict on the fields alone

  /** Where a check stands in the chain. */
  function Place(b: Breach): nat {
    match b
    case GrossExposure => 0 case NetExposure => 1 case Margin => 2
    case UnderlyingConcentration => 3 case StrategyConcentration => 4 case ExpiryConcentration => 5
    case DeltaBreach => 6 case GammaBreach => 7 case VegaBreach => 8
    case VarBreach => 9 case StressBreach => 10
  }

  /** A bucket with the order in it takes more than `pct` percent of gross with the order in it. */
  predicate TakesTooMuch(pct: real, gross: real, notional: real, buckets: map<string, real>, key: Option<string>) {
    var size := if notional < 0.0 then -notional else notional;
    var before := if key.Some? && key.value != "" && key.value in buckets then buckets[key.value] else 0.0;
    gross + size > 0.0 && 100.0 * (before + size) > pct * (gross + size)
  }

  /** Farther from zero than a limit of either sign. */
  predicate Beyond(x: real, limit: real) { (x > limit && x > -limit) || (-x > limit && -x > -limit) }

  /**
    What each check refuses, as an inequality on the exposure, the request and the limit; percentages multiplied out.
  */
  predicate Breaks(e: Exposure, r: Request, lim: Limits, b: Breach) {
    match b
    case GrossExposure =>
      lim.gross.Some? && (e.gross + r.notional > lim.gross.value || e.gross - r.notional > lim.gross.value)
    case NetExposure =>
      lim.net.Some? && (e.net + r.notional > lim.net.value || -(e.net + r.notional) > lim.net.value)
    case Margin =>
      && lim.marginPct.Some? && r.availableMargin.Some? && r.totalRequiredMargin.Some?
      && var needed, available := r.totalRequiredMargin.value + r.margin, r.availableMargin.value;
      if needed + available > 0.0 then 100.0 * needed > lim.marginPct.value * (needed + available)
      else 0.0 > lim.marginPct.value
    case UnderlyingConcentration =>
      lim.underlyingPct.Some?
      && TakesTooMuch(lim.underlyingPct.value, e.gross, r.notional, e.byUnderlying, r.underlying)
    case StrategyConcentration =>
      lim.strategyPct.Some? && TakesTooMuch(lim.strategyPct.value, e.gross, r.notional, e.byStrategy, r.strategy)
    case ExpiryConcentration =>
      lim.expiryPct.Some? && TakesTooMuch(lim.expiryPct.value, e.gross, r.notional, e.byExpiry, r.expiry)
    case DeltaBreach =>
      && r.greeks.Some? && lim.delta.Some? && lim.delta.value != 0.0
      && Beyond(e.greeks.delta + r.greeks.value.delta, lim.delta.value)
    case GammaBreach =>
      && r.greeks.Some? && lim.gamma.Some? && lim.gamma.value != 0.0
      && Beyond(e.greeks.gamma + r.greeks.value.gamma, lim.gamma.value)
    case VegaBreach =>
      && r.greeks.Some? && lim.vega.Some? && lim.vega.value != 0.0
      && Beyond(e.greeks.vega + r.greeks.value.vega, lim.vega.value)
    case VarBreach =>
      && lim.valueAtRisk.Some? && r.currentVar.Some?
      && r.currentVar.value + (if r.incrementalVar.Some? then r.incrementalVar.value else 0.0) > lim.valueAtRisk.value
    case StressBreach =>
      lim.stress.Some? && r.stressLoss.Some? && r.stressLoss.value > lim.stress.value
  }

  /** Approved if no check refuses; otherwise rejected for the first that does. */
  ghost predicate IsFirstBreach(e: Exposure, r: Request, lim: Limits, d: Decision) {
    match d
    case Approved => forall b :: !Breaks(e, r, lim, b)
    case Rejected(b) => Breaks(e, r, lim, b) && forall c | Place(c) < Place(b) :: !Breaks(e, r, lim, c)
  }

  /** Comparing a percentage is comparing the products. */
  lemma PercentAbove(part: real, whole: real, pct: real)
    requires whole > 0.0
    ensures Percent(part, whole) > pct <==> 100.0 * part > pct * whole
  {
    var x := part / whole;
    assert x * whole == part;
    var y := x * 100.0;
    assert y * whole == 100.0 * part;
    if y > pct { assert (y - pct) * whole > 0.0; } else { assert (pct - y) * whole >= 0.0; }
  }

  lemma ConcentratedIff(limit: Option<real>, gross: real, notional: real, buckets: map<string, real>,
      key: Option<string>)
    ensures Concentrated(limit, buckets, key, Abs(notional), gross + Abs(notional))
            <==> limit.Some? && TakesTooMuch(limit.value, gross, notional, buckets, key)
  {
    var size := Abs(notional);
    if limit.Some? && gross + size > 0.0 {
      var before := if Named(key) && key.value in buckets then buckets[key.value] else 0.0;
      PercentAbove(before + size, gross + size, limit.value);
    }
    hide Percent;
  }

  lemma MarginExceedsIff(r: Request, lim: Limits)
    requires r.availableMargin.Some? && r.totalRequiredMargin.Some?
    ensures Exceeds(MarginUse(r), lim.marginPct) <==>
              && lim.marginPct.Some?
              && var needed, available := r.totalRequiredMargin.value + r.margin, r.availableMargin.value;
              if needed + available > 0.0 then 100.0 * needed > lim.marginPct.value * (needed + available)
              else 0.0 > lim.marginPct.value
  {
    var needed, available := r.totalRequiredMargin.value + r.margin, r.availableMargin.value;
    if lim.marginPct.Some? && needed + available > 0.0 {
      PercentAbove(needed, needed + available, lim.marginPct.value);
    }
  }

  /** Every check of the chain, in its own terms. */
  lemma ChecksAre(e: Exposure, r: Request, lim: Limits)
    ensures Breaks(e, r, lim, GrossExposure) <==> Exceeds(e.gross + Abs(r.notional), lim.gross)
    ensures Breaks(e, r, lim, NetExposure) <==> Exceeds(Abs(e.net + r.notional), lim.net)
    ensures Breaks(e, r, lim, Margin) <==>
              r.availableMargin.Some? && r.totalRequiredMargin.Some? && Exceeds(MarginUse(r), lim.marginPct)
    ensures Breaks(e, r, lim, VarBreach) <==>
              r.currentVar.Some? && Exceeds(r.currentVar.value + NonZeroOr(r.incrementalVar, 0.0), lim.valueAtRisk)
    ensures Breaks(e, r, lim, StressBreach) <==> r.stressLoss.Some? && Exceeds(r.stressLoss.value, lim.stress)
  {
    if r.availableMargin.Some? && r.totalRequiredMargin.Some? { MarginExceedsIff(r, lim); }
    hide MarginUse;
  }

  lemma ConcentrationsAre(e: Exposure, r: Request, lim: Limits)
    ensures var b := ConcentrationBreach(e, r, lim, Abs(r.notional), e.gross + Abs(r.notional));
            match b
            case None =>
              && !Breaks(e, r, lim, UnderlyingConcentration) && !Breaks(e, r, lim, StrategyConcentration)
              && !Breaks(e, r, lim, ExpiryConcentration)
            case Some(c) =>
              && Breaks(e, r, lim, c) && 3 <= Place(c) <= 5
              && (Place(c) > 3 ==> !Breaks(e, r, lim, UnderlyingConcentration))
              && (Place(c) > 4 ==> !Breaks(e, r, lim, StrategyConcentration))
  {
    ConcentratedIff(lim.underlyingPct, e.gross, r.notional, e.byUnderlying, r.underlying);
    ConcentratedIff(lim.strategyPct, e.gross, r.notional, e.byStrategy, r.strategy);
    ConcentratedIff(lim.expiryPct, e.gross, r.notional, e.byExpiry, r.expiry);
    hide Concentrated, TakesTooMuch;
  }

  lemma GreeksAre(e: Exposure, r: Request, lim: Limits)
    requires r.greeks.Some?
    ensures match GreekBreach(Plus(e.greeks, r.greeks.value), lim)
            case None =>
              !Breaks(e, r, lim, DeltaBreach) && !Breaks(e, r, lim, GammaBreach) && !Breaks(e, r, lim, VegaBreach)
            case Some(c) =>
              && Breaks(e, r, lim, c) && 6 <= Place(c) <= 8
              && (Place(c) > 6 ==> !Breaks(e, r, lim, DeltaBreach))
              && (Place(c) > 7 ==> !Breaks(e, r, lim, GammaBreach))
  {
  }

  /** The chain reports exactly the first check that refuses, and approves exactly when none does. */
  lemma VerdictIsFirstBreach(e: Exposure, r: Request, lim: Limits)
    ensures IsFirstBreach(e, r, lim, Verdict(e, r, lim))
  {
    ChecksAre(e, r, lim);
    ConcentrationsAre(e, r, lim);
    if r.greeks.Some? { GreeksAre(e, r, lim); } else { NoGreeksAsked(e, r, lim); }
    hide Breaks, ConcentrationBreach, GreekBreach, MarginUse, Exceeds, Abs, NonZeroOr, Plus;
  }

  lemma NoGreeksAsked(e: Exposure, r: Request, lim: Limits)
    requires r.greeks.None?
    ensures !Breaks(e, r, lim, DeltaBreach) && !Breaks(e, r, lim, GammaBreach) && !Breaks(e, r, lim, VegaBreach)
  {
  }

  /** A request that passes gross and net is rejected for margin exactly when it needs more than the limit's share. */
  lemma MarginIsRefusedIff(e: Exposure, r: Request, lim: Limits)
    requires r.availableMargin.Some? && r.totalRequiredMargin.Some? && lim.marginPct.Some?
    requires r.totalRequiredMargin.value + r.margin + r.availableMargin.value > 0.0
    ensures var needed, available := r.totalRequiredMargin.value + r.margin, r.availableMargin.value;
            && (!Breaks(e, r, lim, GrossExposure) && !Breaks(e, r, lim, NetExposure) ==>
                  (Verdict(e, r, lim) == Rejected(Margin) <==>
                     100.0 * needed > lim.marginPct.value * (needed + available)))
            && (Verdict(e, r, lim) == Approved ==> 100.0 * needed <= lim.marginPct.value * (needed + available))
  {
    VerdictIsFirstBreach(e, r, lim);
    assert Verdict(e, r, lim) == Approved ==> !Breaks(e, r, lim, Margin);
    ChecksAre(e, r, lim);
    hide MarginUse, ConcentrationBreach, GreekBreach;
  }

  // ---------------------------------------------------------------- limits over runs of approved orders

  datatype Intent = Intent(
    buy: bool, quantity: int, price: Option<real>, underlying: Option<string>, symbol: string,
    strategy: Option<string>, greeks: Greeks,
    estimatedMargin: Option<real>, marginAvailable: Option<real>)

  function NewNotional(i: Intent): real { NonZeroOr(i.price, 0.0) * i.quantity as real }

  /** What `evaluate_full_stack` asks the engine: it passes no greeks, no value at risk and no stress loss. */
  function RequestOf(i: Intent): Request {
    var margin := NonZeroOr(i.estimatedMargin, NewNotional(i) * 0.15);
    Request(if i.buy then NewNotional(i) else -NewNotional(i), margin, None, i.underlying, i.strategy, None,
            None, None, None, i.marginAvailable, Some(margin))
  }

  /** An approved order's margin is counted twice: as its own, and as what the book needs. */
  lemma ApprovedMarginFits(ps: seq<Position>, i: Intent, lim: Limits)
    requires Verdict(ExposureOf(ps), RequestOf(i), lim) == Approved && lim.marginPct.Some? && i.marginAvailable.Some?
    ensures var value := (if i.price.Some? then i.price.value else 0.0) * i.quantity as real;
            var margin := if i.estimatedMargin.Some? && i.estimatedMargin.value != 0.0 then i.estimatedMargin.value
                          else value * 0.15;
            var available := i.marginAvailable.value;
            2.0 * margin + available > 0.0 ==>
              100.0 * (2.0 * margin) <= lim.marginPct.value * (2.0 * margin + available)
  {
    var r, e := RequestOf(i), ExposureOf(ps);
    assert NonZeroOr(i.price, 0.0) == if i.price.Some? then i.price.value else 0.0;
    hide Verdict, ExposureOf;
    assert r.totalRequiredMargin.value + r.margin == 2.0 * r.margin;
    if r.totalRequiredMargin.value + r.margin + r.availableMargin.value > 0.0 { MarginIsRefusedIff(e, r, lim); }
  }

  /** The position an approved order becomes, at the price it was approved at. */
  function Filled(i: Intent): Position {
    Position(if i.buy then LONG else SHORT, i.quantity, i.price, i.price, i.underlying, i.symbol, i.strategy, i.greeks)
  }

  /** The book is within the limits: gross, absolute net, and each underlying's share of gross. */
  ghost predicate Within(ps: seq<Position>, lim: Limits) {
    && !Exceeds(Gross(ps), lim.gross)
    && !Exceeds(Abs(OfSide(ps, LONG) - OfSide(ps, SHORT)), lim.net)
    && (forall u :: ShareWithin(ps, u, lim))
  }

  predicate ShareWithin(ps: seq<Position>, u: string, lim: Limits) {
    lim.underlyingPct.Some? && Gross(ps) > 0.0 ==>
        Percent(Bucket(ps, UnderlyingOf, u), Gross(ps)) <= lim.underlyingPct.value
  }

  /** A bucket is within its share exactly when it is worth at most that percentage of the book. */
  lemma ShareWithinIff(ps: seq<Position>, u: string, lim: Limits)
    ensures ShareWithin(ps, u, lim) <==>
              (lim.underlyingPct.Some? && Gross(ps) > 0.0 ==>
                 100.0 * Bucket(ps, UnderlyingOf, u) <= lim.underlyingPct.value * Gross(ps))
  {
    hide Bucket, Gross;
    var bucket, gross := Bucket(ps, UnderlyingOf, u), Gross(ps);
    if lim.underlyingPct.Some? && gross > 0.0 {
      PercentAbove(bucket, gross, lim.underlyingPct.value);
      hide Percent;
      assert Percent(bucket, gross) <= lim.underlyingPct.value <==> 100.0 * bucket <= lim.underlyingPct.value * gross;
    }
  }

  predicate Accepts(ps: seq<Position>, i: Intent, lim: Limits) {
    Verdict(ExposureOf(ps), RequestOf(i), lim) == Approved
  }

  lemma FilledNotional(i: Intent)
    ensures Notional(Filled(i)) == Abs(NewNotional(i)) == Abs(RequestOf(i).notional)
  {
    assert NonZeroOr(i.price, NonZeroOr(i.price, 0.0)) == NonZeroOr(i.price, 0.0);
    assert i.quantity as real * NonZeroOr(i.price, 0.0) == NewNotional(i);
  }

  /** Adding to gross only lowers the share of a bucket that is not touched. */
  lemma ShareFalls(b: real, gross: real, more: real)
    requires b >= 0.0 && gross > 0.0 && more >= 0.0
    ensures Percent(b, gross + more) <= Percent(b, gross)
  {
    var x, y := b / gross, b / (gross + more);
    assert x * gross == b == y * (gross + more);
    assert x * gross <= x * (gross + more);
    assert x * (gross + more) - y * (gross + more) == (x - y) * (gross + more);
  }

  lemma AllAndNothing(size: real)
    requires size > 0.0
    ensures Percent(size, size) == 100.0 && Percent(0.0, size) == 0.0
  {
    assert size / size == 1.0 && 0.0 / size == 0.0;
  }

  /** The checks that do not look at gross, net or the underlying. */
  predicate OtherChecksPass(ps: seq<Position>, i: Intent, lim: Limits) {
    var e, r := ExposureOf(ps), RequestOf(i);
    && (r.availableMargin.Some? ==> !Exceeds(MarginUse(r), lim.marginPct))
    && !Concentrated(lim.strategyPct, e.byStrategy, r.strategy, Abs(r.notional), e.gross + Abs(r.notional))
    && !Concentrated(lim.expiryPct, e.byExpiry, r.expiry, Abs(r.notional), e.gross + Abs(r.notional))
  }

  /**
    What the engine projects for an order is the exposure of the book that the order leads to: always for gross and
    the named underlying's share, and for net exactly when the order is not of negative notional.
  */
  lemma ProjectionIsRebuilt(ps: seq<Position>, i: Intent, lim: Limits)
    ensures var e, r, after := ExposureOf(ps), RequestOf(i), ps + [Filled(i)];
            && e.gross + Abs(r.notional) == Gross(after)
            && (e.net + r.notional == OfSide(after, LONG) - OfSide(after, SHORT) <==> NewNotional(i) >= 0.0)
            && (Named(i.underlying) ==>
                 Concentrated(lim.underlyingPct, e.byUnderlying, r.underlying, Abs(r.notional), Gross(after))
                 == !ShareWithin(after, i.underlying.value, lim))
  {
    hide Percent, MarginUse;
    FilledNotional(i);
    SumsSnoc(ps, Filled(i));
    if Named(i.underlying) {
      var u := i.underlying.value;
      BucketSnoc(ps, Filled(i), UnderlyingOf, u);
      if u !in Keys(ps, UnderlyingOf) { UnnamedIsEmpty(ps, UnderlyingOf, u); }
    }
  }

  /** Once an order is accepted, every bucket but the one it lands in is within limits. */
  lemma OtherShares(ps: seq<Position>, i: Intent, lim: Limits)
    requires Within(ps, lim) && Accepts(ps, i, lim)
    ensures forall u | u != UnderlyingOf(Filled(i)) :: ShareWithin(ps + [Filled(i)], u, lim)
  {
    var p, after := Filled(i), ps + [Filled(i)];
    FilledNotional(i);
    SumsSnoc(ps, p);
    if Gross(after) > 0.0 { AllAndNothing(Gross(after)); }
    hide Percent, MarginUse, Notional, Gross, Bucket, OfSide, Keys, NonZeroOr;
    forall u | u != UnderlyingOf(p) ensures ShareWithin(after, u, lim) { OtherShare(ps, p, u, lim); }
  }

  /** The net the engine looks at is the net of the book the order leads to, or is not limited. */
  predicate NetIsSeen(i: Intent, lim: Limits) { NewNotional(i) >= 0.0 || lim.net.None? }

  /**
    From a book within limits, an order with a named underlying is approved exactly when the book it leads to is
    within limits (and the other checks pass), provided its net is seen.
  */
  lemma ApprovedIffStaysWithin(ps: seq<Position>, i: Intent, lim: Limits)
    requires Within(ps, lim)
    ensures Named(i.underlying) && NetIsSeen(i, lim) ==>
              (Accepts(ps, i, lim) <==> Within(ps + [Filled(i)], lim) && OtherChecksPass(ps, i, lim))
  {
    if Named(i.underlying) && NetIsSeen(i, lim) {
      var after, u := ps + [Filled(i)], i.underlying.value;
      ProjectionIsRebuilt(ps, i, lim);
      if Accepts(ps, i, lim) { OtherShares(ps, i, lim); }
      hide Percent, MarginUse, Notional, Gross, Bucket, OfSide, Keys, NonZeroOr, ShareWithin, Concentrated,
          NewNotional, Buckets;
      assert Within(after, lim) ==> ShareWithin(after, u, lim);
    }
  }

  predicate NetWithin(ps: seq<Position>, lim: Limits) { !Exceeds(Abs(OfSide(ps, LONG) - OfSide(ps, SHORT)), lim.net) }

  /** What the checks of an approved order say about the book it leads to. */
  lemma ApprovedMeans(ps: seq<Position>, i: Intent, lim: Limits)
    requires Accepts(ps, i, lim)
    ensures !Exceeds(Gross(ps + [Filled(i)]), lim.gross)
    ensures NetIsSeen(i, lim) ==> NetWithin(ps + [Filled(i)], lim)
    ensures Named(i.underlying) ==> ShareWithin(ps + [Filled(i)], UnderlyingOf(Filled(i)), lim)
  {
    ProjectionIsRebuilt(ps, i, lim);
    hide Percent, MarginUse, Notional, Gross, Bucket, OfSide, Keys, NonZeroOr, ShareWithin, Concentrated, NewNotional,
        Buckets;
  }

  /**
    An approved order leaves the book within limits exactly when the bucket it lands in, and the net of the book, are.
  */
  lemma ApprovedKeepsLimitsIff(ps: seq<Position>, i: Intent, lim: Limits)
    requires Within(ps, lim) && Accepts(ps, i, lim)
    ensures var after := ps + [Filled(i)];
            && (Within(after, lim) <==> ShareWithin(after, UnderlyingOf(Filled(i)), lim) && NetWithin(after, lim))
            && (Named(i.underlying) ==> ShareWithin(after, UnderlyingOf(Filled(i)), lim))
            && (NetIsSeen(i, lim) ==> NetWithin(after, lim))
  {
    ApprovedMeans(ps, i, lim);
    OtherShares(ps, i, lim);
    hide Accepts, Exceeds, ShareWithin, UnderlyingOf, Filled, Gross, OfSide;
  }

  /** With a concentration limit below 100 percent, an empty book refuses every order that is worth something. */
  lemma EmptyBookTakesNothing(i: Intent, lim: Limits)
    requires lim.underlyingPct.Some? && lim.underlyingPct.value < 100.0
    ensures Accepts([], i, lim) ==> NewNotional(i) == 0.0
  {
    var size := Abs(NewNotional(i));
    if size > 0.0 { AllAndNothing(size); }
    hide Percent;
  }

  lemma OtherShare(ps: seq<Position>, p: Position, u: string, lim: Limits)
    requires ShareWithin(ps, u, lim) && u != UnderlyingOf(p)
    requires lim.underlyingPct.Some? && Gross(ps) == 0.0 ==> lim.underlyingPct.value >= 0.0 || Notional(p) == 0.0
    ensures ShareWithin(ps + [p], u, lim)
  {
    hide Notional, Percent;
    SumsSnoc(ps, p);
    BucketSnoc(ps, p, UnderlyingOf, u);
    BucketAtMostGross(ps, u);
    if Gross(ps) > 0.0 { ShareFalls(Bucket(ps, UnderlyingOf, u), Gross(ps), Notional(p)); }
    else if Gross(ps + [p]) > 0.0 { AllAndNothing(Gross(ps + [p])); }
  }

  lemma {:induction false} BucketAtMostGross(ps: seq<Position>, u: string)
    ensures Bucket(ps, UnderlyingOf, u) <= Gross(ps)
    decreases |ps|
  {
    if ps == [] {
    } else {
      BucketAtMostGross(ps[..|ps| - 1], u);
    }
  }

  predicate ApprovedRun(ps: seq<Position>, orders: seq<Intent>, lim: Limits)
    decreases |orders|
  {
    orders != [] ==>
      && Named(orders[0].underlying) && NetIsSeen(orders[0], lim) && Accepts(ps, orders[0], lim)
      && ApprovedRun(ps + [Filled(orders[0])], orders[1..], lim)
  }

  function BookAfter(ps: seq<Position>, orders: seq<Intent>): seq<Position>
    decreases |orders|
  {
    if orders == [] then ps else BookAfter(ps + [Filled(orders[0])], orders[1..])
  }

  /** Every run of approved orders with a named underlying stays within the limits it started in. */
  lemma {:induction false} LimitsSurviveRuns(ps: seq<Position>, orders: seq<Intent>, lim: Limits)
    requires Within(ps, lim) && ApprovedRun(ps, orders, lim)
    ensures Within(BookAfter(ps, orders), lim)
    decreases |orders|
  {
    hide Within, Accepts;
    if orders == [] {
    } else {
      ApprovedIffStaysWithin(ps, orders[0], lim);
      LimitsSurviveRuns(ps + [Filled(orders[0])], orders[1..], lim);
    }
  }

  lemma BookOfTwo(x: Position, y: Position, side: Side, u: string)
    ensures Gross([x, y]) == Notional(x) + Notional(y)
    ensures OfSide([x, y], side)
              == (if x.side == side then Notional(x) else 0.0) + if y.side == side then Notional(y) else 0.0
    ensures Bucket([x, y], UnderlyingOf, u)
              == (if UnderlyingOf(x) == u then Notional(x) else 0.0) + if UnderlyingOf(y) == u then Notional(y) else 0.0
  {
    assert [x, y] == ([] + [x]) + [y];
    SumsSnoc([], x);
    SumsSnoc([] + [x], y);
    BucketSnoc([], x, UnderlyingOf, u);
    BucketSnoc([] + [x], y, UnderlyingOf, u);
    hide Notional, UnderlyingOf;
  }

  /** The name is needed: without one the check sees the order alone, and the position joins its symbol's bucket. */
  lemma UnnamedOrderBreaksShare() returns (ps: seq<Position>, i: Intent, lim: Limits)
    ensures Within(ps, lim) && Accepts(ps, i, lim) && NewNotional(i) > 0.0 && !Named(i.underlying)
    ensures !Within(ps + [Filled(i)], lim)
  {
    var x := Position(LONG, 1, Some(50.0), Some(50.0), None, "X", None, NO_GREEKS);
    var y := x.(symbol := "Y");
    ps, lim := [x, y], Limits(None, None, None, Some(60.0), None, None, None, None, None, None, None);
    i := Intent(true, 1, Some(100.0), None, "X", None, NO_GREEKS, None, None);
    BookOfTwo(x, y, LONG, "X");
    BookOfTwo(x, y, SHORT, "X");
    forall u ensures Bucket(ps, UnderlyingOf, u) <= 50.0 { BookOfTwo(x, y, LONG, u); }
    var p, after := Filled(i), ps + [Filled(i)];
    SumsSnoc(ps, p);
    BucketSnoc(ps, p, UnderlyingOf, "X");
    hide Gross, Bucket, OfSide, Keys, Buckets;
    assert Notional(x) == Notional(y) == 50.0 && Notional(p) == 100.0;
    hide Notional;
    assert Gross(after) == 200.0 && Bucket(after, UnderlyingOf, "X") == 150.0;
    assert !ShareWithin(after, "X", lim);
  }

  /** So is the sign: an order to buy a negative quantity is projected to lower a net that its position raises. */
  lemma NegativeOrderBreaksNet() returns (ps: seq<Position>, i: Intent, lim: Limits)
    ensures Within(ps, lim) && Accepts(ps, i, lim) && Named(i.underlying) && NewNotional(i) < 0.0
    ensures !Within(ps + [Filled(i)], lim)
  {
    var x := Position(LONG, 1, Some(50.0), Some(50.0), None, "X", None, NO_GREEKS);
    ps, lim := [x], Limits(None, Some(60.0), None, None, None, None, None, None, None, None, None);
    i := Intent(true, -1, Some(20.0), Some("X"), "X", None, NO_GREEKS, None, None);
    assert ps == [] + [x];
    SumsSnoc([], x);
    SumsSnoc(ps, Filled(i));
    hide Gross, Bucket, OfSide, Keys, Buckets;
    assert Notional(x) == 50.0 && Notional(Filled(i)) == 20.0;
  }
}
