/** The floor-and-cap arithmetic of `position_sizing.py`, over exact rationals. */
module PositionSizing {
  import opened Basics
  import opened Text

  datatype Inputs = Inputs(
    algoCapital: real, riskBudget: real, entry: real, stop: Option<real>, lotSize: int, multiplier: real,
    maxCapital: Option<real>, maxPosition: Option<int>, maxNotional: Option<real>,
    marginPerUnit: Option<real>, availableMargin: Option<real>, portfolioCapacity: Option<real>)

  datatype Cap = RiskBudget | RiskPerUnit | MaxCapitalPerTrade | AvailableCapital | AvailableMargin
               | MaxPositionSize | MaxNotional | PortfolioCapacity | LotSizeMinimum

  datatype Reason = ZeroRiskBudget | ZeroRiskPerUnit | SizedOk | SizedZero | CappedBy(cap: Cap)

  datatype Sizing = Sizing(quantity: int, notional: real, riskPerUnit: Option<real>, reason: Reason,
      cappedBy: Option<Cap>)

  /** One bound on the quantity: so much per unit, out of so much. `cap` is `None` for the risk budget itself. */
  datatype Limit = Limit(cap: Option<Cap>, unit: real, budget: real)

  predicate Meets(l: Limit, q: int) { q as real * l.unit <= l.budget }

  /** The lot the code aligns to: anything up to one means no alignment. */
  function Lot(inp: Inputs): int { if inp.lotSize > 1 then inp.lotSize else 1 }

  predicate UsesStop(inp: Inputs) {
    inp.stop.Some? && inp.stop.value > 0.0 && inp.entry != inp.stop.value
  }

  /** The code divides by entry times multiplier without a stop. */
  predicate DividesByZero(inp: Inputs) {
    inp.riskBudget > 0.0 && !UsesStop(inp) && inp.entry > 0.0 && inp.multiplier == 0.0
  }

  function PerUnit(inp: Inputs): real { inp.entry * inp.multiplier }

  function RiskLimit(inp: Inputs): Limit {
    if UsesStop(inp) then Limit(None, Abs(inp.entry - inp.stop.value) * inp.multiplier, inp.riskBudget)
    else if inp.entry > 0.0 then Limit(None, PerUnit(inp), inp.riskBudget)
    else Limit(None, 1.0, 0.0)
  }

  /** A currency cap binds only when it is given and the entry price is positive. */
  function CurrencyCap(inp: Inputs, cap: Cap, budget: Option<real>): seq<Limit> {
    if budget.Some? && inp.entry > 0.0 then [Limit(Some(cap), PerUnit(inp), budget.value)] else []
  }

  function MarginCap(inp: Inputs): seq<Limit> {
    if inp.marginPerUnit.Some? && inp.availableMargin.Some? && inp.marginPerUnit.value > 0.0
    then [Limit(Some(AvailableMargin), inp.marginPerUnit.value, inp.availableMargin.value)] else []
  }

  function PositionCap(inp: Inputs): seq<Limit> {
    if inp.maxPosition.Some? then [Limit(Some(MaxPositionSize), 1.0, inp.maxPosition.value as real)] else []
  }

  /** What the caller asks to be respected: the risk budget, then every cap given. */
  function Limits(inp: Inputs): seq<Limit> {
    [RiskLimit(inp)] + CurrencyCap(inp, MaxCapitalPerTrade, inp.maxCapital)
    + CurrencyCap(inp, AvailableCapital, Some(inp.algoCapital))
    + MarginCap(inp) + PositionCap(inp) + CurrencyCap(inp, MaxNotional, inp.maxNotional)
    + CurrencyCap(inp, PortfolioCapacity, inp.portfolioCapacity)
  }

  predicate MeetsAll(limits: seq<Limit>, q: int) { forall l | l in limits :: Meets(l, q) }

  /**
    `q` is the greatest multiple of `lot`, of either sign, within the limits, and `capped` names one that stops the
    next lot.
  */
  ghost predicate Greatest(limits: seq<Limit>, lot: int, q: int, capped: Option<Cap>)
    requires lot > 0
  {
    && q % lot == 0
    && (forall m: int | m % lot == 0 :: MeetsAll(limits, m) <==> m <= q)
    && (exists l | l in limits :: l.cap == capped && !Meets(l, q + lot))
  }

  lemma FloorBound(b: real, u: real, q: int)
    requires u > 0.0
    ensures q as real * u <= b <==> q <= (b / u).Floor
  {
    var x := b / u;
    assert x * u == b;
    if q as real <= x { assert q as real * u <= x * u; }
    else { assert q as real * u > x * u; }
  }

  lemma MulMonotone(lot: int, a: int, b: int)
    requires lot > 0
    ensures a <= b ==> lot * a <= lot * b
    ensures a < b ==> lot * a + lot <= lot * b
  {
    if a <= b { Product(lot, b - a); }
    if a < b { Product(lot, b - a - 1); }
  }

  lemma Product(x: int, y: int)
    requires x >= 0 && y >= 0
    ensures x * y >= 0
  {
  }

  lemma Multiples(k: int, lot: int)
    requires lot > 0
    ensures k * lot % lot == 0
  {
    var d, r := k * lot / lot, k * lot % lot;
    assert lot * k == lot * d + r;
    MulMonotone(lot, k, d);
    MulMonotone(lot, d, k);
  }

  lemma QuotientAndRest(n: int, lot: int)
    requires lot > 0
    ensures n == lot * (n / lot) + n % lot && 0 <= n % lot < lot
  {
  }

  lemma AlignBound(n: int, lot: int, q: int)
    requires lot > 0 && q % lot == 0
    ensures q <= n <==> q <= n / lot * lot
    ensures n / lot * lot % lot == 0
  {
    QuotientAndRest(q, lot);
    QuotientAndRest(n, lot);
    Multiples(n / lot, lot);
    MulMonotone(lot, q / lot, n / lot);
    MulMonotone(lot, n / lot, q / lot);
  }

  lemma SmallMultiple(q: int, lot: int)
    requires lot > 0
    ensures 0 <= q < lot ==> q % lot == q
  {}

  /** The largest lot multiple one limit allows. */
  function LotsWithin(l: Limit, lot: int): int
    requires l.unit > 0.0 && lot > 0
  {
    (l.budget / l.unit).Floor / lot * lot
  }

  lemma LotsWithinIs(l: Limit, lot: int, q: int)
    requires l.unit > 0.0 && lot > 0 && q % lot == 0
    ensures Meets(l, q) <==> q <= LotsWithin(l, lot)
    ensures LotsWithin(l, lot) % lot == 0
  {
    FloorBound(l.budget, l.unit, q);
    AlignBound((l.budget / l.unit).Floor, lot, q);
  }

  lemma NextLot(q: int, lot: int)
    requires lot > 0 && q % lot == 0
    ensures (q + lot) % lot == 0
  {
    assert q == q / lot * lot;
    assert q + lot == (q / lot + 1) * lot;
    Multiples(q / lot + 1, lot);
  }

  lemma FirstLimit(l: Limit, lot: int)
    requires l.unit > 0.0 && lot > 0
    ensures Greatest([l], lot, LotsWithin(l, lot), l.cap)
  {
    var q := LotsWithin(l, lot);
    LotsWithinIs(l, lot, 0);
    NextLot(q, lot);
    LotsWithinIs(l, lot, q + lot);
    assert l in [l];
    forall m: int | m % lot == 0 ensures MeetsAll([l], m) <==> m <= q { LotsWithinIs(l, lot, m); }
  }

  lemma MeetsAllSnoc(limits: seq<Limit>, l: Limit, m: int)
    ensures MeetsAll(limits + [l], m) <==> MeetsAll(limits, m) && Meets(l, m)
  {
    hide Meets;
    assert forall k :: k in limits + [l] <==> k in limits || k == l;
  }

  /** Taking the smaller of what was allowed and what one more limit allows. */
  lemma OneMoreLimit(limits: seq<Limit>, l: Limit, lot: int, q: int, capped: Option<Cap>)
    requires l.unit > 0.0 && lot > 0 && Greatest(limits, lot, q, capped)
    ensures var c := LotsWithin(l, lot);
            Greatest(limits + [l], lot, if q > c then c else q, if q > c then l.cap else capped)
  {
    hide Meets, LotsWithin;
    var c, all := LotsWithin(l, lot), limits + [l];
    LotsWithinIs(l, lot, q);
    forall m: int | m % lot == 0 ensures MeetsAll(all, m) <==> m <= if q > c then c else q {
      LotsWithinIs(l, lot, m);
      MeetsAllSnoc(limits, l, m);
      assert MeetsAll(limits, m) <==> m <= q;
    }
    if q > c {
      NextLot(c, lot);
      LotsWithinIs(l, lot, c + lot);
      assert l in all;
    } else {
      var k :| k in limits && k.cap == capped && !Meets(k, q + lot);
      assert k in all;
    }
  }

  /** The quantity is the largest non-negative lot multiple within every limit, zero if there is none. */
  ghost predicate Optimal(inp: Inputs, q: int, capped: Option<Cap>) {
    var lot, limits := Lot(inp), Limits(inp);
    && q >= 0 && q % lot == 0
    && (MeetsAll(limits, 0) ==> MeetsAll(limits, q))
    && (!MeetsAll(limits, 0) ==> q == 0)
    && (forall m: int | m >= 0 && m % lot == 0 && MeetsAll(limits, m) :: m <= q)
    && (exists l | l in limits :: l.cap == capped && !Meets(l, q + lot))
  }

  // ---------------------------------------------------------------- the limits, as inequalities on the inputs

  /** What the caller asks to be respected: a cap that is not given, or has no price to go by, asks for nothing. */
  predicate Exceeds(inp: Inputs, cap: Option<Cap>, q: int) {
    var value := q as real * inp.entry * inp.multiplier;
    match cap
    case None =>
      if inp.stop.Some? && inp.stop.value > 0.0 && inp.entry > inp.stop.value then
        q as real * ((inp.entry - inp.stop.value) * inp.multiplier) > inp.riskBudget
      else if inp.stop.Some? && inp.stop.value > 0.0 && inp.entry < inp.stop.value then
        q as real * ((inp.stop.value - inp.entry) * inp.multiplier) > inp.riskBudget
      else if inp.entry > 0.0 then value > inp.riskBudget
      else q > 0
    case Some(MaxCapitalPerTrade) => inp.entry > 0.0 && inp.maxCapital.Some? && value > inp.maxCapital.value
    case Some(AvailableCapital) => inp.entry > 0.0 && value > inp.algoCapital
    case Some(AvailableMargin) =>
      && inp.marginPerUnit.Some? && inp.availableMargin.Some? && inp.marginPerUnit.value > 0.0
      && q as real * inp.marginPerUnit.value > inp.availableMargin.value
    case Some(MaxPositionSize) => inp.maxPosition.Some? && q > inp.maxPosition.value
    case Some(MaxNotional) => inp.entry > 0.0 && inp.maxNotional.Some? && value > inp.maxNotional.value
    case Some(PortfolioCapacity) =>
      inp.entry > 0.0 && inp.portfolioCapacity.Some? && value > inp.portfolioCapacity.value
    case Some(_) => false
  }

  ghost predicate Fits(inp: Inputs, q: int) { forall cap :: !Exceeds(inp, cap, q) }

  lemma Associates(q: real, a: real, b: real)
    ensures q * (a * b) == q * a * b
  {
  }

  /** The limit a cap puts into the chain, if it does. */
  function LimitOf(inp: Inputs, cap: Option<Cap>): seq<Limit> {
    match cap
    case None => [RiskLimit(inp)]
    case Some(MaxCapitalPerTrade) => CurrencyCap(inp, MaxCapitalPerTrade, inp.maxCapital)
    case Some(AvailableCapital) => CurrencyCap(inp, AvailableCapital, Some(inp.algoCapital))
    case Some(AvailableMargin) => MarginCap(inp)
    case Some(MaxPositionSize) => PositionCap(inp)
    case Some(MaxNotional) => CurrencyCap(inp, MaxNotional, inp.maxNotional)
    case Some(PortfolioCapacity) => CurrencyCap(inp, PortfolioCapacity, inp.portfolioCapacity)
    case Some(_) => []
  }

  lemma LimitOfIs(inp: Inputs, cap: Option<Cap>)
    ensures |LimitOf(inp, cap)| <= 1 && forall l | l in LimitOf(inp, cap) :: l.cap == cap
  {
  }

  lemma LimitsAre(inp: Inputs, l: Limit)
    ensures l in Limits(inp) <==> l in LimitOf(inp, l.cap)
  {
    forall cap ensures forall k | k in LimitOf(inp, cap) :: k.cap == cap { LimitOfIs(inp, cap); }
    var head := LimitOf(inp, None) + LimitOf(inp, Some(MaxCapitalPerTrade)) + LimitOf(inp, Some(AvailableCapital));
    var tail := [LimitOf(inp, Some(AvailableMargin)), LimitOf(inp, Some(MaxPositionSize)),
                 LimitOf(inp, Some(MaxNotional)), LimitOf(inp, Some(PortfolioCapacity))];
    assert Limits(inp) == head + tail[0] + tail[1] + tail[2] + tail[3];
    hide Limits, RiskLimit, CurrencyCap, MarginCap, PositionCap;
    match l.cap
    case Some(RiskBudget) =>
    case Some(RiskPerUnit) =>
    case Some(LotSizeMinimum) =>
    case _ =>
  }

  /** The limits of the chain are these inequalities. */
  lemma ExceedsIff(inp: Inputs, cap: Option<Cap>, q: int)
    ensures Exceeds(inp, cap, q) <==> exists l | l in Limits(inp) :: l.cap == cap && !Meets(l, q)
  {
    LimitOfIs(inp, cap);
    LimitExceeds(inp, cap, q);
    forall l ensures l in Limits(inp) <==> l in LimitOf(inp, l.cap) { LimitsAre(inp, l); }
    hide Exceeds, Limits, LimitOf, Meets;
    if LimitOf(inp, cap) != [] { assert LimitOf(inp, cap)[0] in LimitOf(inp, cap); }
    assert forall l | l in LimitOf(inp, cap) :: l == LimitOf(inp, cap)[0];
  }

  lemma LimitExceeds(inp: Inputs, cap: Option<Cap>, q: int)
    ensures Exceeds(inp, cap, q) <==> LimitOf(inp, cap) != [] && !Meets(LimitOf(inp, cap)[0], q)
  {
    Associates(q as real, inp.entry, inp.multiplier);
    match cap
    case None =>
    case Some(MaxPositionSize) => assert q as real * 1.0 == q as real;
    case _ =>
  }

  lemma FitsIff(inp: Inputs, q: int)
    ensures Fits(inp, q) <==> MeetsAll(Limits(inp), q)
  {
    forall cap ensures Exceeds(inp, cap, q) <==> exists l | l in Limits(inp) :: l.cap == cap && !Meets(l, q) {
      ExceedsIff(inp, cap, q);
    }
    hide Exceeds, Limits, Meets;
    if Fits(inp, q) {
      forall l | l in Limits(inp) ensures Meets(l, q) { assert !Exceeds(inp, l.cap, q); }
    }
  }

  /** The largest whole number of lots, from none up, that fits; one more lot exceeds what `capped` names. */
  ghost predicate LargestThatFits(inp: Inputs, q: int, capped: Option<Cap>) {
    var lot := if inp.lotSize > 1 then inp.lotSize else 1;
    && q >= 0 && q % lot == 0
    && (Fits(inp, q) || (q == 0 && !Fits(inp, 0)))
    && (forall m: int | m >= 0 && m % lot == 0 && Fits(inp, m) :: m <= q)
    && Exceeds(inp, capped, q + lot)
  }

  lemma OptimalIsLargest(inp: Inputs, q: int, capped: Option<Cap>)
    requires Optimal(inp, q, capped)
    ensures LargestThatFits(inp, q, capped)
  {
    hide Fits, Exceeds, Limits, MeetsAll, Meets;
    forall m: int ensures Fits(inp, m) <==> MeetsAll(Limits(inp), m) { FitsIff(inp, m); }
    ExceedsIff(inp, capped, q + Lot(inp));
  }

  /** `qty // lot * lot`, when there is a lot to align to. */
  method AlignDown(n: int, lotSize: int) returns (q: int)
    ensures q == if lotSize > 1 then n / lotSize * lotSize else n
  {
    q := n;
    if lotSize > 1 { q := q / lotSize * lotSize; }
  }

  /** What the chain of caps has established so far. */
  ghost predicate SoFar(inp: Inputs, limits: seq<Limit>, qty: int, capped: Option<Cap>) {
    inp.multiplier > 0.0 ==> Greatest(limits, Lot(inp), qty, capped)
  }

  /** One cap of the chain, if it applies: lower the quantity to what it allows, and name it, when it is exceeded. */
  method Apply(cap: seq<Limit>, inp: Inputs, qty: int, capped: Option<Cap>, ghost limits: seq<Limit>)
    returns (qty': int, capped': Option<Cap>)
    requires |cap| <= 1 && (cap != [] ==> cap[0].unit != 0.0 && (inp.multiplier > 0.0 ==> cap[0].unit > 0.0))
    requires SoFar(inp, limits, qty, capped)
    ensures SoFar(inp, limits + cap, qty', capped') && qty' <= qty
  {
    qty', capped' := qty, capped;
    if cap != [] {
      var l := cap[0];
      var most := AlignDown((l.budget / l.unit).Floor, inp.lotSize);
      if qty > most {
        capped' := l.cap;
        qty' := most;
      }
      if inp.multiplier > 0.0 { OneMoreLimit(limits, l, Lot(inp), qty, capped); }
      assert cap == [l];
    } else {
      assert limits + cap == limits;
    }
  }

  lemma FirstSoFar(inp: Inputs, n: int, qty: int)
    requires inp.multiplier > 0.0 ==>
        RiskLimit(inp).unit > 0.0 && n == (RiskLimit(inp).budget / RiskLimit(inp).unit).Floor
    requires qty == if inp.lotSize > 1 then n / inp.lotSize * inp.lotSize else n
    ensures SoFar(inp, [RiskLimit(inp)], qty, None)
  {
    if inp.multiplier > 0.0 {
      assert qty == LotsWithin(RiskLimit(inp), Lot(inp));
      FirstLimit(RiskLimit(inp), Lot(inp));
    }
  }

  /** Sizing by risk alone, before any cap; `Raised` stands for the division by zero. */
  datatype RiskQuantity = Raised | Refused(risk: real) | Sized(qty: int, riskPerUnit: Option<real>)

  function Notional(inp: Inputs, qty: int): real { qty as real * inp.entry * inp.multiplier }

  /** The worth of the quantity at the entry price. */
  predicate IsWorth(inp: Inputs, qty: int, notional: real) { notional == qty as real * inp.entry * inp.multiplier }

  lemma NotionalIs(inp: Inputs, qty: int)
    ensures IsWorth(inp, qty, Notional(inp, qty))
  {
  }

  method SizeByRisk(inp: Inputs) returns (r: RiskQuantity)
    requires inp.riskBudget > 0.0
    ensures r.Raised? <==> DividesByZero(inp)
    ensures r.Refused? <==> UsesStop(inp) && inp.multiplier <= 0.0
    ensures r.Sized? ==>
              r.riskPerUnit == if UsesStop(inp) then Some(Abs(inp.entry - inp.stop.value) * inp.multiplier) else None
    ensures r.Refused? ==> r.risk == Abs(inp.entry - inp.stop.value) * inp.multiplier
    ensures r.Sized? ==> SoFar(inp, [RiskLimit(inp)], r.qty, None) && (inp.multiplier <= 0.0 ==> r.qty <= 0)
  {
    ghost var l := RiskLimit(inp);
    if inp.multiplier > 0.0 { RiskUnit(inp); }
    hide SoFar, Abs;
    var riskPerUnit: Option<real> := None;
    var maxQtyRisk := 0;
    if UsesStop(inp) {
      var risk := Abs(inp.entry - inp.stop.value) * inp.multiplier;
      RiskSign(inp);
      if risk <= 0.0 { return Refused(risk); }
      riskPerUnit := Some(risk);
      maxQtyRisk := (inp.riskBudget / risk).Floor;
      assert l.budget == inp.riskBudget && l.unit == risk;
    } else if inp.entry > 0.0 {
      if inp.multiplier == 0.0 { return Raised; }
      NonZero(inp.entry, inp.multiplier);
      var perUnit := PerUnit(inp);
      maxQtyRisk := (inp.riskBudget / perUnit).Floor;
      assert l.budget == inp.riskBudget && l.unit == perUnit;
    } else {
      assert l.budget / l.unit == 0.0;
    }
    assert inp.multiplier > 0.0 ==> maxQtyRisk == (l.budget / l.unit).Floor;
    if inp.multiplier <= 0.0 { FloorOfNegative(inp, maxQtyRisk); }
    var qty := AlignDown(maxQtyRisk, inp.lotSize);
    if maxQtyRisk <= 0 && inp.lotSize > 1 { AlignOfNegative(maxQtyRisk, inp.lotSize); }
    hide RiskLimit, PerUnit, UsesStop;
    FirstSoFar(inp, maxQtyRisk, qty);
    r := Sized(qty, riskPerUnit);
  }

  /** With a negative price per unit the risk budget buys less than nothing. */
  lemma FloorOfNegative(inp: Inputs, n: int)
    requires inp.multiplier <= 0.0 && inp.riskBudget > 0.0 && inp.entry > 0.0 ==> PerUnit(inp) < 0.0
    requires n == if inp.entry > 0.0 && PerUnit(inp) != 0.0 then (inp.riskBudget / PerUnit(inp)).Floor else 0
    requires inp.multiplier <= 0.0 && inp.riskBudget > 0.0
    ensures n <= 0
  {
    if inp.entry > 0.0 {
      var u := PerUnit(inp);
      var q := inp.riskBudget / u;
      assert q * u == inp.riskBudget;
      assert q < 0.0 || q * u <= 0.0;
    }
  }

  lemma AlignOfNegative(n: int, lot: int)
    requires n <= 0 && lot > 1
    ensures n / lot * lot <= 0
  {
    assert n / lot <= 0;
  }

  lemma RiskUnit(inp: Inputs)
    requires inp.multiplier > 0.0
    ensures RiskLimit(inp).unit > 0.0
  {
    assert RiskLimit(inp) == Limits(inp)[0];
    UnitsPositive(inp, RiskLimit(inp));
  }

  /** The size of a position; `None` stands for the division by zero. */
  method SizePosition(inp: Inputs) returns (r: Option<Sizing>)
    ensures r.None? <==> DividesByZero(inp)
    ensures inp.riskBudget <= 0.0 ==> r == Some(Sizing(0, 0.0, None, ZeroRiskBudget, Some(RiskBudget)))
    ensures inp.riskBudget > 0.0 && UsesStop(inp) && inp.multiplier <= 0.0 ==>
              r == Some(Sizing(0, 0.0, Some(Abs(inp.entry - inp.stop.value) * inp.multiplier), ZeroRiskPerUnit,
                  Some(RiskPerUnit)))
    ensures inp.multiplier <= 0.0 && r.Some? ==> r.value.quantity == 0 && r.value.notional == 0.0
    ensures inp.riskBudget > 0.0 && inp.multiplier > 0.0 ==>
              && r.Some? && Optimal(inp, r.value.quantity, r.value.cappedBy)
              && LargestThatFits(inp, r.value.quantity, r.value.cappedBy)
              && IsWorth(inp, r.value.quantity, r.value.notional)
              && r.value.reason == (if r.value.cappedBy.Some? then CappedBy(r.value.cappedBy.value)
                                    else if r.value.quantity > 0 then SizedOk else SizedZero)
    ensures inp.riskBudget > 0.0 && r.Some? ==>
              r.value.riskPerUnit
              == if UsesStop(inp) then Some(Abs(inp.entry - inp.stop.value) * inp.multiplier) else None
  {
    if inp.riskBudget <= 0.0 { return Some(Sizing(0, 0.0, None, ZeroRiskBudget, Some(RiskBudget))); }
    var sized := SizeByRisk(inp);
    if sized.Raised? { return None; }
    if sized.Refused? { return Some(Sizing(0, 0.0, Some(sized.risk), ZeroRiskPerUnit, Some(RiskPerUnit))); }
    if inp.entry > 0.0 { NonZero(inp.entry, inp.multiplier); }
    var qty := sized.qty;
    var capped: Option<Cap> := None;
    ghost var limits := [RiskLimit(inp)];
    assert SoFar(inp, limits, qty, capped)
        && (inp.entry > 0.0 ==> PerUnit(inp) != 0.0 && (inp.multiplier > 0.0 ==> PerUnit(inp) > 0.0));
    hide SoFar, Optimal, LargestThatFits, RiskLimit, PerUnit, Notional, IsWorth, UsesStop;

    qty, capped := Apply(CurrencyCap(inp, MaxCapitalPerTrade, inp.maxCapital), inp, qty, capped, limits);
    limits := limits + CurrencyCap(inp, MaxCapitalPerTrade, inp.maxCapital);
    qty, capped := Apply(CurrencyCap(inp, AvailableCapital, Some(inp.algoCapital)), inp, qty, capped, limits);
    limits := limits + CurrencyCap(inp, AvailableCapital, Some(inp.algoCapital));
    qty, capped := Apply(MarginCap(inp), inp, qty, capped, limits);
    limits := limits + MarginCap(inp);
    qty, capped := Apply(PositionCap(inp), inp, qty, capped, limits);
    limits := limits + PositionCap(inp);
    qty, capped := Apply(CurrencyCap(inp, MaxNotional, inp.maxNotional), inp, qty, capped, limits);
    limits := limits + CurrencyCap(inp, MaxNotional, inp.maxNotional);
    qty, capped := Apply(CurrencyCap(inp, PortfolioCapacity, inp.portfolioCapacity), inp, qty, capped, limits);
    limits := limits + CurrencyCap(inp, PortfolioCapacity, inp.portfolioCapacity);
    Clip(inp, qty, capped);
    if qty < 0 { qty := 0; }
    if 0 < qty < inp.lotSize {
      qty := 0;
      capped := Some(LotSizeMinimum);
    }
    if inp.multiplier > 0.0 { OptimalIsLargest(inp, qty, capped); }
    var reason := if qty > 0 then SizedOk else SizedZero;
    if capped.Some? { reason := CappedBy(capped.value); }
    NotionalIs(inp, qty);
    r := Some(Sizing(qty, Notional(inp, qty), sized.riskPerUnit, reason, capped));
  }

  lemma NonZero(a: real, b: real)
    requires a > 0.0
    ensures b > 0.0 ==> a * b > 0.0
    ensures b < 0.0 ==> a * b < 0.0
  {}

  lemma RiskSign(inp: Inputs)
    requires UsesStop(inp)
    ensures Abs(inp.entry - inp.stop.value) * inp.multiplier > 0.0 <==> inp.multiplier > 0.0
  {
    NonZero(Abs(inp.entry - inp.stop.value), inp.multiplier);
  }

  /** Every limit has a positive unit. */
  lemma UnitsPositive(inp: Inputs, l: Limit)
    requires inp.multiplier > 0.0 && l in Limits(inp)
    ensures l.unit > 0.0
  {
    if UsesStop(inp) { RiskSign(inp); }
    if inp.entry > 0.0 { NonZero(inp.entry, inp.multiplier); }
  }

  lemma MeetsDown(l: Limit, a: int, b: int)
    requires l.unit > 0.0 && a <= b && Meets(l, b)
    ensures Meets(l, a)
  {
    assert a as real * l.unit <= b as real * l.unit;
  }

  lemma Clip(inp: Inputs, q: int, capped: Option<Cap>)
    requires SoFar(inp, Limits(inp), q, capped)
    ensures inp.multiplier > 0.0 ==> Optimal(inp, if q < 0 then 0 else q, capped) && (q > 0 ==> q >= Lot(inp))
  {
    if inp.multiplier > 0.0 {
      hide Meets, Limits;
      var limits, lot := Limits(inp), Lot(inp);
      var l :| l in limits && l.cap == capped && !Meets(l, q + lot);
      UnitsPositive(inp, l);
      SmallMultiple(0, lot);
      SmallMultiple(q, lot);
      if q < 0 && Meets(l, 0 + lot) { MeetsDown(l, q + lot, 0 + lot); }
    }
  }
}
