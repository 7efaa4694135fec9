/** Lot sizes on a grid under a risk budget, in exact reals. */
module LotSizing {
  import opened Options

  const LOT_STEP := 0.01
  const MAX_LOT := 100.0
  const MIN_DISTANCE := 0.0000000001

  datatype Sizing = Lot(size: real) | DivisionByZero

  function Least(x: real, y: real): real {
    if x <= y then x else y
  }

  function Most(x: real, y: real): real {
    if x >= y then x else y
  }

  function Distance(x: real, y: real): real {
    if x >= y then x - y else y - x
  }

  function Product(x: real, y: real): real {
    x * y
  }

  function ToGrid(size: real, step: real): real
    requires step != 0.0
  {
    Product((size / step).Floor as real, step)
  }

  /** Down to the grid, then between the smallest and the largest lot. */
  function RoundLot(size: real, step: real, minLot: real): real
    requires step != 0.0
  {
    if size <= 0.0 then 0.0
    else Most(minLot, Least(ToGrid(size, step), MAX_LOT))
  }

  function Riskable(riskMoney: real, commissionRate: real): real {
    Most(0.0, riskMoney - riskMoney * commissionRate * 2.0)
  }

  /** What one lot loses over a price distance. */
  function LossPerLot(distance: real, contractSize: real): real {
    Product(distance, contractSize)
  }

  function AtrDistance(atrValue: real, atrMultiplier: real): real {
    atrValue * atrMultiplier
  }

  function HardLimit(maxLot: Option<real>): real {
    if maxLot.Some? then maxLot.value else MAX_LOT
  }

  /** The lots that `money` pays for at `perLot` each, under the limits. */
  function LotFor(money: real, perLot: real, minLot: real, maxLot: Option<real>): Sizing {
    if perLot == 0.0 then DivisionByZero
    else Lot(RoundLot(Least(money / perLot, HardLimit(maxLot)), LOT_STEP, minLot))
  }

  function RiskSize(equity: real, riskPct: real, entryPrice: real, stopLossPrice: real, pipValue: real,
                    contractSize: real, commissionRate: real, minLot: real, maxLot: Option<real>): Sizing
  {
    if equity <= 0.0 || riskPct <= 0.0 then Lot(0.0)
    else if entryPrice <= 0.0 || stopLossPrice <= 0.0 then Lot(0.0)
    else
      var distance := Distance(entryPrice, stopLossPrice);
      if distance < MIN_DISTANCE then Lot(0.0)
      else if pipValue == 0.0 then DivisionByZero
      else LotFor(Riskable(equity * riskPct, commissionRate), LossPerLot(distance, contractSize), minLot, maxLot)
  }

  function AtrSize(equity: real, riskPct: real, atrValue: real, atrMultiplier: real,
                   contractSize: real, commissionRate: real, minLot: real, maxLot: Option<real>): Sizing
  {
    if atrValue <= 0.0 then Lot(minLot)
    else
      var distance := AtrDistance(atrValue, atrMultiplier);
      LotFor(Riskable(equity * riskPct, commissionRate), LossPerLot(distance, contractSize), minLot, maxLot)
  }

  function KellyEdge(winRate: real, avgWin: real, avgLoss: real): real
    requires avgWin > 0.0 && avgLoss > 0.0
  {
    winRate / avgLoss - (1.0 - winRate) / avgWin
  }

  function KellyMoney(equity: real, winRate: real, avgWin: real, avgLoss: real, kellyFraction: real): real
    requires avgWin > 0.0 && avgLoss > 0.0
  {
    equity * (Most(0.0, KellyEdge(winRate, avgWin, avgLoss)) * kellyFraction)
  }

  function KellySize(equity: real, winRate: real, avgWin: real, avgLoss: real, kellyFraction: real,
                     minLot: real, maxLot: Option<real>, contractSize: real, currentPrice: real): Sizing
  {
    if winRate <= 0.0 || winRate >= 1.0 || avgWin <= 0.0 || avgLoss <= 0.0 then Lot(minLot)
    else
      var riskMoney := KellyMoney(equity, winRate, avgWin, avgLoss, kellyFraction);
      if riskMoney <= 0.0 then Lot(minLot)
      else LotFor(riskMoney, LossPerLot(currentPrice, contractSize), minLot, maxLot)
  }

  // ---------------------------------------------------------------- the grid

  lemma Scale(x: real, y: real, c: real)
    requires c > 0.0
    ensures x <= y <==> Product(x, c) <= Product(y, c)
    ensures x > 0.0 <==> Product(x, c) > 0.0
    ensures Product(0.0, c) == 0.0
  {
  }

  lemma DivideBack(x: real, d: real)
    requires d != 0.0
    ensures Product(x / d, d) == x
  {
  }

  /** The floor is the greatest multiple of the step that does not exceed the size. */
  lemma GridFloor(size: real, step: real, n: int)
    requires step > 0.0
    ensures ToGrid(size, step) <= size
    ensures Product(n as real, step) <= size <==> n <= (size / step).Floor
  {
    var q := size / step;
    DivideBack(size, step);
    Scale(n as real, q, step);
    Scale(q.Floor as real, q, step);
  }

  lemma GridFloorMonotone(x: real, y: real, step: real)
    requires step > 0.0 && x <= y
    ensures ToGrid(x, step) <= ToGrid(y, step)
    ensures y >= 0.0 ==> ToGrid(y, step) >= 0.0
  {
    var a, b := (x / step).Floor, (y / step).Floor;
    GridFloor(x, step, a);
    GridFloor(y, step, a);
    GridFloor(y, step, 0);
    Scale(a as real, b as real, step);
    Scale(0.0, b as real, step);
  }

  lemma RoundLotMonotone(x: real, y: real, step: real, minLot: real)
    requires step > 0.0 && x <= y
    ensures RoundLot(x, step, minLot) <= RoundLot(y, step, minLot)
  {
    GridFloorMonotone(x, y, step);
    ClampMonotone(x, y, ToGrid(x, step), ToGrid(y, step), minLot);
  }

  lemma ClampMonotone(x: real, y: real, a: real, b: real, minLot: real)
    requires x <= y && a <= b && (y >= 0.0 ==> b >= 0.0)
    ensures (if x <= 0.0 then 0.0 else Most(minLot, Least(a, MAX_LOT))) <=
            (if y <= 0.0 then 0.0 else Most(minLot, Least(b, MAX_LOT)))
  {
  }

  lemma QuotientMonotone(x: real, y: real, d: real, e: real)
    requires 0.0 <= x <= y && 0.0 < e <= d
    ensures 0.0 <= x / d <= y / e
  {
  }

  lemma LotForMonotone(m: real, m': real, p: real, p': real, minLot: real, maxLot: Option<real>)
    requires 0.0 <= m <= m' && 0.0 < p' <= p
    ensures LotFor(m, p, minLot, maxLot).Lot? && LotFor(m', p', minLot, maxLot).Lot?
    ensures LotFor(m, p, minLot, maxLot).size <= LotFor(m', p', minLot, maxLot).size
  {
    QuotientMonotone(m, m', p, p');
    RoundLotMonotone(Least(m / p, HardLimit(maxLot)), Least(m' / p', HardLimit(maxLot)), LOT_STEP, minLot);
  }

  // ---------------------------------------------------------------- the best lot

  /** The lots that can be traded: multiples of 0.01. */
  function GridLot(n: int): real {
    n as real * 0.01
  }

  /** At most 100 lots, at most max_lot if there is one, and no more than the money pays for. */
  predicate Affordable(n: int, perLot: real, money: real, maxLot: Option<real>) {
    && GridLot(n) <= 100.0
    && (maxLot.Some? ==> GridLot(n) <= maxLot.value)
    && Product(GridLot(n), perLot) <= money
  }

  predicate NothingToTrade(money: real, maxLot: Option<real>) {
    money <= 0.0 || (maxLot.Some? && maxLot.value <= 0.0)
  }

  /** Nothing when there is no money or no lot is allowed. Otherwise the best affordable grid
      lot, or the minimum lot if that is more. */
  ghost predicate IsBestLot(lot: real, perLot: real, money: real, minLot: real, maxLot: Option<real>) {
    if NothingToTrade(money, maxLot) then lot == 0.0
    else
      && minLot <= lot
      && (forall n :: Affordable(n, perLot, money, maxLot) ==> GridLot(n) <= lot)
      && (lot == minLot || exists n :: Affordable(n, perLot, money, maxLot) && lot == GridLot(n))
  }

  /** A size for any price per lot: dividing by 0 fails, and a negative price buys nothing. */
  ghost predicate IsSized(s: Sizing, perLot: real, money: real, minLot: real, maxLot: Option<real>) {
    if perLot == 0.0 then s == DivisionByZero
    else if perLot < 0.0 then s == Lot(0.0)
    else s.Lot? && IsBestLot(s.size, perLot, money, minLot, maxLot)
  }

  /** These conditions leave no choice. */
  lemma BestLotIsUnique(a: real, b: real, perLot: real, money: real, minLot: real, maxLot: Option<real>)
    requires IsBestLot(a, perLot, money, minLot, maxLot) && IsBestLot(b, perLot, money, minLot, maxLot)
    ensures a == b
  {
  }

  /** Its cost exceeds the money only by the minimum lot: it stays within the money exactly when
      the minimum lot does, and within max_lot and 100 lots exactly when the minimum lot does. */
  lemma BestLotBudget(lot: real, perLot: real, money: real, minLot: real, maxLot: Option<real>)
    requires IsBestLot(lot, perLot, money, minLot, maxLot) && perLot > 0.0 && !NothingToTrade(money, maxLot)
    ensures Product(lot, perLot) <= money || lot == minLot
    ensures Product(lot, perLot) <= money <==> Product(minLot, perLot) <= money
    ensures (lot <= 100.0 && (maxLot.Some? ==> lot <= maxLot.value)) <==>
            (minLot <= 100.0 && (maxLot.Some? ==> minLot <= maxLot.value))
  {
    Scale(minLot, lot, perLot);
  }

  /** Counting cost and money in another unit changes nothing. */
  lemma BestLotScales(lot: real, perLot: real, money: real, minLot: real, maxLot: Option<real>, unit: real)
    requires unit > 0.0
    ensures IsBestLot(lot, Product(perLot, unit), Product(money, unit), minLot, maxLot) <==>
            IsBestLot(lot, perLot, money, minLot, maxLot)
  {
    Scale(0.0, money, unit);
    forall n
      ensures Affordable(n, Product(perLot, unit), Product(money, unit), maxLot) <==>
              Affordable(n, perLot, money, maxLot)
    {
      Scale(Product(GridLot(n), perLot), money, unit);
      Regroup(GridLot(n), perLot, unit);
    }
  }

  lemma Regroup(x: real, y: real, z: real)
    ensures Product(x, Product(y, z)) == Product(Product(x, y), z)
  {
  }

  /** The index of the grid lot for a size, after the cap. */
  function GridIndex(size: real): int {
    var k := (size / LOT_STEP).Floor;
    if k <= 10000 then k else 10000
  }

  lemma GridLots(size: real, minLot: real, n: int)
    requires size > 0.0
    ensures var lot, k := RoundLot(size, LOT_STEP, minLot), GridIndex(size);
      && GridLot(k) <= size && GridLot(k) <= 100.0
      && minLot <= lot && (lot == minLot || lot == GridLot(k))
      && (GridLot(n) <= size && GridLot(n) <= 100.0 ==> GridLot(n) <= lot)
  {
    GridFloor(size, LOT_STEP, n);
  }

  /** A grid lot costs no more than the money exactly when it is no larger than what is paid for. */
  lemma AffordableIs(n: int, perLot: real, money: real, maxLot: Option<real>)
    requires perLot > 0.0
    ensures Affordable(n, perLot, money, maxLot) <==>
            GridLot(n) <= 100.0 && GridLot(n) <= money / perLot && GridLot(n) <= HardLimit(maxLot)
  {
    DivideBack(money, perLot);
    Scale(GridLot(n), money / perLot, perLot);
  }

  lemma BestOfSize(size: real, money: real, perLot: real, minLot: real, maxLot: Option<real>)
    requires perLot > 0.0 && size > 0.0 && size == Least(money / perLot, HardLimit(maxLot))
    requires !NothingToTrade(money, maxLot)
    ensures IsBestLot(RoundLot(size, LOT_STEP, minLot), perLot, money, minLot, maxLot)
  {
    var lot, k := RoundLot(size, LOT_STEP, minLot), GridIndex(size);
    GridLots(size, minLot, k);
    AffordableIs(k, perLot, money, maxLot);
    forall n | Affordable(n, perLot, money, maxLot)
      ensures GridLot(n) <= lot
    {
      AffordableIs(n, perLot, money, maxLot);
      GridLots(size, minLot, n);
    }
  }

  lemma QuotientSign(x: real, d: real)
    requires d != 0.0
    ensures x / d > 0.0 <==> (x > 0.0 && d > 0.0) || (x < 0.0 && d < 0.0)
  {
  }

  /** What money buys is the best lot. */
  lemma LotForIsBest(money: real, perLot: real, minLot: real, maxLot: Option<real>)
    requires money >= 0.0
    ensures IsSized(LotFor(money, perLot, minLot, maxLot), perLot, money, minLot, maxLot)
  {
    if perLot != 0.0 {
      QuotientSign(money, perLot);
      if perLot > 0.0 && !NothingToTrade(money, maxLot) {
        BestOfSize(Least(money / perLot, HardLimit(maxLot)), money, perLot, minLot, maxLot);
      }
    }
  }

  lemma SizedScales(s: Sizing, perLot: real, money: real, minLot: real, maxLot: Option<real>, unit: real)
    requires unit > 0.0
    ensures IsSized(s, Product(perLot, unit), Product(money, unit), minLot, maxLot) <==>
            IsSized(s, perLot, money, minLot, maxLot)
  {
    SignOf(unit, perLot);
    if s.Lot? {
      BestLotScales(s.size, perLot, money, minLot, maxLot, unit);
    }
  }

  lemma RiskableIs(m: real, rate: real)
    ensures Riskable(m, rate) == Most(0.0, m * (1.0 - 2.0 * rate))
  {
    assert m * (1.0 - 2.0 * rate) == m - m * rate * 2.0;
  }

  /** Money below 0 counts as none. */
  lemma NegativeMoney(s: Sizing, perLot: real, money: real, minLot: real, maxLot: Option<real>)
    ensures IsSized(s, perLot, Most(0.0, money), minLot, maxLot) <==> IsSized(s, perLot, money, minLot, maxLot)
  {
  }

  /** The part that risk_size and atr_size share. */
  lemma RiskedLot(money: real, rate: real, perLot: real, minLot: real, maxLot: Option<real>, left: real)
    requires left == money * (1.0 - 2.0 * rate)
    ensures IsSized(LotFor(Riskable(money, rate), perLot, minLot, maxLot), perLot, left, minLot, maxLot)
  {
    RiskableIs(money, rate);
    LotForIsBest(Most(0.0, left), perLot, minLot, maxLot);
    NegativeMoney(LotFor(Most(0.0, left), perLot, minLot, maxLot), perLot, left, minLot, maxLot);
  }

  // ---------------------------------------------------------------- risk_size and atr_size

  /** risk_size, for all arguments: nothing if a guard fails; an error if the pip value is 0; else
      the best lot for the equity at risk after commission, at what a lot loses at the stop. */
  lemma RiskSizeIsBest(equity: real, riskPct: real, entryPrice: real, stopLossPrice: real, pipValue: real,
                       contractSize: real, commissionRate: real, minLot: real, maxLot: Option<real>,
                       distance: real, perLot: real, risk: real, money: real)
    requires distance == if entryPrice > stopLossPrice then entryPrice - stopLossPrice else stopLossPrice - entryPrice
    requires perLot == distance * contractSize
    requires risk == equity * riskPct && money == risk * (1.0 - 2.0 * commissionRate)
    ensures var s :=
        RiskSize(equity, riskPct, entryPrice, stopLossPrice, pipValue, contractSize, commissionRate, minLot, maxLot);
      if equity <= 0.0 || riskPct <= 0.0 || entryPrice <= 0.0 || stopLossPrice <= 0.0 || distance < 0.0000000001
      then s == Lot(0.0)
      else if pipValue == 0.0 then s == DivisionByZero
      else IsSized(s, perLot, money, minLot, maxLot)
  {
    DistanceIs(entryPrice, stopLossPrice, distance);
    LossIs(distance, contractSize, perLot);
    if Accepted(equity, riskPct, entryPrice, stopLossPrice, pipValue) {
      RiskSizeAt(equity, riskPct, entryPrice, stopLossPrice, pipValue, contractSize, commissionRate, minLot, maxLot,
                 distance, perLot, risk);
      RiskedLot(risk, commissionRate, perLot, minLot, maxLot, money);
    }
  }

  predicate Accepted(equity: real, riskPct: real, entryPrice: real, stopLossPrice: real, pipValue: real) {
    && equity > 0.0 && riskPct > 0.0 && entryPrice > 0.0 && stopLossPrice > 0.0 && pipValue != 0.0
    && Distance(entryPrice, stopLossPrice) >= MIN_DISTANCE
  }

  lemma RiskSizeAt(equity: real, riskPct: real, entryPrice: real, stopLossPrice: real, pipValue: real,
                   contractSize: real, commissionRate: real, minLot: real, maxLot: Option<real>,
                   distance: real, perLot: real, risk: real)
    requires Accepted(equity, riskPct, entryPrice, stopLossPrice, pipValue)
    requires distance == Distance(entryPrice, stopLossPrice) && perLot == LossPerLot(distance, contractSize)
    requires risk == equity * riskPct
    ensures RiskSize(equity, riskPct, entryPrice, stopLossPrice, pipValue, contractSize, commissionRate, minLot, maxLot)
         == LotFor(Riskable(risk, commissionRate), perLot, minLot, maxLot)
  {
  }

  lemma DistanceIs(x: real, y: real, distance: real)
    requires distance == if x > y then x - y else y - x
    ensures distance == Distance(x, y)
  {
  }

  lemma LossIs(distance: real, contractSize: real, perLot: real)
    requires perLot == distance * contractSize
    ensures perLot == LossPerLot(distance, contractSize)
  {
  }

  lemma SignOf(x: real, y: real)
    requires x > 0.0
    ensures Product(x, y) == Product(y, x)
    ensures Product(x, y) > 0.0 <==> y > 0.0
    ensures Product(x, y) == 0.0 <==> y == 0.0
  {
  }

  /** Its loss at the stop stays within the money left after commission, and the lot within its
      limits, exactly when those of the minimum lot do. */
  lemma RiskSizeBudget(equity: real, riskPct: real, entryPrice: real, stopLossPrice: real, pipValue: real,
                       contractSize: real, commissionRate: real, minLot: real, maxLot: Option<real>,
                       distance: real, perLot: real, risk: real, money: real)
    requires Accepted(equity, riskPct, entryPrice, stopLossPrice, pipValue) && contractSize > 0.0
    requires distance == if entryPrice > stopLossPrice then entryPrice - stopLossPrice else stopLossPrice - entryPrice
    requires perLot == distance * contractSize
    requires risk == equity * riskPct && money == risk * (1.0 - 2.0 * commissionRate)
    ensures var s :=
        RiskSize(equity, riskPct, entryPrice, stopLossPrice, pipValue, contractSize, commissionRate, minLot, maxLot);
      && s.Lot?
      && if NothingToTrade(money, maxLot) then s.size == 0.0
         else
           && (s.size * perLot <= money || s.size == minLot)
           && (s.size * perLot <= money <==> minLot * perLot <= money)
           && ((s.size <= 100.0 && (maxLot.Some? ==> s.size <= maxLot.value)) <==>
               (minLot <= 100.0 && (maxLot.Some? ==> minLot <= maxLot.value)))
  {
    RiskSizeIsBest(equity, riskPct, entryPrice, stopLossPrice, pipValue, contractSize, commissionRate, minLot, maxLot,
                   distance, perLot, risk, money);
    DistanceIs(entryPrice, stopLossPrice, distance);
    LossIs(distance, contractSize, perLot);
    SignOf(distance, contractSize);
    SizedBudget(
      RiskSize(equity, riskPct, entryPrice, stopLossPrice, pipValue, contractSize, commissionRate, minLot, maxLot),
      perLot, money, minLot, maxLot);
  }

  lemma SizedBudget(s: Sizing, perLot: real, money: real, minLot: real, maxLot: Option<real>)
    requires IsSized(s, perLot, money, minLot, maxLot) && perLot > 0.0
    ensures s.Lot?
    ensures if NothingToTrade(money, maxLot) then s.size == 0.0
      else
        && (s.size * perLot <= money || s.size == minLot)
        && (s.size * perLot <= money <==> minLot * perLot <= money)
        && ((s.size <= 100.0 && (maxLot.Some? ==> s.size <= maxLot.value)) <==>
            (minLot <= 100.0 && (maxLot.Some? ==> minLot <= maxLot.value)))
  {
    if !NothingToTrade(money, maxLot) {
      BestLotBudget(s.size, perLot, money, minLot, maxLot);
    }
  }

  /** The minimum lot can lose 10 against a budget of 1, and can be twice max_lot. */
  lemma MinimumLotOverruns()
    ensures RiskSize(100.0, 0.01, 1.1, 1.09, 10.0, 100000.0, 0.0, 0.01, None) == Lot(0.01)
    ensures 0.01 * ((1.1 - 1.09) * 100000.0) == 10.0 && 100.0 * 0.01 == 1.0
    ensures RiskSize(100000.0, 0.01, 1.1, 1.09, 10.0, 100000.0, 0.0, 0.01, Some(0.005)) == Lot(0.01)
  {
  }

  /** atr_size, for all arguments: the minimum lot without a positive ATR; else the best lot for
      the equity at risk after commission, at what a lot loses over that many ATRs. */
  lemma AtrSizeIsBest(equity: real, riskPct: real, atrValue: real, atrMultiplier: real, contractSize: real,
                      commissionRate: real, minLot: real, maxLot: Option<real>,
                      perLot: real, risk: real, money: real)
    requires perLot == atrValue * atrMultiplier * contractSize
    requires risk == equity * riskPct && money == risk * (1.0 - 2.0 * commissionRate)
    ensures var s := AtrSize(equity, riskPct, atrValue, atrMultiplier, contractSize, commissionRate, minLot, maxLot);
      if atrValue <= 0.0 then s == Lot(minLot) else IsSized(s, perLot, money, minLot, maxLot)
  {
    var distance := AtrDistance(atrValue, atrMultiplier);
    LossIs(distance, contractSize, perLot);
    if atrValue > 0.0 {
      AtrSizeAt(equity, riskPct, atrValue, atrMultiplier, contractSize, commissionRate, minLot, maxLot,
                distance, perLot, risk);
      RiskedLot(risk, commissionRate, perLot, minLot, maxLot, money);
    }
  }

  lemma AtrSizeAt(equity: real, riskPct: real, atrValue: real, atrMultiplier: real, contractSize: real,
                  commissionRate: real, minLot: real, maxLot: Option<real>,
                  distance: real, perLot: real, risk: real)
    requires atrValue > 0.0 && distance == AtrDistance(atrValue, atrMultiplier)
    requires perLot == LossPerLot(distance, contractSize) && risk == equity * riskPct
    ensures AtrSize(equity, riskPct, atrValue, atrMultiplier, contractSize, commissionRate, minLot, maxLot)
         == LotFor(Riskable(risk, commissionRate), perLot, minLot, maxLot)
  {
  }

  /** atr_size is risk_size with the stop placed that many ATRs from the entry, on either side. */
  lemma AtrRefinesRisk(equity: real, riskPct: real, atrValue: real, atrMultiplier: real, entryPrice: real,
                       pipValue: real, contractSize: real, commissionRate: real, minLot: real,
                       maxLot: Option<real>)
    requires equity > 0.0 && riskPct > 0.0 && atrValue > 0.0 && entryPrice > 0.0 && pipValue != 0.0
    requires atrValue * atrMultiplier >= 0.0000000001
    ensures var d := atrValue * atrMultiplier;
      var s := AtrSize(equity, riskPct, atrValue, atrMultiplier, contractSize, commissionRate, minLot, maxLot);
      && s == RiskSize(equity, riskPct, entryPrice, entryPrice + d, pipValue, contractSize, commissionRate,
                       minLot, maxLot)
      && (d < entryPrice ==>
           s == RiskSize(equity, riskPct, entryPrice, entryPrice - d, pipValue, contractSize, commissionRate,
                         minLot, maxLot))
  {
  }

  // ---------------------------------------------------------------- kelly_size

  lemma KellyEdgeIs(winRate: real, avgWin: real, avgLoss: real)
    requires avgWin > 0.0 && avgLoss > 0.0
    ensures Product(KellyEdge(winRate, avgWin, avgLoss), avgWin * avgLoss) ==
            winRate * avgWin - (1.0 - winRate) * avgLoss
  {
    var a, b := winRate / avgLoss, (1.0 - winRate) / avgWin;
    assert a * avgLoss == winRate && b * avgWin == 1.0 - winRate;
    var both := avgWin * avgLoss;
    assert a * both == a * avgLoss * avgWin == winRate * avgWin;
    assert b * both == b * avgWin * avgLoss == (1.0 - winRate) * avgLoss;
  }

  /** The edge is positive exactly when a trade has positive expected gain. */
  lemma KellyEdgePositive(winRate: real, avgWin: real, avgLoss: real)
    requires avgWin > 0.0 && avgLoss > 0.0
    ensures KellyEdge(winRate, avgWin, avgLoss) > 0.0 <==> winRate * avgWin > (1.0 - winRate) * avgLoss
  {
    KellyEdgeIs(winRate, avgWin, avgLoss);
    SignOf(avgWin, avgLoss);
    Scale(KellyEdge(winRate, avgWin, avgLoss), 0.0, avgWin * avgLoss);
  }

  /** The stake on plain numbers: an edge is a gain in units of `unit`. */
  lemma StakeIs(equity: real, edge: real, fraction: real, unit: real, gain: real)
    requires unit > 0.0 && Product(edge, unit) == gain
    ensures var money := equity * (Most(0.0, edge) * fraction);
      && (money > 0.0 <==> gain > 0.0 && equity * fraction > 0.0)
      && (gain > 0.0 ==> Product(money, unit) == equity * fraction * gain)
  {
    Scale(edge, 0.0, unit);
    Scale(0.0, edge, unit);
    if edge > 0.0 {
      assert equity * (edge * fraction) == equity * fraction * edge;
      SignOf(edge, equity * fraction);
      Regroup(equity * fraction, edge, unit);
    }
  }

  /** kelly_size, for all arguments: the minimum lot if a guard fails or nothing is to be staked;
      else the best lot for the staked part of the equity. Price and stake are counted in units
      of avgWin * avgLoss, which leaves no division. */
  lemma KellySizeIsBest(equity: real, winRate: real, avgWin: real, avgLoss: real, fraction: real, minLot: real,
                        maxLot: Option<real>, contractSize: real, price: real, gain: real, perLot: real, stake: real)
    requires gain == winRate * avgWin - (1.0 - winRate) * avgLoss
    requires perLot == price * contractSize * (avgWin * avgLoss)
    requires stake == equity * fraction * gain
    ensures var s := KellySize(equity, winRate, avgWin, avgLoss, fraction, minLot, maxLot, contractSize, price);
      if winRate <= 0.0 || winRate >= 1.0 || avgWin <= 0.0 || avgLoss <= 0.0 then s == Lot(minLot)
      else if gain <= 0.0 || equity * fraction <= 0.0 then s == Lot(minLot)
      else IsSized(s, perLot, stake, minLot, maxLot)
  {
    if 0.0 < winRate < 1.0 && avgWin > 0.0 && avgLoss > 0.0 {
      KellyMoneyIs(equity, winRate, avgWin, avgLoss, fraction, gain, avgWin * avgLoss);
      var money := KellyMoney(equity, winRate, avgWin, avgLoss, fraction);
      if money > 0.0 {
        StakedLot(money, LossPerLot(price, contractSize), minLot, maxLot, avgWin * avgLoss, perLot, stake);
      }
    }
  }

  lemma KellyMoneyIs(equity: real, winRate: real, avgWin: real, avgLoss: real, fraction: real, gain: real, unit: real)
    requires avgWin > 0.0 && avgLoss > 0.0 && unit == avgWin * avgLoss
    requires gain == winRate * avgWin - (1.0 - winRate) * avgLoss
    ensures unit > 0.0
    ensures var money := KellyMoney(equity, winRate, avgWin, avgLoss, fraction);
      && (money > 0.0 <==> gain > 0.0 && equity * fraction > 0.0)
      && (gain > 0.0 ==> Product(money, unit) == equity * fraction * gain)
  {
    SignOf(avgWin, avgLoss);
    KellyEdgeIs(winRate, avgWin, avgLoss);
    StakeIs(equity, KellyEdge(winRate, avgWin, avgLoss), fraction, unit, gain);
  }

  lemma StakedLot(money: real, perLot: real, minLot: real, maxLot: Option<real>, unit: real, cost: real, stake: real)
    requires money > 0.0 && unit > 0.0 && cost == Product(perLot, unit) && stake == Product(money, unit)
    ensures IsSized(LotFor(money, perLot, minLot, maxLot), cost, stake, minLot, maxLot)
  {
    LotForIsBest(money, perLot, minLot, maxLot);
    SizedScales(LotFor(money, perLot, minLot, maxLot), perLot, money, minLot, maxLot, unit);
  }

  // ---------------------------------------------------------------- monotonicity

  lemma RiskableMonotone(m: real, m': real, rate: real, rate': real)
    requires 0.0 <= m <= m' && rate' <= rate
    ensures 0.0 <= Riskable(m, rate) <= Riskable(m', rate')
  {
    RiskableIs(m, rate);
    RiskableIs(m', rate');
    PositivePartMonotone(m, m', 1.0 - 2.0 * rate, 1.0 - 2.0 * rate');
  }

  lemma PositivePartMonotone(m: real, m': real, k: real, k': real)
    requires 0.0 <= m <= m' && k <= k'
    ensures 0.0 <= Most(0.0, m * k) <= Most(0.0, m' * k')
  {
    if k > 0.0 {
      ProductMonotone(m, m', k, k');
    } else {
      assert m * k <= 0.0;
    }
  }

  lemma ProductMonotone(a: real, a': real, b: real, b': real)
    requires 0.0 <= a <= a' && 0.0 <= b <= b'
    ensures 0.0 <= a * b <= a' * b'
  {
    assert a * b <= a' * b <= a' * b';
  }

  /** More equity or risk never shrinks the lot; a wider stop or a higher commission never
      grows it. Stated for the part that risk_size and atr_size share. */
  lemma SizingIsMonotone(equity: real, equity': real, riskPct: real, riskPct': real, distance: real, distance': real,
                         contractSize: real, rate: real, rate': real, minLot: real, maxLot: Option<real>)
    requires 0.0 < equity <= equity' && 0.0 < riskPct <= riskPct' && 0.0 < distance' <= distance && rate' <= rate
    requires contractSize > 0.0
    ensures var s := LotFor(Riskable(equity * riskPct, rate), LossPerLot(distance, contractSize), minLot, maxLot);
      var s' := LotFor(Riskable(equity' * riskPct', rate'), LossPerLot(distance', contractSize), minLot, maxLot);
      s.Lot? && s'.Lot? && s.size <= s'.size
  {
    ProductMonotone(equity, equity', riskPct, riskPct');
    RiskableMonotone(equity * riskPct, equity' * riskPct', rate, rate');
    ProductMonotone(distance', distance, contractSize, contractSize);
    Scale(distance', distance, contractSize);
    LotForMonotone(Riskable(equity * riskPct, rate), Riskable(equity' * riskPct', rate'),
                   LossPerLot(distance, contractSize), LossPerLot(distance', contractSize), minLot, maxLot);
  }

  lemma RiskSizeIsMonotone(equity: real, equity': real, riskPct: real, riskPct': real,
                           entry: real, stop: real, entry': real, stop': real, pipValue: real,
                           contractSize: real, rate: real, rate': real, minLot: real, maxLot: Option<real>)
    requires Accepted(equity, riskPct, entry, stop, pipValue) && Accepted(equity', riskPct', entry', stop', pipValue)
    requires equity <= equity' && riskPct <= riskPct'
    requires Distance(entry', stop') <= Distance(entry, stop) && rate' <= rate
    requires contractSize > 0.0
    ensures var s := RiskSize(equity, riskPct, entry, stop, pipValue, contractSize, rate, minLot, maxLot);
      var s' := RiskSize(equity', riskPct', entry', stop', pipValue, contractSize, rate', minLot, maxLot);
      s.Lot? && s'.Lot? && s.size <= s'.size
  {
    var d, d' := Distance(entry, stop), Distance(entry', stop');
    SizingIsMonotone(equity, equity', riskPct, riskPct', d, d',
                     contractSize, rate, rate', minLot, maxLot);
  }

  lemma AtrSizeIsMonotone(equity: real, equity': real, riskPct: real, riskPct': real,
                          atr: real, atr': real, multiplier: real, multiplier': real,
                          contractSize: real, rate: real, rate': real, minLot: real, maxLot: Option<real>)
    requires 0.0 < equity <= equity' && 0.0 < riskPct <= riskPct' && rate' <= rate && contractSize > 0.0
    requires atr > 0.0 && atr' > 0.0 && 0.0 < atr' * multiplier' <= atr * multiplier
    ensures var s := AtrSize(equity, riskPct, atr, multiplier, contractSize, rate, minLot, maxLot);
      var s' := AtrSize(equity', riskPct', atr', multiplier', contractSize, rate', minLot, maxLot);
      s.Lot? && s'.Lot? && s.size <= s'.size
  {
    SizingIsMonotone(equity, equity', riskPct, riskPct', AtrDistance(atr, multiplier), AtrDistance(atr', multiplier'),
                     contractSize, rate, rate', minLot, maxLot);
  }

  lemma KellyEdgeMonotone(w: real, w': real, win: real, win': real, loss: real, loss': real)
    requires 0.0 < w <= w' < 1.0 && 0.0 < win <= win' && 0.0 < loss' <= loss
    ensures KellyEdge(w, win, loss) <= KellyEdge(w', win', loss')
  {
    QuotientMonotone(w, w', loss, loss');
    QuotientMonotone(1.0 - w', 1.0 - w, win', win);
  }

  /** The final lot grows with the win rate, the average win, the fraction and the equity, and
      shrinks with the average loss, through the clamps and the floor. */
  lemma KellySizeIsMonotone(equity: real, equity': real, w: real, w': real, win: real, win': real, loss: real,
                            loss': real, f: real, f': real, minLot: real, maxLot: Option<real>,
                            contractSize: real, price: real)
    requires 0.0 <= equity <= equity' && 0.0 < w <= w' < 1.0 && 0.0 < win <= win'
    requires 0.0 < loss' <= loss && 0.0 <= f <= f'
    requires contractSize > 0.0 && price > 0.0 && HardLimit(maxLot) > 0.0
    ensures var s := KellySize(equity, w, win, loss, f, minLot, maxLot, contractSize, price);
      var s' := KellySize(equity', w', win', loss', f', minLot, maxLot, contractSize, price);
      s.Lot? && s'.Lot? && s.size <= s'.size
  {
    KellyMoneyMonotone(equity, equity', w, w', win, win', loss, loss', f, f');
    var money, money' := KellyMoney(equity, w, win, loss, f), KellyMoney(equity', w', win', loss', f');
    var perLot := LossPerLot(price, contractSize);
    Scale(price, price, contractSize);
    if money > 0.0 {
      LotForMonotone(money, money', perLot, perLot, minLot, maxLot);
    } else if money' > 0.0 {
      PositiveQuotient(money', perLot);
    }
  }

  lemma PositiveQuotient(x: real, d: real)
    requires x > 0.0 && d > 0.0
    ensures x / d > 0.0
  {
  }

  lemma KellyMoneyMonotone(equity: real, equity': real, w: real, w': real, win: real, win': real, loss: real,
                           loss': real, f: real, f': real)
    requires 0.0 <= equity <= equity' && 0.0 < w <= w' < 1.0 && 0.0 < win <= win'
    requires 0.0 < loss' <= loss && 0.0 <= f <= f'
    ensures 0.0 <= KellyMoney(equity, w, win, loss, f) <= KellyMoney(equity', w', win', loss', f')
  {
    KellyEdgeMonotone(w, w', win, win', loss, loss');
    FractionMonotone(equity, equity', KellyEdge(w, win, loss), KellyEdge(w', win', loss'), f, f');
  }

  lemma FractionMonotone(equity: real, equity': real, k: real, k': real, f: real, f': real)
    requires 0.0 <= equity <= equity' && k <= k' && 0.0 <= f <= f'
    ensures 0.0 <= equity * (Most(0.0, k) * f) <= equity' * (Most(0.0, k') * f')
  {
    ProductMonotone(Most(0.0, k), Most(0.0, k'), f, f');
    ProductMonotone(equity, equity', Most(0.0, k) * f, Most(0.0, k') * f');
  }
}
