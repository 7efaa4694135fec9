/** The three seeded indicator strategies over a series of closing prices, in exact reals,
    and how they respond to scaling, shifting and mirroring the prices. */
module Indicators {
  import opened Options

  datatype Action = Buy | Sell | Hold

  /** What a strategy reports; reading the last price of an empty series is an error. */
  datatype Report = Signal(action: Action, price: Option<real>) | IndexError

  function Swap(a: Action): Action {
    match a
    case Buy => Sell
    case Sell => Buy
    case Hold => Hold
  }

  function Moved(x: real, a: real, b: real): real {
    a * x + b
  }

  /** Prices scaled by a and shifted by b; a < 0 turns them upside down. */
  function Affine(xs: seq<real>, a: real, b: real): (ys: seq<real>)
    ensures |ys| == |xs|
  {
    seq(|xs|, i requires 0 <= i < |xs| => Moved(xs[i], a, b))
  }

  /** The slice xs[-n:] of a long enough list. */
  function LastOf<T>(xs: seq<T>, n: nat): seq<T> {
    if n <= |xs| then xs[|xs| - n..] else xs
  }

  /** How an action responds to such a change: kept, or swapped when upside down. */
  function Turned(a: real, action: Action): Action {
    if a > 0.0 then action else Swap(action)
  }

  function TurnedReport(r: Report, a: real, b: real): Report {
    if r.IndexError? then r
    else Signal(Turned(a, r.action), if r.price.Some? then Some(Moved(r.price.value, a, b)) else None)
  }

  /** The first line crosses above or below the second. */
  function Cross(line: real, other: real, linePrev: real, otherPrev: real): Action {
    if line > other && linePrev <= otherPrev then Buy
    else if line < other && linePrev >= otherPrev then Sell
    else Hold
  }

  lemma CrossTurns(x: real, y: real, xPrev: real, yPrev: real, a: real, b: real)
    requires a != 0.0
    ensures Cross(Moved(x, a, b), Moved(y, a, b), Moved(xPrev, a, b), Moved(yPrev, a, b)) ==
            Turned(a, Cross(x, y, xPrev, yPrev))
  {
    OrderTurns(x, y, a);
    OrderTurns(y, x, a);
    OrderTurns(xPrev, yPrev, a);
    OrderTurns(yPrev, xPrev, a);
  }

  lemma OrderTurns(x: real, y: real, a: real)
    requires a != 0.0
    ensures a * x < a * y <==> if a > 0.0 then x < y else y < x
  {
    var d := y - x;
    assert a * y - a * x == a * d;
    assert a * d > 0.0 <==> if a > 0.0 then d > 0.0 else d < 0.0;
  }

  // ---------------------------------------------------------------- moving averages

  function Sum(xs: seq<real>): real {
    if xs == [] then 0.0 else Sum(xs[..|xs| - 1]) + xs[|xs| - 1]
  }

  function Mean(xs: seq<real>): real
    requires xs != []
  {
    Ratio(Sum(xs), |xs| as real)
  }

  function Ratio(x: real, d: real): real
    requires d != 0.0
  {
    x / d
  }

  lemma {:induction false} SumAffine(xs: seq<real>, a: real, b: real)
    ensures Sum(Affine(xs, a, b)) == a * Sum(xs) + b * |xs| as real
  {
    if xs != [] {
      var front, last := xs[..|xs| - 1], xs[|xs| - 1];
      SumAffine(front, a, b);
      assert Affine(xs, a, b)[..|xs| - 1] == Affine(front, a, b);
      assert Affine(xs, a, b)[|xs| - 1] == a * last + b;
      assert a * (Sum(front) + last) == a * Sum(front) + a * last;
      assert b * |xs| as real == b * |front| as real + b;
    }
  }

  lemma QuotientIs(x: real, d: real, q: real)
    requires d != 0.0 && q * d == x
    ensures x / d == q
  {
  }

  lemma MeanShift(s: real, n: real, a: real, b: real)
    requires n != 0.0
    ensures Ratio(a * s + b * n, n) == Moved(Ratio(s, n), a, b)
  {
  }

  lemma MeanAffine(xs: seq<real>, a: real, b: real)
    requires xs != []
    ensures Mean(Affine(xs, a, b)) == Moved(Mean(xs), a, b)
  {
    SumAffine(xs, a, b);
    MeanShift(Sum(xs), |xs| as real, a, b);
  }

  const FAST_MA := 10
  const SLOW_MA := 20

  function LastPrice(close: seq<real>): Option<real> {
    if close == [] then None else Some(close[|close| - 1])
  }

  function DoubleAverage(close: seq<real>): Report {
    if |close| < SLOW_MA + 1 then Signal(Hold, LastPrice(close))
    else
      var before := close[..|close| - 1];
      Signal(Cross(Mean(LastOf(close, FAST_MA)), Mean(LastOf(close, SLOW_MA)),
                   Mean(LastOf(before, FAST_MA)), Mean(LastOf(before, SLOW_MA))),
             LastPrice(close))
  }

  lemma LastOfAffine(xs: seq<real>, n: nat, a: real, b: real)
    ensures LastOf(Affine(xs, a, b), n) == Affine(LastOf(xs, n), a, b)
  {
  }

  /** Scaling and shifting the prices leaves the double-average signal alone; turning them
      upside down, in particular C - p, swaps buy and sell. */
  lemma DoubleAverageTurns(close: seq<real>, a: real, b: real)
    requires a != 0.0
    ensures DoubleAverage(Affine(close, a, b)) == TurnedReport(DoubleAverage(close), a, b)
  {
    if |close| >= SLOW_MA + 1 {
      var before := close[..|close| - 1];
      assert Affine(close, a, b)[..|close| - 1] == Affine(before, a, b);
      var fast, slow, fastPrev, slowPrev :=
        LastOf(close, FAST_MA), LastOf(close, SLOW_MA), LastOf(before, FAST_MA), LastOf(before, SLOW_MA);
      LastOfAffine(close, FAST_MA, a, b);
      LastOfAffine(close, SLOW_MA, a, b);
      LastOfAffine(before, FAST_MA, a, b);
      LastOfAffine(before, SLOW_MA, a, b);
      MeanAffine(fast, a, b);
      MeanAffine(slow, a, b);
      MeanAffine(fastPrev, a, b);
      MeanAffine(slowPrev, a, b);
      CrossTurns(Mean(fast), Mean(slow), Mean(fastPrev), Mean(slowPrev), a, b);
    }
  }

  lemma {:induction false} SumFront(x: real, xs: seq<real>)
    ensures Sum([x] + xs) == x + Sum(xs)
  {
    if xs == [] {
      assert [x] + xs == [x] && [x][..0] == [];
    } else {
      SumFront(x, xs[..|xs| - 1]);
      assert ([x] + xs)[..|xs|] == [x] + xs[..|xs| - 1];
    }
  }

  /** Two windows one price apart share all but their outermost prices. */
  lemma WindowsShare(close: seq<real>, n: nat)
    requires 1 <= n < |close|
    ensures var last := |close| - 1;
      && LastOf(close, n) == close[last + 1 - n..last] + [close[last]]
      && LastOf(close[..last], n) == [close[last - n]] + close[last + 1 - n..last]
  {
  }

  /** Moving the window by one price trades its oldest price for the newest. */
  lemma SumSlides(close: seq<real>, n: nat)
    requires 1 <= n < |close|
    ensures Sum(LastOf(close, n)) + close[|close| - 1 - n] ==
            Sum(LastOf(close[..|close| - 1], n)) + close[|close| - 1]
  {
    var last := |close| - 1;
    WindowsShare(close, n);
    SumBack(close[last + 1 - n..last], close[last]);
    SumFront(close[last - n], close[last + 1 - n..last]);
  }

  lemma SumBack(xs: seq<real>, x: real)
    ensures Sum(xs + [x]) == Sum(xs) + x
  {
    assert (xs + [x])[..|xs|] == xs;
  }

  /** A buy needs the newest price and the one 20 before it to average above the one 10
      before; a sell needs them below. */
  lemma DoubleAverageSense(close: seq<real>)
    requires |close| >= SLOW_MA + 1
    ensures var last := |close| - 1;
      var bend := close[last] + close[last - SLOW_MA] - 2.0 * close[last - FAST_MA];
      && (DoubleAverage(close).action == Buy ==> bend > 0.0)
      && (DoubleAverage(close).action == Sell ==> bend < 0.0)
  {
    var last, before := |close| - 1, close[..|close| - 1];
    SumSlides(close, FAST_MA);
    SumSlides(close, SLOW_MA);
    CrossOfSums(Sum(LastOf(close, FAST_MA)), Sum(LastOf(close, SLOW_MA)),
                Sum(LastOf(before, FAST_MA)), Sum(LastOf(before, SLOW_MA)),
                close[last] + close[last - SLOW_MA] - 2.0 * close[last - FAST_MA]);
  }

  lemma CrossOfSums(fast: real, slow: real, fastPrev: real, slowPrev: real, bend: real)
    requires 2.0 * fast - slow == 2.0 * fastPrev - slowPrev + bend
    ensures var action := Cross(Ratio(fast, FAST_MA as real), Ratio(slow, SLOW_MA as real),
                                Ratio(fastPrev, FAST_MA as real), Ratio(slowPrev, SLOW_MA as real));
      (action == Buy ==> bend > 0.0) && (action == Sell ==> bend < 0.0)
  {
  }

  lemma {:induction false} SumConcat(xs: seq<real>, ys: seq<real>)
    ensures Sum(xs + ys) == Sum(xs) + Sum(ys)
  {
    if ys == [] {
      assert xs + ys == xs;
    } else {
      SumConcat(xs, ys[..|ys| - 1]);
      assert (xs + ys)[..|xs + ys| - 1] == xs + ys[..|ys| - 1];
    }
  }

  /** The fast line is above the slow one exactly when the newer half of the slow window sums
      to more than the older half. */
  lemma LinesAreHalves(xs: seq<real>, newer: real, older: real)
    requires |xs| >= 20 && newer == Sum(xs[|xs| - 10..]) && older == Sum(xs[|xs| - 20..|xs| - 10])
    ensures Mean(LastOf(xs, FAST_MA)) > Mean(LastOf(xs, SLOW_MA)) <==> newer > older
    ensures Mean(LastOf(xs, FAST_MA)) < Mean(LastOf(xs, SLOW_MA)) <==> newer < older
  {
    SumConcat(xs[|xs| - 20..|xs| - 10], xs[|xs| - 10..]);
    assert LastOf(xs, SLOW_MA) == xs[|xs| - 20..|xs| - 10] + xs[|xs| - 10..];
    assert Mean(LastOf(xs, FAST_MA)) == Ratio(newer, 10.0) && Mean(LastOf(xs, SLOW_MA)) == Ratio(newer + older, 20.0);
  }

  /** The double-average strategy on plain sums, for all prices. */
  lemma DoubleAverageIs(close: seq<real>)
    ensures var n := |close|;
      if n == 0 then DoubleAverage(close) == Signal(Hold, None)
      else if n < 21 then DoubleAverage(close) == Signal(Hold, Some(close[n - 1]))
      else
        var newer, older := Sum(close[n - 10..]), Sum(close[n - 20..n - 10]);
        var newerBefore, olderBefore := Sum(close[n - 11..n - 1]), Sum(close[n - 21..n - 11]);
        && DoubleAverage(close) == Signal(DoubleAverage(close).action, Some(close[n - 1]))
        && (DoubleAverage(close).action == Buy <==> newer > older && newerBefore <= olderBefore)
        && (DoubleAverage(close).action == Sell <==> newer < older && newerBefore >= olderBefore)
  {
    var n := |close|;
    if n >= 21 {
      var before := close[..n - 1];
      assert before[n - 11..] == close[n - 11..n - 1] && before[n - 21..n - 11] == close[n - 21..n - 11];
      LinesAreHalves(close, Sum(close[n - 10..]), Sum(close[n - 20..n - 10]));
      LinesAreHalves(before, Sum(close[n - 11..n - 1]), Sum(close[n - 21..n - 11]));
    }
  }

  // ---------------------------------------------------------------- relative strength

  const RSI_PERIOD := 14
  const OVERSOLD := 30.0
  const OVERBOUGHT := 70.0

  function Differences(xs: seq<real>): seq<real> {
    if xs == [] then [] else seq(|xs| - 1, i requires 0 <= i < |xs| - 1 => xs[i + 1] - xs[i])
  }

  function Gains(deltas: seq<real>): (g: seq<real>)
    ensures |g| == |deltas|
  {
    seq(|deltas|, i requires 0 <= i < |deltas| => if deltas[i] > 0.0 then deltas[i] else 0.0)
  }

  function Losses(deltas: seq<real>): (l: seq<real>)
    ensures |l| == |deltas|
  {
    seq(|deltas|, i requires 0 <= i < |deltas| => if deltas[i] < 0.0 then -deltas[i] else 0.0)
  }

  lemma {:induction false} SumNonNegative(xs: seq<real>)
    requires forall i :: 0 <= i < |xs| ==> xs[i] >= 0.0
    ensures Sum(xs) >= 0.0
    ensures Sum(xs) == 0.0 <==> forall i :: 0 <= i < |xs| ==> xs[i] == 0.0
  {
    if xs != [] {
      SumNonNegative(xs[..|xs| - 1]);
    }
  }

  lemma MeanNonNegative(xs: seq<real>)
    requires xs != [] && forall i :: 0 <= i < |xs| ==> xs[i] >= 0.0
    ensures Mean(xs) >= 0.0
    ensures Mean(xs) == 0.0 <==> forall i :: 0 <= i < |xs| ==> xs[i] == 0.0
  {
    SumNonNegative(xs);
    assert Mean(xs) * |xs| as real == Sum(xs);
  }

  lemma QuotientNonNegative(x: real, d: real)
    requires x >= 0.0 && d > 0.0
    ensures x / d >= 0.0
  {
  }

  function Strength(avgGain: real, avgLoss: real): real
    requires avgGain >= 0.0 && avgLoss >= 0.0
  {
    if avgLoss == 0.0 then 100.0
    else
      QuotientNonNegative(avgGain, avgLoss);
      100.0 - 100.0 / (1.0 + avgGain / avgLoss)
  }

  function AverageGain(prices: seq<real>, period: nat): (r: real)
    requires period >= 1 && |prices| >= 2
    ensures r >= 0.0
  {
    MeanNonNegative(LastOf(Gains(Differences(prices)), period));
    Mean(LastOf(Gains(Differences(prices)), period))
  }

  function AverageLoss(prices: seq<real>, period: nat): (r: real)
    requires period >= 1 && |prices| >= 2
    ensures r >= 0.0
  {
    MeanNonNegative(LastOf(Losses(Differences(prices)), period));
    Mean(LastOf(Losses(Differences(prices)), period))
  }

  function Rsi(prices: seq<real>, period: nat): real
    requires period >= 1 && |prices| >= 2
  {
    Strength(AverageGain(prices, period), AverageLoss(prices, period))
  }

  function RsiAction(rsi: real): Action {
    if rsi < OVERSOLD then Buy else if rsi > OVERBOUGHT then Sell else Hold
  }

  function RelativeStrength(close: seq<real>): Report {
    var action := if |close| < RSI_PERIOD + 1 then Hold else RsiAction(Rsi(close, RSI_PERIOD));
    if close == [] then IndexError else Signal(action, LastPrice(close))
  }

  /** No price change in the window. */
  predicate Flat(close: seq<real>) {
    forall i :: 0 <= i < |LastOf(Differences(close), RSI_PERIOD)| ==> LastOf(Differences(close), RSI_PERIOD)[i] == 0.0
  }

  /** The index is the share of gains in all movement, in percent. */
  lemma StrengthIs(g: real, l: real)
    requires g >= 0.0 && l >= 0.0 && g + l > 0.0
    ensures Strength(g, l) == 100.0 * (g / (g + l))
  {
  }

  function Scaled(c: real, x: real): real {
    c * x
  }

  /** Swapping gains and losses reflects the index about 50; scaling both leaves it alone. */
  lemma StrengthReflects(g: real, l: real, c: real)
    requires g >= 0.0 && l >= 0.0 && g + l > 0.0 && c > 0.0
    ensures Scaled(c, g) >= 0.0 && Scaled(c, l) >= 0.0
    ensures Strength(Scaled(c, l), Scaled(c, g)) == 100.0 - Strength(g, l)
    ensures Strength(Scaled(c, g), Scaled(c, l)) == Strength(g, l)
  {
    Products(c, g, l);
    StrengthIs(g, l);
    StrengthIs(c * g, c * l);
    StrengthIs(c * l, c * g);
    ShareScales(g, l, c);
    ShareScales(l, g, c);
    SharesAddUp(g, l);
  }

  lemma Products(c: real, g: real, l: real)
    requires c > 0.0 && g >= 0.0 && l >= 0.0 && g + l > 0.0
    ensures c * g >= 0.0 && c * l >= 0.0 && c * g + c * l > 0.0
  {
    assert c * g + c * l == c * (g + l);
  }

  lemma ShareScales(x: real, y: real, c: real)
    requires c > 0.0 && x + y > 0.0 && c * x + c * y > 0.0
    ensures (c * x) / (c * x + c * y) == x / (x + y)
  {
  }

  lemma SharesAddUp(g: real, l: real)
    requires g + l > 0.0
    ensures l / (l + g) == 1.0 - g / (g + l)
  {
    var p := g / (g + l);
    assert p * (g + l) == g;
    assert (1.0 - p) * (l + g) == (l + g) - p * (l + g);
    QuotientIs(l, l + g, 1.0 - p);
  }

  // ---------------------------------------------------------------- the index under a change of prices

  function ScaleAll(c: real, xs: seq<real>): (r: seq<real>)
    ensures |r| == |xs|
  {
    Affine(xs, c, 0.0)
  }

  lemma DifferencesTurn(xs: seq<real>, a: real, b: real)
    ensures Differences(Affine(xs, a, b)) == ScaleAll(a, Differences(xs))
  {
    var ys := Affine(xs, a, b);
    forall i | 0 <= i < |xs| - 1
      ensures Differences(ys)[i] == ScaleAll(a, Differences(xs))[i]
    {
      ShiftCancels(xs[i], xs[i + 1], a, b);
    }
  }

  lemma ShiftCancels(x: real, y: real, a: real, b: real)
    ensures Moved(y, a, b) - Moved(x, a, b) == Moved(y - x, a, 0.0)
  {
    assert a * (y - x) == a * y - a * x;
  }

  lemma Signs(a: real, x: real)
    ensures a > 0.0 ==> (a * x > 0.0 <==> x > 0.0) && (a * x < 0.0 <==> x < 0.0)
    ensures a < 0.0 ==> (a * x > 0.0 <==> x < 0.0) && (a * x < 0.0 <==> x > 0.0)
  {
  }

  /** A positive factor scales gains and losses; a negative one also exchanges them. */
  lemma GainsTurn(deltas: seq<real>, a: real)
    requires a != 0.0
    ensures a > 0.0 ==>
      && Gains(ScaleAll(a, deltas)) == ScaleAll(a, Gains(deltas))
      && Losses(ScaleAll(a, deltas)) == ScaleAll(a, Losses(deltas))
    ensures a < 0.0 ==>
      && Gains(ScaleAll(a, deltas)) == ScaleAll(-a, Losses(deltas))
      && Losses(ScaleAll(a, deltas)) == ScaleAll(-a, Gains(deltas))
  {
    forall i | 0 <= i < |deltas|
      ensures a > 0.0 ==> Gains(ScaleAll(a, deltas))[i] == ScaleAll(a, Gains(deltas))[i]
      ensures a > 0.0 ==> Losses(ScaleAll(a, deltas))[i] == ScaleAll(a, Losses(deltas))[i]
      ensures a < 0.0 ==> Gains(ScaleAll(a, deltas))[i] == ScaleAll(-a, Losses(deltas))[i]
      ensures a < 0.0 ==> Losses(ScaleAll(a, deltas))[i] == ScaleAll(-a, Gains(deltas))[i]
    {
      Signs(a, deltas[i]);
    }
  }

  lemma MeanScaled(xs: seq<real>, period: nat, c: real)
    requires xs != [] && period >= 1
    ensures Mean(LastOf(ScaleAll(c, xs), period)) == Scaled(c, Mean(LastOf(xs, period)))
  {
    LastOfAffine(xs, period, c, 0.0);
    MeanAffine(LastOf(xs, period), c, 0.0);
  }

  lemma AveragesScale(xs: seq<real>, period: nat, a: real, b: real)
    requires a > 0.0 && period >= 1 && |xs| >= 2
    ensures AverageGain(Affine(xs, a, b), period) == Scaled(a, AverageGain(xs, period))
    ensures AverageLoss(Affine(xs, a, b), period) == Scaled(a, AverageLoss(xs, period))
  {
    var deltas := Differences(xs);
    DifferencesTurn(xs, a, b);
    GainsTurn(deltas, a);
    MeanScaled(Gains(deltas), period, a);
    MeanScaled(Losses(deltas), period, a);
  }

  lemma AveragesExchange(xs: seq<real>, period: nat, a: real, b: real)
    requires a < 0.0 && period >= 1 && |xs| >= 2
    ensures AverageGain(Affine(xs, a, b), period) == Scaled(-a, AverageLoss(xs, period))
    ensures AverageLoss(Affine(xs, a, b), period) == Scaled(-a, AverageGain(xs, period))
  {
    var deltas := Differences(xs);
    DifferencesTurn(xs, a, b);
    GainsTurn(deltas, a);
    MeanScaled(Gains(deltas), period, -a);
    MeanScaled(Losses(deltas), period, -a);
  }

  lemma FlatIffNoAverages(close: seq<real>)
    requires |close| >= RSI_PERIOD + 1
    ensures Flat(close) <==> AverageGain(close, RSI_PERIOD) == 0.0 && AverageLoss(close, RSI_PERIOD) == 0.0
  {
    var deltas := Differences(close);
    var gains, losses := LastOf(Gains(deltas), RSI_PERIOD), LastOf(Losses(deltas), RSI_PERIOD);
    MeanNonNegative(gains);
    MeanNonNegative(losses);
    var window := LastOf(deltas, RSI_PERIOD);
    forall i | 0 <= i < |window|
      ensures window[i] == 0.0 <==> gains[i] == 0.0 && losses[i] == 0.0
    {
    }
  }

  /** The index is kept by a positive scaling and reflected about 50 by a negative one. */
  lemma RsiTurns(close: seq<real>, a: real, b: real)
    requires a != 0.0 && |close| >= RSI_PERIOD + 1 && !Flat(close)
    ensures Rsi(Affine(close, a, b), RSI_PERIOD) ==
            if a > 0.0 then Rsi(close, RSI_PERIOD) else 100.0 - Rsi(close, RSI_PERIOD)
  {
    FlatIffNoAverages(close);
    if a > 0.0 {
      AveragesScale(close, RSI_PERIOD, a, b);
    } else {
      AveragesExchange(close, RSI_PERIOD, a, b);
    }
    StrengthTurns(AverageGain(close, RSI_PERIOD), AverageLoss(close, RSI_PERIOD),
                  AverageGain(Affine(close, a, b), RSI_PERIOD), AverageLoss(Affine(close, a, b), RSI_PERIOD), a);
  }

  lemma StrengthTurns(g: real, l: real, g': real, l': real, a: real)
    requires g >= 0.0 && l >= 0.0 && g' >= 0.0 && l' >= 0.0 && !(g == 0.0 && l == 0.0) && a != 0.0
    requires if a > 0.0 then g' == Scaled(a, g) && l' == Scaled(a, l) else g' == Scaled(-a, l) && l' == Scaled(-a, g)
    ensures Strength(g', l') == if a > 0.0 then Strength(g, l) else 100.0 - Strength(g, l)
  {
    StrengthReflects(g, l, if a > 0.0 then a else -a);
  }

  /** A market that has not moved reads as overbought. */
  lemma FlatMarketSells(close: seq<real>)
    requires |close| >= RSI_PERIOD + 1 && Flat(close)
    ensures Rsi(close, RSI_PERIOD) == 100.0 && RelativeStrength(close) == Signal(Sell, LastPrice(close))
  {
    FlatIffNoAverages(close);
  }

  lemma FlatTurns(close: seq<real>, a: real, b: real)
    requires |close| >= RSI_PERIOD + 1 && Flat(close)
    ensures Flat(Affine(close, a, b))
  {
    DifferencesTurn(close, a, b);
    LastOfAffine(Differences(close), RSI_PERIOD, a, 0.0);
    var window := LastOf(Differences(close), RSI_PERIOD);
    forall i | 0 <= i < |window|
      ensures Moved(window[i], a, 0.0) == 0.0
    {
      assert window[i] == 0.0;
    }
  }

  lemma LastPriceTurns(close: seq<real>, a: real, b: real)
    requires close != []
    ensures LastPrice(Affine(close, a, b)) == Some(Moved(close[|close| - 1], a, b))
  {
  }

  lemma RsiActionReflects(rsi: real)
    ensures RsiAction(100.0 - rsi) == Swap(RsiAction(rsi))
  {
  }

  /** The signal follows a change of prices exactly when the change keeps the direction, the
      data are too short, or the window is not flat. */
  lemma RelativeStrengthTurns(close: seq<real>, a: real, b: real)
    requires a != 0.0
    ensures RelativeStrength(Affine(close, a, b)) == TurnedReport(RelativeStrength(close), a, b) <==>
            a > 0.0 || |close| < RSI_PERIOD + 1 || !Flat(close)
  {
    if close != [] {
      LastPriceTurns(close, a, b);
    }
    if |close| >= RSI_PERIOD + 1 {
      if Flat(close) {
        FlatTurns(close, a, b);
        FlatMarketSells(close);
        FlatMarketSells(Affine(close, a, b));
      } else {
        RsiTurns(close, a, b);
        RsiActionReflects(Rsi(close, RSI_PERIOD));
      }
    }
  }

  // ---------------------------------------------------------------- what the index measures

  lemma {:induction false} Telescope(xs: seq<real>)
    requires xs != []
    ensures Sum(Differences(xs)) == xs[|xs| - 1] - xs[0]
  {
    if |xs| > 1 {
      Telescope(xs[..|xs| - 1]);
      assert Differences(xs)[..|xs| - 2] == Differences(xs[..|xs| - 1]);
    }
  }

  lemma {:induction false} NetOfGainsAndLosses(deltas: seq<real>)
    ensures Sum(Gains(deltas)) - Sum(Losses(deltas)) == Sum(deltas)
  {
    if deltas != [] {
      var front := deltas[..|deltas| - 1];
      NetOfGainsAndLosses(front);
      assert Gains(deltas)[..|front|] == Gains(front) && Losses(deltas)[..|front|] == Losses(front);
    }
  }

  /** Average gain minus average loss is the net change of price per period of the window. */
  lemma NetChange(close: seq<real>)
    requires |close| >= RSI_PERIOD + 1
    ensures (AverageGain(close, RSI_PERIOD) - AverageLoss(close, RSI_PERIOD)) * RSI_PERIOD as real ==
            close[|close| - 1] - close[|close| - 1 - RSI_PERIOD]
  {
    var deltas, window := Differences(close), LastOf(Differences(close), RSI_PERIOD);
    var prices := LastOf(close, RSI_PERIOD + 1);
    assert window == Differences(prices);
    Telescope(prices);
    assert LastOf(Gains(deltas), RSI_PERIOD) == Gains(window);
    assert LastOf(Losses(deltas), RSI_PERIOD) == Losses(window);
    NetOfGainsAndLosses(window);
  }

  /** Outside a flat window, a buy is losses beyond 7/3 of gains and a sell the reverse. */
  lemma RelativeStrengthSense(close: seq<real>)
    requires |close| >= RSI_PERIOD + 1 && !Flat(close)
    ensures var g, l := AverageGain(close, RSI_PERIOD), AverageLoss(close, RSI_PERIOD);
      && (RelativeStrength(close).action == Buy <==> 7.0 * g < 3.0 * l)
      && (RelativeStrength(close).action == Sell <==> 7.0 * l < 3.0 * g)
  {
    FlatIffNoAverages(close);
    ThresholdsOf(AverageGain(close, RSI_PERIOD), AverageLoss(close, RSI_PERIOD));
  }

  lemma ThresholdsOf(g: real, l: real)
    requires g >= 0.0 && l >= 0.0 && g + l > 0.0
    ensures Strength(g, l) < OVERSOLD <==> 7.0 * g < 3.0 * l
    ensures Strength(g, l) > OVERBOUGHT <==> 7.0 * l < 3.0 * g
  {
    StrengthIs(g, l);
    ShareAgainst(g, g + l, 0.3);
    ShareAgainst(g, g + l, 0.7);
  }

  lemma ShareAgainst(x: real, total: real, bound: real)
    requires total > 0.0
    ensures x / total < bound <==> x < bound * total
    ensures x / total > bound <==> x > bound * total
  {
  }

  /** How far prices rise in all, leaving out every fall. */
  function Rises(prices: seq<real>): real {
    var n := |prices|;
    if n < 2 then 0.0
    else Rises(prices[..n - 1]) + if prices[n - 1] > prices[n - 2] then prices[n - 1] - prices[n - 2] else 0.0
  }

  function Falls(prices: seq<real>): real {
    var n := |prices|;
    if n < 2 then 0.0
    else Falls(prices[..n - 1]) + if prices[n - 1] < prices[n - 2] then prices[n - 2] - prices[n - 1] else 0.0
  }

  lemma {:induction false} RisesAreGains(prices: seq<real>)
    ensures Sum(Gains(Differences(prices))) == Rises(prices)
    ensures Sum(Losses(Differences(prices))) == Falls(prices)
  {
    if |prices| >= 2 {
      var n, front := |prices|, prices[..|prices| - 1];
      RisesAreGains(front);
      assert Differences(prices)[..n - 2] == Differences(front);
      assert Gains(Differences(prices))[..n - 2] == Gains(Differences(front));
      assert Losses(Differences(prices))[..n - 2] == Losses(Differences(front));
    }
  }

  /** The averages are the rises and falls over the last 15 prices, per period. */
  lemma AveragesAre(close: seq<real>)
    requires |close| >= 15
    ensures AverageGain(close, RSI_PERIOD) * 14.0 == Rises(close[|close| - 15..])
    ensures AverageLoss(close, RSI_PERIOD) * 14.0 == Falls(close[|close| - 15..])
  {
    var prices := close[|close| - 15..];
    RisesAreGains(prices);
    assert LastOf(Gains(Differences(close)), RSI_PERIOD) == Gains(Differences(prices));
    assert LastOf(Losses(Differences(close)), RSI_PERIOD) == Losses(Differences(prices));
  }

  /** The RSI strategy on plain rises and falls, for all prices. */
  lemma RelativeStrengthIs(close: seq<real>)
    ensures var n := |close|;
      if n == 0 then RelativeStrength(close) == IndexError
      else if n < 15 then RelativeStrength(close) == Signal(Hold, Some(close[n - 1]))
      else
        var rises, falls := Rises(close[n - 15..]), Falls(close[n - 15..]);
        && RelativeStrength(close) == Signal(RelativeStrength(close).action, Some(close[n - 1]))
        && (RelativeStrength(close).action == Buy <==> 7.0 * rises < 3.0 * falls)
        && (RelativeStrength(close).action == Sell <==> 7.0 * falls < 3.0 * rises || (rises == 0.0 && falls == 0.0))
  {
    if |close| >= 15 {
      AveragesAre(close);
      FlatIffNoAverages(close);
      if Flat(close) {
        FlatMarketSells(close);
      } else {
        RelativeStrengthSense(close);
      }
    }
  }
}
