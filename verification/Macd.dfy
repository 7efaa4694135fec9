/** Exponential averages and the MACD strategy: loops over price prefixes, in exact reals. */
module Macd {
  import opened Options
  import opened Indicators

  const FAST_EMA := 12
  const SLOW_EMA := 26
  const SIGNAL_EMA := 9

  function Multiplier(period: int): real
    requires period != -1
  {
    2.0 / (period + 1) as real
  }

  function Blend(average: real, price: real, multiplier: real): real {
    (price - average) * multiplier + average
  }

  /** The average after all prices. */
  function EmaOf(prices: seq<real>, period: int): real
    requires prices != [] && period != -1
  {
    if |prices| == 1 then prices[0]
    else Blend(EmaOf(prices[..|prices| - 1], period), prices[|prices| - 1], Multiplier(period))
  }

  method Ema(prices: seq<real>, period: int) returns (average: real)
    requires prices != [] && period != -1
    ensures average == EmaOf(prices, period)
  {
    var multiplier := Multiplier(period);
    average := prices[0];
    for i := 1 to |prices|
      invariant average == EmaOf(prices[..i], period)
    {
      average := Blend(average, prices[i], multiplier);
      assert prices[..i + 1][..i] == prices[..i];
    }
    assert prices[..|prices|] == prices;
  }

  // ---------------------------------------------------------------- laws of the average

  /** One more price weighs 2 against the average's period - 1. */
  lemma EmaRecurrence(front: seq<real>, price: real, period: int)
    requires front != [] && period != -1
    ensures EmaOf([price], period) == price
    ensures EmaOf(front + [price], period) * (period + 1) as real ==
            EmaOf(front, period) * (period - 1) as real + 2.0 * price
  {
    assert (front + [price])[..|front|] == front;
    BlendIs(EmaOf(front, period), price, period);
  }

  lemma BlendIs(average: real, price: real, period: int)
    requires period != -1
    ensures Blend(average, price, Multiplier(period)) * (period + 1) as real ==
            average * (period - 1) as real + 2.0 * price
  {
    var m, d := Multiplier(period), (period + 1) as real;
    assert m * d == 2.0;
    assert (price - average) * m * d == (price - average) * (m * d);
  }

  predicate Within(prices: seq<real>, lo: real, hi: real) {
    forall i :: 0 <= i < |prices| ==> lo <= prices[i] <= hi
  }

  lemma BlendBetween(average: real, price: real, m: real, lo: real, hi: real)
    requires lo <= average <= hi && lo <= price <= hi && 0.0 <= m <= 1.0
    ensures lo <= Blend(average, price, m) <= hi
  {
    NonNegative(price - lo, m);
    NonNegative(average - lo, 1.0 - m);
    NonNegative(hi - price, m);
    NonNegative(hi - average, 1.0 - m);
    assert Blend(average, price, m) - lo == (price - lo) * m + (average - lo) * (1.0 - m);
    assert hi - Blend(average, price, m) == (hi - price) * m + (hi - average) * (1.0 - m);
  }

  lemma NonNegative(x: real, y: real)
    requires x >= 0.0 && y >= 0.0
    ensures x * y >= 0.0
  {
  }

  lemma {:induction false} EmaBetween(prices: seq<real>, period: int, lo: real, hi: real)
    requires prices != [] && period >= 1 && Within(prices, lo, hi)
    ensures lo <= EmaOf(prices, period) <= hi
  {
    if |prices| > 1 {
      EmaBetween(prices[..|prices| - 1], period, lo, hi);
      BlendBetween(EmaOf(prices[..|prices| - 1], period), prices[|prices| - 1], Multiplier(period), lo, hi);
    }
  }

  /** The average stays between the least and the greatest price exactly for periods from 1. */
  lemma EmaBoundsExact(period: int)
    requires period != -1
    ensures period >= 1 <==>
      forall prices, lo, hi :: prices != [] && Within(prices, lo, hi) ==> lo <= EmaOf(prices, period) <= hi
  {
    if period >= 1 {
      forall prices, lo, hi | prices != [] && Within(prices, lo, hi)
        ensures lo <= EmaOf(prices, period) <= hi
      {
        EmaBetween(prices, period, lo, hi);
      }
    } else {
      var prices := [0.0, 1.0];
      assert prices[..1] == [0.0];
      assert Within(prices, 0.0, 1.0);
      assert EmaOf(prices, period) == Multiplier(period);
    }
  }

  lemma BlendAffine(average: real, price: real, m: real, a: real, b: real)
    ensures Blend(Moved(average, a, b), Moved(price, a, b), m) == Moved(Blend(average, price, m), a, b)
  {
    var d := price - average;
    assert a * price + b - (a * average + b) == a * d;
    assert (a * d) * m == a * (d * m);
    assert a * (d * m + average) == a * (d * m) + a * average;
  }

  lemma {:induction false} EmaAffine(prices: seq<real>, period: int, a: real, b: real)
    requires prices != [] && period != -1
    ensures EmaOf(Affine(prices, a, b), period) == Moved(EmaOf(prices, period), a, b)
  {
    if |prices| > 1 {
      var front := prices[..|prices| - 1];
      EmaAffine(front, period, a, b);
      assert Affine(prices, a, b)[..|prices| - 1] == Affine(front, a, b);
      BlendAffine(EmaOf(front, period), prices[|prices| - 1], Multiplier(period), a, b);
    }
  }

  predicate Rising(prices: seq<real>) {
    forall i, j :: 0 <= i <= j < |prices| ==> prices[i] <= prices[j]
  }

  lemma BlendOrder(low: real, high: real, price: real, m: real, m': real)
    requires low <= high <= price && 0.0 <= m <= m' <= 1.0
    ensures Blend(low, price, m) <= Blend(high, price, m') <= price
  {
    NonNegative(price - high, m' - m);
    NonNegative(high - low, 1.0 - m);
    NonNegative(price - high, 1.0 - m');
    assert Blend(high, price, m') - Blend(low, price, m) == (price - high) * (m' - m) + (high - low) * (1.0 - m);
    assert price - Blend(high, price, m') == (price - high) * (1.0 - m');
  }

  lemma MultiplierOrder(fast: int, slow: int)
    requires 1 <= fast <= slow
    ensures 0.0 <= Multiplier(slow) <= Multiplier(fast) <= 1.0
  {
    var f, s := (fast + 1) as real, (slow + 1) as real;
    assert 2.0 / s <= 2.0 / f;
  }

  /** When prices never fall, a shorter period follows them more closely from below. */
  lemma {:induction false} FasterIsCloser(prices: seq<real>, fast: int, slow: int)
    requires prices != [] && Rising(prices) && 1 <= fast <= slow
    ensures EmaOf(prices, slow) <= EmaOf(prices, fast) <= prices[|prices| - 1]
  {
    if |prices| > 1 {
      var front := prices[..|prices| - 1];
      FasterIsCloser(front, fast, slow);
      MultiplierOrder(fast, slow);
      BlendOrder(EmaOf(front, slow), EmaOf(front, fast), prices[|prices| - 1], Multiplier(slow), Multiplier(fast));
    }
  }

  // ---------------------------------------------------------------- the strategy

  function Line(close: seq<real>): real
    requires close != []
  {
    EmaOf(close, FAST_EMA) - EmaOf(close, SLOW_EMA)
  }

  function History(close: seq<real>): (h: seq<real>)
    requires |close| >= SLOW_EMA
    ensures |h| == |close| - SLOW_EMA
  {
    seq(|close| - SLOW_EMA, k requires 0 <= k < |close| - SLOW_EMA => Line(close[..SLOW_EMA + k + 1]))
  }

  predicate Enough(close: seq<real>) {
    |close| >= SLOW_EMA + SIGNAL_EMA + 2
  }

  function SignalLine(close: seq<real>): real
    requires Enough(close)
  {
    EmaOf(LastOf(History(close), SIGNAL_EMA * 2), SIGNAL_EMA)
  }

  function PreviousLine(close: seq<real>): real
    requires Enough(close)
  {
    History(close)[|close| - SLOW_EMA - 2]
  }

  function MacdReport(close: seq<real>): Report {
    if !Enough(close) then Signal(Hold, LastPrice(close))
    else Signal(Cross(Line(close), SignalLine(close), PreviousLine(close), SignalLine(close)), LastPrice(close))
  }

  method RunMacd(close: seq<real>) returns (report: Report)
    ensures report == MacdReport(close)
  {
    if |close| < SLOW_EMA + SIGNAL_EMA + 2 {
      return Signal(Hold, LastPrice(close));
    }
    var emaFast := Ema(close, FAST_EMA);
    var emaSlow := Ema(close, SLOW_EMA);
    var macdLine := emaFast - emaSlow;
    var history: seq<real> := [];
    for i := SLOW_EMA to |close|
      invariant |history| == i - SLOW_EMA
      invariant forall k :: 0 <= k < |history| ==> history[k] == Line(close[..SLOW_EMA + k + 1])
    {
      var ef := Ema(close[..i + 1], FAST_EMA);
      var es := Ema(close[..i + 1], SLOW_EMA);
      history := history + [ef - es];
    }
    assert history == History(close);
    var signalLine := Ema(LastOf(history, SIGNAL_EMA * 2), SIGNAL_EMA);
    var macdPrev := history[|history| - 2];
    var action := Hold;
    if macdLine > signalLine && macdPrev <= signalLine {
      action := Buy;
    } else if macdLine < signalLine && macdPrev >= signalLine {
      action := Sell;
    }
    return Signal(action, Some(close[|close| - 1]));
  }

  /** The MACD strategy in plain averages, for all prices; h holds the lines from the 27th price on. */
  lemma MacdIs(close: seq<real>, h: seq<real>)
    requires |close| >= 37 ==> |h| == |close| - 26
    requires |close| >= 37 ==>
      forall k :: 0 <= k < |h| ==> h[k] == EmaOf(close[..27 + k], 12) - EmaOf(close[..27 + k], 26)
    ensures var n, m := |close|, |h|;
      if n == 0 then MacdReport(close) == Signal(Hold, None)
      else if n < 37 then MacdReport(close) == Signal(Hold, Some(close[n - 1]))
      else
        var signal := EmaOf(if m <= 18 then h else h[m - 18..], 9);
        && MacdReport(close) == Signal(MacdReport(close).action, Some(close[n - 1]))
        && (MacdReport(close).action == Buy <==> h[m - 1] > signal && h[m - 2] <= signal)
        && (MacdReport(close).action == Sell <==> h[m - 1] < signal && h[m - 2] >= signal)
  {
    if |close| >= 37 {
      forall k | 0 <= k < |h|
        ensures h[k] == History(close)[k]
      {
        var prefix := close[..SLOW_EMA + k + 1];
        assert prefix == close[..27 + k];
        assert History(close)[k] == Line(prefix) == EmaOf(prefix, 12) - EmaOf(prefix, 26);
      }
      assert h == History(close);
      HistoryEndsInLine(close);
    }
  }

  /** The last entry of the history is the current line. */
  lemma HistoryEndsInLine(close: seq<real>)
    requires Enough(close)
    ensures History(close)[|History(close)| - 1] == Line(close)
  {
    assert close[..|close|] == close;
  }

  lemma LineAffine(close: seq<real>, a: real, b: real)
    requires close != []
    ensures Line(Affine(close, a, b)) == Moved(Line(close), a, 0.0)
  {
    EmaAffine(close, FAST_EMA, a, b);
    EmaAffine(close, SLOW_EMA, a, b);
    var f, s := EmaOf(close, FAST_EMA), EmaOf(close, SLOW_EMA);
    assert a * (f - s) == a * f - a * s;
  }

  lemma HistoryAffine(close: seq<real>, a: real, b: real)
    requires |close| >= SLOW_EMA
    ensures History(Affine(close, a, b)) == Affine(History(close), a, 0.0)
  {
    forall k | 0 <= k < |close| - SLOW_EMA
      ensures History(Affine(close, a, b))[k] == Affine(History(close), a, 0.0)[k]
    {
      var prefix := close[..SLOW_EMA + k + 1];
      assert Affine(close, a, b)[..SLOW_EMA + k + 1] == Affine(prefix, a, b);
      LineAffine(prefix, a, b);
    }
  }

  /** Shifting prices and scaling them up or down leaves the MACD signal alone; turning them
      upside down, in particular C - p, swaps buy and sell. */
  lemma MacdTurns(close: seq<real>, a: real, b: real)
    requires a != 0.0
    ensures MacdReport(Affine(close, a, b)) == TurnedReport(MacdReport(close), a, b)
  {
    if close != [] {
      LastPriceTurns(close, a, b);
    }
    if Enough(close) {
      var h := History(close);
      HistoryAffine(close, a, b);
      LineAffine(close, a, b);
      LastOfAffine(h, SIGNAL_EMA * 2, a, 0.0);
      EmaAffine(LastOf(h, SIGNAL_EMA * 2), SIGNAL_EMA, a, 0.0);
      CrossTurns(Line(close), SignalLine(close), PreviousLine(close), SignalLine(close), a, 0.0);
    }
  }
}
