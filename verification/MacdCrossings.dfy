/** When the MACD strategy acts, against the crossings of its two lines. */
module MacdCrossings {
  import opened Indicators
  import opened Macd

  // ---------------------------------------------------------------- within one window

  /** The signal line one entry earlier, over the window of the history that the current signal
      line uses. The strategy itself never computes it. */
  function SignalBefore(close: seq<real>): real
    requires Enough(close)
  {
    var window := LastOf(History(close), SIGNAL_EMA * 2);
    EmaOf(window[..|window| - 1], SIGNAL_EMA)
  }

  /** The signal line moves a fifth of the way to the current line. */
  lemma SignalFollowsLine(close: seq<real>)
    requires Enough(close)
    ensures SignalLine(close) == Blend(SignalBefore(close), Line(close), 0.2)
  {
    HistoryEndsInLine(close);
  }

  /** The line was not above the signal line of this window and now is. */
  predicate CrossesUpInWindow(close: seq<real>)
    requires Enough(close)
  {
    PreviousLine(close) <= SignalBefore(close) && Line(close) > SignalLine(close)
  }

  predicate CrossesDownInWindow(close: seq<real>)
    requires Enough(close)
  {
    PreviousLine(close) >= SignalBefore(close) && Line(close) < SignalLine(close)
  }

  /** The line is not negative while prices never fall. A buy comes at every upward crossing within
      the current window and, because the previous line is held against the current signal line,
      also when that line was already above the window's signal line but not above where it has
      moved; never otherwise. Sells mirror this. */
  lemma MacdSense(close: seq<real>)
    requires Enough(close)
    ensures Rising(close) ==> Line(close) >= 0.0
    ensures MacdReport(close).action == Buy <==>
            CrossesUpInWindow(close) || SignalBefore(close) < PreviousLine(close) <= SignalLine(close)
    ensures MacdReport(close).action == Sell <==>
            CrossesDownInWindow(close) || SignalBefore(close) > PreviousLine(close) >= SignalLine(close)
    ensures MacdReport(close).action == Buy ==> Line(close[..|close| - 1]) < Line(close)
    ensures MacdReport(close).action == Sell ==> Line(close[..|close| - 1]) > Line(close)
  {
    if Rising(close) {
      FasterIsCloser(close, FAST_EMA, SLOW_EMA);
    }
    SignalFollowsLine(close);
  }

  // ---------------------------------------------------------------- from one price to the next

  function Power(x: real, n: nat): real {
    if n == 0 then 1.0 else Scaled(x, Power(x, n - 1))
  }

  /** The share of the average that one more price leaves in it. */
  function Kept(period: int): real
    requires period != -1
  {
    1.0 - Multiplier(period)
  }

  /** Two averages that go on over the same prices approach each other by one factor a price. */
  lemma {:induction false} StartFades(p: seq<real>, q: seq<real>, rest: seq<real>, period: int, apart: real)
    requires p != [] && q != [] && period != -1 && apart == EmaOf(p, period) - EmaOf(q, period)
    ensures EmaOf(p + rest, period) - EmaOf(q + rest, period) == Scaled(Power(Kept(period), |rest|), apart)
  {
    if rest == [] {
      assert p + rest == p && q + rest == q;
    } else {
      var front, price, keep := rest[..|rest| - 1], rest[|rest| - 1], Kept(period);
      StartFades(p, q, front, period, apart);
      assert (p + rest)[..|p + rest| - 1] == p + front && (q + rest)[..|q + rest| - 1] == q + front;
      BlendContracts(EmaOf(p + front, period), EmaOf(q + front, period), price, Multiplier(period));
      ScaledTwice(keep, Power(keep, |front|), apart);
      assert Power(keep, |rest|) == Scaled(keep, Power(keep, |front|));
    }
  }

  lemma BlendContracts(x: real, y: real, price: real, m: real)
    ensures Blend(x, price, m) - Blend(y, price, m) == Scaled(1.0 - m, x - y)
  {
  }

  lemma ScaledTwice(x: real, y: real, z: real)
    ensures Scaled(x, Scaled(y, z)) == Scaled(Scaled(x, y), z)
  {
  }

  /** What is left after a full window of the entry that has just dropped out of it. */
  function DroppedOut(h: seq<real>): real
    requires |h| > SIGNAL_EMA * 2
  {
    Scaled(Power(Kept(SIGNAL_EMA), SIGNAL_EMA * 2 - 2), 0.8 * (h[|h| - 19] - h[|h| - 18]))
  }

  lemma StartOfTwo(x: real, y: real)
    ensures EmaOf([x, y], SIGNAL_EMA) - EmaOf([y], SIGNAL_EMA) == 0.8 * (x - y)
  {
    assert [x, y][..1] == [x];
  }

  lemma DroppedOutIs(h: seq<real>)
    requires |h| > SIGNAL_EMA * 2
    ensures EmaOf(h[|h| - 19..|h| - 1], SIGNAL_EMA) - EmaOf(h[|h| - 18..|h| - 1], SIGNAL_EMA) == DroppedOut(h)
  {
    var dropped, first, rest := h[|h| - 19], h[|h| - 18], h[|h| - 17..|h| - 1];
    assert h[|h| - 19..|h| - 1] == [dropped, first] + rest && h[|h| - 18..|h| - 1] == [first] + rest;
    StartOfTwo(dropped, first);
    StartFades([dropped, first], [first], rest, SIGNAL_EMA, 0.8 * (dropped - first));
  }

  /** Enough prices for a signal now and at the previous price. */
  predicate EnoughTwice(close: seq<real>) {
    |close| > SLOW_EMA + SIGNAL_EMA + 2
  }

  /** The signal line that the strategy computed at the previous price. */
  function PreviousSignal(close: seq<real>): real
    requires EnoughTwice(close)
  {
    SignalLine(close[..|close| - 1])
  }

  /** With at most one full window of history that earlier signal line is the one the strategy
      computed at the previous price; after that the two differ by what is left of the entry
      that has dropped out of the window. */
  lemma SignalBeforeIsPrevious(close: seq<real>)
    requires EnoughTwice(close)
    ensures var h := History(close);
      PreviousSignal(close) - SignalBefore(close) == if |h| <= SIGNAL_EMA * 2 then 0.0 else DroppedOut(h)
  {
    var h := History(close);
    HistoryOfFront(close);
    if |h| > SIGNAL_EMA * 2 {
      DroppedOutIs(h);
      assert LastOf(h[..|h| - 1], SIGNAL_EMA * 2) == h[|h| - 19..|h| - 1];
      assert LastOf(h, SIGNAL_EMA * 2)[..SIGNAL_EMA * 2 - 1] == h[|h| - 18..|h| - 1];
    }
  }

  lemma HistoryOfFront(close: seq<real>)
    requires |close| > SLOW_EMA
    ensures History(close[..|close| - 1]) == History(close)[..|History(close)| - 1]
  {
    var front := close[..|close| - 1];
    forall k | 0 <= k < |front| - SLOW_EMA
      ensures History(front)[k] == History(close)[k]
    {
      assert front[..SLOW_EMA + k + 1] == close[..SLOW_EMA + k + 1];
    }
  }

  // ---------------------------------------------------------------- every history occurs

  lemma LineOfLonger(front: seq<real>, p: real)
    requires front != []
    ensures Line(front + [p]) == Blend(EmaOf(front, FAST_EMA), p, Multiplier(FAST_EMA))
                               - Blend(EmaOf(front, SLOW_EMA), p, Multiplier(SLOW_EMA))
  {
    assert (front + [p])[..|front|] == front;
  }

  /** The next price that takes the line to a given value. */
  function NextPrice(front: seq<real>, line: real): (p: real)
    requires front != []
    ensures Line(front + [p]) == line
  {
    var f, s := EmaOf(front, FAST_EMA), EmaOf(front, SLOW_EMA);
    var p := (line - f * (11.0 / 13.0) + s * (25.0 / 27.0)) * (351.0 / 28.0);
    LineOfLonger(front, p);
    p
  }

  /** Prices with a given history. */
  function Realised(h: seq<real>): (close: seq<real>)
    ensures |close| == SLOW_EMA + |h|
  {
    if h == [] then seq(SLOW_EMA, _ => 0.0)
    else
      var front := Realised(h[..|h| - 1]);
      front + [NextPrice(front, h[|h| - 1])]
  }

  lemma {:induction false} RealisedHistory(h: seq<real>)
    ensures History(Realised(h)) == h
  {
    if h != [] {
      var close, front := Realised(h), Realised(h[..|h| - 1]);
      RealisedHistory(h[..|h| - 1]);
      assert close[..|close| - 1] == front;
      HistoryOfFront(close);
      assert close[..|close|] == close;
      assert History(close)[|h| - 1] == h[|h| - 1];
      assert History(close) == History(close)[..|h| - 1] + [h[|h| - 1]];
    }
  }

  // ---------------------------------------------------------------- crossings

  /** The line crosses the signal line upwards, each as computed at its own price: it was not
      above the signal line and now is. */
  predicate CrossesUp(close: seq<real>)
    requires EnoughTwice(close)
  {
    PreviousLine(close) <= PreviousSignal(close) && Line(close) > SignalLine(close)
  }

  predicate CrossesDown(close: seq<real>)
    requires EnoughTwice(close)
  {
    PreviousLine(close) >= PreviousSignal(close) && Line(close) < SignalLine(close)
  }

  function Zeros(n: nat): seq<real> {
    seq(n, _ => 0.0)
  }

  /** The signal line after zeros and two more entries. */
  lemma SignalAfterZeros(k: nat, x: real, y: real)
    requires k > 0
    ensures EmaOf(Zeros(k), SIGNAL_EMA) == 0.0
    ensures EmaOf(Zeros(k) + [x], SIGNAL_EMA) == 0.2 * x
    ensures EmaOf(Zeros(k) + [x, y], SIGNAL_EMA) == 0.2 * y + 0.16 * x
  {
    EmaBetween(Zeros(k), SIGNAL_EMA, 0.0, 0.0);
    assert (Zeros(k) + [x])[..k] == Zeros(k);
    assert (Zeros(k) + [x, y])[..k + 1] == Zeros(k) + [x];
  }

  lemma LinesAt(h: seq<real>)
    requires |h| >= SIGNAL_EMA + 3
    ensures EnoughTwice(Realised(h))
    ensures PreviousLine(Realised(h)) == h[|h| - 2] && Line(Realised(h)) == h[|h| - 1]
  {
    RealisedHistory(h);
    HistoryEndsInLine(Realised(h));
  }

  lemma SignalsAt(h: seq<real>, k: nat, x: real, y: real)
    requires |h| >= SIGNAL_EMA + 3 && k > 0 && LastOf(h, SIGNAL_EMA * 2) == Zeros(k) + [x, y]
    ensures SignalBefore(Realised(h)) == 0.2 * x && SignalLine(Realised(h)) == 0.2 * y + 0.16 * x
  {
    RealisedHistory(h);
    SignalAfterZeros(k, x, y);
    assert (Zeros(k) + [x, y])[..k + 1] == Zeros(k) + [x];
  }

  /** 16 entries leave more than a hundredth. */
  lemma PowerOfWindow()
    ensures Power(Kept(SIGNAL_EMA), SIGNAL_EMA * 2 - 2) >= 0.01
  {
    assert Kept(SIGNAL_EMA) == 0.8;
    assert Power(0.8, 2) >= 0.64;
    assert Power(0.8, 4) >= 0.4;
    assert Power(0.8, 6) >= 0.25;
    assert Power(0.8, 8) >= 0.16;
    assert Power(0.8, 10) >= 0.1;
    assert Power(0.8, 12) >= 0.06;
    assert Power(0.8, 14) >= 0.03;
  }

  /** Upright, or upside down. */
  function Facing(up: bool, x: real): real {
    if up then x else -x
  }

  /** A high entry, sixteen zeros and a rise: the high entry has just dropped out of the window
      and has taken the signal line below the previous line. */
  function MissedHistory(n: nat, up: bool): (h: seq<real>)
    requires n >= 45
    ensures |h| == n - SLOW_EMA
  {
    Zeros(n - 45) + [Facing(up, 1000.0)] + Zeros(16) + [Facing(up, 10.0), Facing(up, 11.0)]
  }

  lemma MissedDrop(n: nat, up: bool)
    requires n >= 45
    ensures var h := MissedHistory(n, up);
      if up then DroppedOut(h) >= 8.0 else DroppedOut(h) <= -8.0
  {
    var h := MissedHistory(n, up);
    assert h[|h| - 19] == Facing(up, 1000.0) && h[|h| - 18] == 0.0;
    PowerOfWindow();
  }

  /** There the lines cross but the strategy holds. */
  lemma CrossingIsMissed(n: nat, up: bool)
    requires n >= 45
    ensures var close := Realised(MissedHistory(n, up));
      && EnoughTwice(close) && MacdReport(close).action == Hold
      && if up then CrossesUp(close) else CrossesDown(close)
  {
    var h := MissedHistory(n, up);
    assert LastOf(h, SIGNAL_EMA * 2) == Zeros(16) + [Facing(up, 10.0), Facing(up, 11.0)];
    LinesAt(h);
    SignalsAt(h, 16, Facing(up, 10.0), Facing(up, 11.0));
    MissedDrop(n, up);
    RealisedHistory(h);
    SignalBeforeIsPrevious(Realised(h));
  }

  /** Zeros and a rise to 1 and on to 10: the line was already above the signal line. */
  function SpuriousHistory(n: nat, up: bool): (h: seq<real>)
    requires n >= 38
    ensures |h| == n - SLOW_EMA
  {
    Zeros(n - 28) + [Facing(up, 1.0), Facing(up, 10.0)]
  }

  lemma ActionIsSpurious(n: nat, up: bool)
    requires n >= 38
    ensures var close := Realised(SpuriousHistory(n, up));
      && EnoughTwice(close)
      && if up then MacdReport(close).action == Buy && !CrossesUp(close)
         else MacdReport(close).action == Sell && !CrossesDown(close)
  {
    var h := SpuriousHistory(n, up);
    var k := if |h| <= SIGNAL_EMA * 2 then n - 28 else 16;
    assert LastOf(h, SIGNAL_EMA * 2) == Zeros(k) + [Facing(up, 1.0), Facing(up, 10.0)];
    LinesAt(h);
    SignalsAt(h, k, Facing(up, 1.0), Facing(up, 10.0));
    if |h| > SIGNAL_EMA * 2 {
      SpuriousDrop(n, up);
    }
    RealisedHistory(h);
    SignalBeforeIsPrevious(Realised(h));
  }

  lemma SpuriousDrop(n: nat, up: bool)
    requires n > SLOW_EMA + SIGNAL_EMA * 2
    ensures DroppedOut(SpuriousHistory(n, up)) == 0.0
  {
    var h := SpuriousHistory(n, up);
    assert h[|h| - 19] == h[|h| - 18] == 0.0;
  }

  /** The strategy acts at every crossing of the two lines exactly up to 44 prices, while the
      window of the signal line has not dropped an entry. */
  lemma CrossingsAreCaught(n: nat)
    requires n >= 38
    ensures n <= 44 <==> forall close :: |close| == n && CrossesUp(close) ==> MacdReport(close).action == Buy
    ensures n <= 44 <==> forall close :: |close| == n && CrossesDown(close) ==> MacdReport(close).action == Sell
  {
    if n <= 44 {
      forall close: seq<real> | |close| == n
        ensures CrossesUp(close) ==> MacdReport(close).action == Buy
        ensures CrossesDown(close) ==> MacdReport(close).action == Sell
      {
        SignalBeforeIsPrevious(close);
        MacdSense(close);
      }
    } else {
      CrossingIsMissed(n, true);
      CrossingIsMissed(n, false);
    }
  }

  /** With any number of prices it can also act where the lines do not cross. */
  lemma ActsWithoutCrossing(n: nat)
    requires n >= 38
    ensures exists close :: |close| == n && MacdReport(close).action == Buy && !CrossesUp(close)
    ensures exists close :: |close| == n && MacdReport(close).action == Sell && !CrossesDown(close)
  {
    ActionIsSpurious(n, true);
    ActionIsSpurious(n, false);
  }
}
