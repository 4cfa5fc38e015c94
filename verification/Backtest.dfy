/** The backtest loop, in its Python form (engine/fast_backtester.py) and its Rust form
    (rust/py-bindings), and what both compute. */
module Backtest {
  import opened Prelude
  import opened RealProducts

  datatype Direction = Long | Short

  datatype Costs = Costs(commission: real, slippage: real)

  datatype Position = Position(direction: Direction, entryPrice: real, entryIndex: nat)

  datatype Trade = Trade(direction: Direction, entryPrice: real, exitPrice: real, entryIndex: nat, exitIndex: nat,
                         pnl: real, pnlPct: real)

  const SIZE_PCT: real := 0.02

  datatype Account =
    Account(equity: real, peak: real, maxDrawdown: real, position: Option<Position>, trades: seq<Trade>)

  function Fraction(a: real, b: real): real
    requires b != 0.0
  {
    a / b
  }

  function EntryPrice(direction: Direction, price: real, costs: Costs): real {
    Times(price, if direction.Long? then 1.0 + costs.slippage else 1.0 - costs.slippage)
  }

  function ExitPrice(direction: Direction, price: real, costs: Costs): real {
    Times(price, if direction.Long? then 1.0 - costs.slippage else 1.0 + costs.slippage)
  }

  function PnlPct(p: Position, exit: real, costs: Costs): real
    requires p.entryPrice != 0.0
  {
    Fraction(if p.direction.Long? then exit - p.entryPrice else p.entryPrice - exit, p.entryPrice)
    - 2.0 * costs.commission
  }

  predicate ShouldExit(p: Position, signal: real) {
    if p.direction.Long? then signal < 0.0 else signal > 0.0
  }

  /** Prices are positive and slippage is below one either way, so no entry price is zero; capital is positive. */
  predicate Sane(a: Account) {
    a.peak > 0.0 && a.peak >= a.equity && (a.position.Some? ==> a.position.value.entryPrice != 0.0)
  }

  predicate Usable(costs: Costs, price: real) {
    price > 0.0 && -1.0 < costs.slippage < 1.0
  }

  function CloseAt(a: Account, costs: Costs, i: nat, price: real): Account
    requires Sane(a) && a.position.Some?
  {
    var p := a.position.value;
    var exit := ExitPrice(p.direction, price, costs);
    var pct := PnlPct(p, exit, costs);
    var pnl := Times(Times(a.equity, SIZE_PCT), pct);
    var equity := a.equity + pnl;
    var peak := MaxReal(a.peak, equity);
    Account(equity, peak, MaxReal(a.maxDrawdown, Fraction(peak - equity, peak)), None,
            a.trades + [Trade(p.direction, p.entryPrice, exit, p.entryIndex, i, pnl, pct)])
  }

  function OpenAt(a: Account, costs: Costs, i: nat, price: real, signal: real): Account {
    var direction := if signal > 0.0 then Long else Short;
    a.(position := Some(Position(direction, EntryPrice(direction, price, costs), i)))
  }

  /** One bar: exit on an opposite signal, then enter on a strong one. */
  function Bar(a: Account, costs: Costs, i: nat, price: real, signal: real): Account
    requires Sane(a)
  {
    var closed := if a.position.Some? && ShouldExit(a.position.value, signal) then CloseAt(a, costs, i, price) else a;
    if closed.position.None? && AbsReal(signal) > 0.5 then OpenAt(closed, costs, i, price, signal) else closed
  }

  lemma EntryNotZero(direction: Direction, price: real, costs: Costs)
    requires Usable(costs, price)
    ensures EntryPrice(direction, price, costs) != 0.0
  {
  }

  lemma BarSane(a: Account, costs: Costs, i: nat, price: real, signal: real)
    requires Sane(a) && Usable(costs, price)
    ensures Sane(Bar(a, costs, i, price, signal))
  {
    EntryNotZero(Long, price, costs);
    EntryNotZero(Short, price, costs);
    hide Times, Fraction, EntryPrice, ExitPrice;
  }

  function Opening(capital: real): Account {
    Account(capital, capital, 0.0, None, [])
  }

  ghost predicate AllUsable(costs: Costs, prices: seq<real>) {
    forall i | 0 <= i < |prices| :: Usable(costs, prices[i])
  }

  /** The account after the first `n` bars. */
  function Simulate(capital: real, costs: Costs, prices: seq<real>, signals: seq<real>, n: nat): (a: Account)
    requires capital > 0.0 && n <= |prices| && n <= |signals| && AllUsable(costs, prices)
    ensures Sane(a)
    decreases n
  {
    if n == 0 then Opening(capital)
    else
      var before := Simulate(capital, costs, prices, signals, n - 1);
      BarSane(before, costs, n - 1, prices[n - 1], signals[n - 1]);
      Bar(before, costs, n - 1, prices[n - 1], signals[n - 1])
  }

  lemma SimulateUnfolds(capital: real, costs: Costs, prices: seq<real>, signals: seq<real>, n: nat)
    requires capital > 0.0 && n <= |prices| && n <= |signals| && AllUsable(costs, prices)
    ensures n == 0 ==> Simulate(capital, costs, prices, signals, n) == Opening(capital)
    ensures n > 0 ==>
              Simulate(capital, costs, prices, signals, n)
              == Bar(Simulate(capital, costs, prices, signals, n - 1), costs, n - 1, prices[n - 1], signals[n - 1])
  {
    hide Bar;
  }

  function Pnls(trades: seq<Trade>): (pnls: seq<real>)
    ensures |pnls| == |trades|
  {
    if trades == [] then [] else Pnls(Front(trades)) + [Last(trades).pnl]
  }

  // ---------------------------------------------------------------- the two loops

  method RunPython(capital: real, costs: Costs, prices: seq<real>, signals: seq<real>)
    returns (equity: real, maxDrawdown: real, trades: seq<Trade>)
    requires capital > 0.0 && |prices| == |signals| && AllUsable(costs, prices)
    ensures var a := Simulate(capital, costs, prices, signals, |prices|);
            equity == a.equity && maxDrawdown == a.maxDrawdown && trades == a.trades
  {
    equity, maxDrawdown, trades := capital, 0.0, [];
    var peak := capital;
    var position: Option<Position> := None;
    for i := 0 to |prices|
      invariant Account(equity, peak, maxDrawdown, position, trades) == Simulate(capital, costs, prices, signals, i)
    {
      hide Times, Fraction;
      var price, signal := prices[i], signals[i];
      assert Usable(costs, price);
      if position.Some? {
        var p := position.value;
        var shouldExit := false;
        if p.direction == Long && signal < 0.0 {
          shouldExit := true;
        } else if p.direction == Short && signal > 0.0 {
          shouldExit := true;
        }
        if shouldExit {
          var exit := ExitPrice(p.direction, price, costs);
          var pct := if p.direction == Long then Fraction(exit - p.entryPrice, p.entryPrice)
                     else Fraction(p.entryPrice - exit, p.entryPrice);
          pct := pct - 2.0 * costs.commission;
          var pnl := Times(Times(equity, SIZE_PCT), pct);
          equity := equity + pnl;
          peak := MaxReal(peak, equity);
          maxDrawdown := MaxReal(maxDrawdown, Fraction(peak - equity, peak));
          trades := trades + [Trade(p.direction, p.entryPrice, exit, p.entryIndex, i, pnl, pct)];
          position := None;
        }
      }
      if position.None? && AbsReal(signal) > 0.5 {
        var direction := if signal > 0.0 then Long else Short;
        position := Some(Position(direction, EntryPrice(direction, price, costs), i));
      }
    }
  }

  datatype RustPosition = RustPosition(direction: int, entryPrice: real)

  /** The Rust loop's position, without the index it does not keep. */
  predicate SamePosition(r: Option<RustPosition>, p: Option<Position>) {
    && (r.Some? <==> p.Some?)
    && (r.Some? ==> r.value == RustPosition(if p.value.direction.Long? then 1 else -1, p.value.entryPrice))
  }

  lemma PnlsGrow(trades: seq<Trade>, t: Trade)
    ensures Pnls(trades + [t]) == Pnls(trades) + [t.pnl]
  {
    assert Front(trades + [t]) == trades;
  }

  /** A bar adds at most one trade, and its result to the results. */
  lemma BarPnls(a: Account, costs: Costs, i: nat, price: real, signal: real)
    requires Sane(a)
    ensures Pnls(Bar(a, costs, i, price, signal).trades)
         == if a.position.Some? && ShouldExit(a.position.value, signal)
            then Pnls(a.trades) + [Last(CloseAt(a, costs, i, price).trades).pnl] else Pnls(a.trades)
  {
    hide Times, Fraction, ExitPrice, EntryPrice, PnlPct;
    if a.position.Some? && ShouldExit(a.position.value, signal) {
      PnlsGrow(a.trades, Last(CloseAt(a, costs, i, price).trades));
    }
  }

  method RunRust(capital: real, costs: Costs, prices: seq<real>, signals: seq<real>)
    returns (equity: real, maxDrawdown: real, pnls: seq<real>)
    requires capital > 0.0 && AllUsable(costs, prices)
    ensures var a := Simulate(capital, costs, prices, signals, Min(|prices|, |signals|));
            equity == a.equity && maxDrawdown == a.maxDrawdown && pnls == Pnls(a.trades)
  {
    equity, maxDrawdown, pnls := capital, 0.0, [];
    var peak := capital;
    var position: Option<RustPosition> := None;
    for i := 0 to Min(|prices|, |signals|)
      invariant var a := Simulate(capital, costs, prices, signals, i);
                equity == a.equity && peak == a.peak && maxDrawdown == a.maxDrawdown && pnls == Pnls(a.trades)
                && SamePosition(position, a.position)
    {
      hide Times, Fraction, Pnls;
      var price, signal := prices[i], signals[i];
      assert Usable(costs, price);
      BarPnls(Simulate(capital, costs, prices, signals, i), costs, i, price, signal);
      if position.Some? {
        var p := position.value;
        var shouldExit := (p.direction == 1 && signal < 0.0) || (p.direction == -1 && signal > 0.0);
        if shouldExit {
          var exit := Times(price, if p.direction == 1 then 1.0 - costs.slippage else 1.0 + costs.slippage);
          var pct := Fraction(if p.direction == 1 then exit - p.entryPrice else p.entryPrice - exit, p.entryPrice)
                     - 2.0 * costs.commission;
          var pnl := Times(Times(equity, 0.02), pct);
          equity := equity + pnl;
          peak := MaxReal(peak, equity);
          maxDrawdown := MaxReal(maxDrawdown, Fraction(peak - equity, peak));
          pnls := pnls + [pnl];
          position := None;
        }
      }
      if position.None? && AbsReal(signal) > 0.5 {
        var direction := if signal > 0.0 then 1 else -1;
        var entry := Times(price, if direction == 1 then 1.0 + costs.slippage else 1.0 - costs.slippage);
        position := Some(RustPosition(direction, entry));
      }
    }
  }

  /** MAIN: on every series of equal length with positive prices the two loops agree on every trade's result,
      the equity and the maximum drawdown. */
  method LoopsAgree(capital: real, costs: Costs, prices: seq<real>, signals: seq<real>)
    returns (python: (real, real, seq<real>), rust: (real, real, seq<real>))
    requires capital > 0.0 && |prices| == |signals| && AllUsable(costs, prices)
    ensures var a := Simulate(capital, costs, prices, signals, |prices|);
            python == (a.equity, a.maxDrawdown, Pnls(a.trades))
    ensures rust == python
  {
    var equity, drawdown, trades := RunPython(capital, costs, prices, signals);
    python := (equity, drawdown, Pnls(trades));
    var equity', drawdown', pnls := RunRust(capital, costs, prices, signals);
    rust := (equity', drawdown', pnls);
  }

  // ---------------------------------------------------------------- the ledger

  function Sum(xs: seq<real>): real {
    if xs == [] then 0.0 else Sum(Front(xs)) + Last(xs)
  }

  /** The growth factor of a series of trades, each of two per cent of the equity. */
  function Growth(trades: seq<Trade>): real {
    if trades == [] then 1.0 else Times(Growth(Front(trades)), 1.0 + Times(0.02, Last(trades).pnlPct))
  }

  ghost predicate Ordered(trades: seq<Trade>) {
    && (forall i | 0 <= i < |trades| :: trades[i].entryIndex < trades[i].exitIndex)
    && (forall i, j | 0 <= i < j < |trades| :: trades[i].exitIndex <= trades[j].entryIndex)
  }

  /** What the account keeps about its trades before bar `n`. */
  ghost predicate Kept(a: Account, capital: real, n: nat) {
    && a.equity == capital + Sum(Pnls(a.trades))
    && a.equity == Times(capital, Growth(a.trades))
    && Ordered(a.trades) && (forall i | 0 <= i < |a.trades| :: a.trades[i].exitIndex < n)
    && (a.position.Some? ==>
          a.position.value.entryIndex < n
          && forall i | 0 <= i < |a.trades| :: a.trades[i].exitIndex <= a.position.value.entryIndex)
  }

  lemma GrowthStep(capital: real, growth: real, pct: real)
    ensures Times(capital, growth) + Times(Times(Times(capital, growth), SIZE_PCT), pct)
         == Times(capital, Times(growth, 1.0 + Times(SIZE_PCT, pct)))
  {
    var e := capital * growth;
    assert e * SIZE_PCT * pct == e * (SIZE_PCT * pct);
    assert e + e * (SIZE_PCT * pct) == e * (1.0 + SIZE_PCT * pct);
    assert e * (1.0 + SIZE_PCT * pct) == capital * (growth * (1.0 + SIZE_PCT * pct));
  }

  lemma CloseKept(a: Account, capital: real, costs: Costs, n: nat, price: real)
    requires Sane(a) && a.position.Some? && Kept(a, capital, n)
    ensures Kept(CloseAt(a, costs, n, price), capital, n + 1)
  {
    hide Times, Fraction, ExitPrice, PnlPct;
    var closed := CloseAt(a, costs, n, price);
    var t := Last(closed.trades);
    assert closed.trades == a.trades + [t] && Front(closed.trades) == a.trades;
    PnlsGrow(a.trades, t);
    SumGrows(Pnls(a.trades), t.pnl);
    GrowthStep(capital, Growth(a.trades), t.pnlPct);
    hide Pnls, Sum;
  }

  lemma SumGrows(xs: seq<real>, x: real)
    ensures Sum(xs + [x]) == Sum(xs) + x
  {
    assert Front(xs + [x]) == xs;
  }

  lemma BarKept(a: Account, capital: real, costs: Costs, n: nat, price: real, signal: real)
    requires Sane(a) && Kept(a, capital, n)
    ensures Kept(Bar(a, costs, n, price, signal), capital, n + 1)
  {
    hide Times, Fraction, EntryPrice, Pnls, Sum, Growth;
    if a.position.Some? && ShouldExit(a.position.value, signal) {
      CloseKept(a, capital, costs, n, price);
      hide CloseAt;
    }
  }

  /** MAIN: the final equity is the capital plus every trade's result, and also the capital compounded by two
      per cent of every trade's return; trades never overlap. */
  lemma {:induction false} LedgerBalances(capital: real, costs: Costs, prices: seq<real>, signals: seq<real>, n: nat)
    requires capital > 0.0 && n <= |prices| && n <= |signals| && AllUsable(costs, prices)
    ensures Kept(Simulate(capital, costs, prices, signals, n), capital, n)
    decreases n
  {
    hide Kept, Simulate, Sane;
    if n == 0 {
      LedgerStarts(capital, costs, prices, signals);
    } else {
      LedgerBalances(capital, costs, prices, signals, n - 1);
      LedgerStep(capital, costs, prices, signals, n);
    }
  }

  lemma LedgerStarts(capital: real, costs: Costs, prices: seq<real>, signals: seq<real>)
    requires capital > 0.0 && AllUsable(costs, prices)
    ensures Kept(Simulate(capital, costs, prices, signals, 0), capital, 0)
  {
    NothingKept(capital);
  }

  lemma LedgerStep(capital: real, costs: Costs, prices: seq<real>, signals: seq<real>, n: nat)
    requires capital > 0.0 && 0 < n <= |prices| && n <= |signals| && AllUsable(costs, prices)
    requires Kept(Simulate(capital, costs, prices, signals, n - 1), capital, n - 1)
    ensures Kept(Simulate(capital, costs, prices, signals, n), capital, n)
  {
    hide Kept, Bar, Simulate, Sane;
    SimulateUnfolds(capital, costs, prices, signals, n);
    BarKept(Simulate(capital, costs, prices, signals, n - 1), capital, costs, n - 1, prices[n - 1], signals[n - 1]);
  }

  lemma NothingKept(capital: real)
    ensures Kept(Opening(capital), capital, 0)
  {
    assert Times(capital, 1.0) == capital;
    hide Times;
  }

  // ---------------------------------------------------------------- drawdown

  /** The equity after each number of trades, starting from the capital. */
  function Curve(capital: real, trades: seq<Trade>): (curve: seq<real>)
    ensures |curve| == |trades| + 1
  {
    if trades == [] then [capital]
    else
      var before := Curve(capital, Front(trades));
      before + [Last(before) + Last(trades).pnl]
  }

  /** The loss from one point of the curve to a later one, as a fraction of the earlier. */
  function Loss(curve: seq<real>, i: nat, j: nat): real
    requires i < |curve| && j < |curve| && curve[i] != 0.0
  {
    Fraction(curve[i] - curve[j], curve[i])
  }

  ghost predicate AllPositive(curve: seq<real>) {
    forall i | 0 <= i < |curve| :: curve[i] > 0.0
  }

  /** `d` is the largest loss from any point of the curve to a later one. */
  ghost predicate IsMaxDrawdown(d: real, curve: seq<real>)
    requires AllPositive(curve)
  {
    && (forall i, j | 0 <= i <= j < |curve| :: Loss(curve, i, j) <= d)
    && (exists i, j | 0 <= i <= j < |curve| :: Loss(curve, i, j) == d)
  }

  ghost predicate IsPeak(peak: real, curve: seq<real>) {
    && (forall i | 0 <= i < |curve| :: curve[i] <= peak)
    && (exists i | 0 <= i < |curve| :: curve[i] == peak)
  }

  /** The account reads off its equity curve. */
  ghost predicate Tracks(a: Account, capital: real) {
    var curve := Curve(capital, a.trades);
    && a.equity == Last(curve) && IsPeak(a.peak, curve)
    && (AllPositive(curve) ==> IsMaxDrawdown(a.maxDrawdown, curve))
  }

  lemma Cancels(y: real, x: real)
    requires x > 0.0 && Times(y, x) >= 0.0
    ensures y >= 0.0
  {
  }

  lemma FractionIs(a: real, x: real)
    requires x != 0.0
    ensures Times(Fraction(a, x), x) == a
  {
  }

  lemma FractionGrows(low: real, high: real, now: real)
    requires 0.0 < low <= high && now > 0.0
    ensures Fraction(low - now, low) <= Fraction(high - now, high)
  {
    var a, b := Fraction(low - now, low), Fraction(high - now, high);
    FractionIs(low - now, low);
    FractionIs(high - now, high);
    CrossDifference(a, b, low, high, now);
    Cancels(b - a, low);
  }

  /** With a low == low - now and b high == high - now, the difference times `low` is now (high - low) / high. */
  lemma CrossDifference(a: real, b: real, low: real, high: real, now: real)
    requires 0.0 < low <= high && now > 0.0
    requires Times(a, low) == low - now && Times(b, high) == high - now
    ensures Times(b - a, low) >= 0.0
  {
    BelowOne(b, high, now);
    SplitProduct(1.0 - b, high, low);
    TimesMonotone(low, high, 1.0 - b);
  }

  lemma BelowOne(b: real, high: real, now: real)
    requires high > 0.0 && now > 0.0 && Times(b, high) == high - now
    ensures b <= 1.0 && Times(1.0 - b, high) == now
  {
    assert (1.0 - b) * high == now;
    Cancels(1.0 - b, high);
  }

  lemma SplitProduct(gap: real, high: real, low: real)
    ensures forall a: real :: Times((1.0 - gap) - a, low) == low - Times(gap, low) - Times(a, low)
  {
  }

  lemma NoLossInPlace(x: real)
    requires x != 0.0
    ensures Fraction(x - x, x) == 0.0
  {
  }

  lemma PeakGrows(curve: seq<real>, peak: real, e: real)
    requires IsPeak(peak, curve)
    ensures IsPeak(MaxReal(peak, e), curve + [e])
  {
    var next := curve + [e];
    var k :| 0 <= k < |curve| && curve[k] == peak;
    assert next[k] == peak && next[|curve|] == e;
  }

  lemma DrawdownGrows(curve: seq<real>, peak: real, d: real, e: real)
    requires AllPositive(curve + [e]) && AllPositive(curve) && IsPeak(peak, curve) && IsMaxDrawdown(d, curve)
    ensures var top := MaxReal(peak, e);
            top > 0.0 && IsMaxDrawdown(MaxReal(d, Fraction(top - e, top)), curve + [e])
  {
    hide Fraction;
    var next := curve + [e];
    var top := MaxReal(peak, e);
    var worst := Fraction(top - e, top);
    PeakGrows(curve, peak, e);
    var k :| 0 <= k < |next| && next[k] == top;
    assert e > 0.0 by {
      assert next[|curve|] == e;
    }
    forall i, j | 0 <= i <= j < |next|
      ensures Loss(next, i, j) <= MaxReal(d, worst)
    {
      if j < |curve| {
        assert Loss(next, i, j) == Loss(curve, i, j);
      } else {
        FractionGrows(next[i], top, e);
      }
    }
    var m, n :| 0 <= m <= n < |curve| && Loss(curve, m, n) == d;
    assert Loss(next, m, n) == d && Loss(next, k, |curve|) == worst;
  }

  lemma CurveGrows(capital: real, trades: seq<Trade>, t: Trade)
    ensures Curve(capital, trades + [t]) == Curve(capital, trades) + [Last(Curve(capital, trades)) + t.pnl]
  {
    assert Front(trades + [t]) == trades;
  }

  lemma CloseTracks(a: Account, capital: real, costs: Costs, n: nat, price: real)
    requires Sane(a) && a.position.Some? && Tracks(a, capital)
    ensures Tracks(CloseAt(a, costs, n, price), capital)
  {
    hide Times, Fraction, ExitPrice, PnlPct, IsMaxDrawdown, IsPeak, AllPositive;
    var closed := CloseAt(a, costs, n, price);
    var curve := Curve(capital, a.trades);
    CurveGrows(capital, a.trades, Last(closed.trades));
    hide Curve;
    PeakGrows(curve, a.peak, closed.equity);
    if AllPositive(curve + [closed.equity]) {
      PositivePrefix(curve, closed.equity);
      DrawdownGrows(curve, a.peak, a.maxDrawdown, closed.equity);
    }
  }

  lemma PositivePrefix(curve: seq<real>, e: real)
    requires AllPositive(curve + [e])
    ensures AllPositive(curve)
  {
    assert forall i | 0 <= i < |curve| :: (curve + [e])[i] == curve[i];
  }

  lemma BarTracks(a: Account, capital: real, costs: Costs, n: nat, price: real, signal: real)
    requires Sane(a) && Tracks(a, capital)
    ensures Tracks(Bar(a, costs, n, price, signal), capital)
  {
    hide Tracks, Sane, Times, Fraction, CloseAt, EntryPrice;
    if a.position.Some? && ShouldExit(a.position.value, signal) {
      CloseTracks(a, capital, costs, n, price);
      PositionIsFree(CloseAt(a, costs, n, price), Bar(a, costs, n, price, signal), capital);
    } else {
      PositionIsFree(a, Bar(a, costs, n, price, signal), capital);
    }
  }

  /** MAIN: while the equity stays positive, the drawdown computed online from the running peak is the largest
      loss from any point of the equity curve to any later one. */
  lemma {:induction false} DrawdownIsMaximal(capital: real, costs: Costs, prices: seq<real>, signals: seq<real>, n: nat)
    requires capital > 0.0 && n <= |prices| && n <= |signals| && AllUsable(costs, prices)
    ensures Tracks(Simulate(capital, costs, prices, signals, n), capital)
    decreases n
  {
    SimulateUnfolds(capital, costs, prices, signals, n);
    hide Tracks, Simulate, Bar, Sane, AllUsable, Opening;
    if n == 0 {
      StartTracks(capital);
    } else {
      DrawdownIsMaximal(capital, costs, prices, signals, n - 1);
      BarTracks(Simulate(capital, costs, prices, signals, n - 1), capital, costs, n - 1, prices[n - 1], signals[n - 1]);
    }
  }

  lemma PositionIsFree(a: Account, b: Account, capital: real)
    requires Tracks(a, capital) && b == a.(position := b.position)
    ensures Tracks(b, capital)
  {
  }

  lemma StartTracks(capital: real)
    requires capital > 0.0
    ensures Tracks(Opening(capital), capital)
  {
    var curve := Curve(capital, []);
    assert curve == [capital] && curve[0] == capital;
    NoLossInPlace(capital);
    hide Fraction;
    assert Loss(curve, 0, 0) == 0.0;
  }
}
