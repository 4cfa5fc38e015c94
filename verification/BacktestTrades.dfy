/** Which trades a backtest makes, and at which prices, read off the price and signal series alone. */
module BacktestTrades {
  import opened Prelude
  import opened RealProducts
  import opened Backtest

  /** A signal strong enough to enter on. */
  predicate Enters(direction: Direction, signal: real) {
    if direction.Long? then signal > 0.5 else signal < -0.5
  }

  predicate Opposes(direction: Direction, signal: real) {
    if direction.Long? then signal < 0.0 else signal > 0.0
  }

  /** What a buyer pays, or a seller receives, at this price. */
  function Slipped(price: real, buys: bool, costs: Costs): real {
    if buys then price + price * costs.slippage else price - price * costs.slippage
  }

  /** Entered at bar `from` and still held when bar `to` begins. */
  ghost predicate HeldFrom(direction: Direction, entryPrice: real, from: nat, to: nat, costs: Costs,
                           prices: seq<real>, signals: seq<real>) {
    && from < to <= |prices| && to <= |signals|
    && Enters(direction, signals[from]) && entryPrice == Slipped(prices[from], direction.Long?, costs)
    && forall k | from < k < to :: !Opposes(direction, signals[k])
  }

  /** What a trade gains on its entry price, after paying commission both ways. */
  predicate Earns(t: Trade, costs: Costs) {
    Times(t.pnlPct, t.entryPrice)
    == (if t.direction.Long? then t.exitPrice - t.entryPrice else t.entryPrice - t.exitPrice)
       - Times(2.0 * costs.commission, t.entryPrice)
  }

  ghost predicate Explained(t: Trade, costs: Costs, prices: seq<real>, signals: seq<real>, n: nat) {
    && t.exitIndex < n <= |prices| && n <= |signals|
    && HeldFrom(t.direction, t.entryPrice, t.entryIndex, t.exitIndex, costs, prices, signals)
    && Opposes(t.direction, signals[t.exitIndex])
    && t.exitPrice == Slipped(prices[t.exitIndex], t.direction.Short?, costs)
    && Earns(t, costs)
  }

  /** Bar `k` begins or continues a position. */
  ghost predicate Covered(a: Account, k: nat) {
    || (a.position.Some? && a.position.value.entryIndex <= k)
    || exists t :: t in a.trades && t.entryIndex <= k < t.exitIndex
  }

  ghost predicate AllExplained(a: Account, costs: Costs, prices: seq<real>, signals: seq<real>, n: nat)
    requires n <= |prices| && n <= |signals|
  {
    && (forall t | t in a.trades :: Explained(t, costs, prices, signals, n))
    && (a.position.Some? ==>
          var p := a.position.value;
          HeldFrom(p.direction, p.entryPrice, p.entryIndex, n, costs, prices, signals))
    && forall k | 0 <= k < n && (Enters(Long, signals[k]) || Enters(Short, signals[k])) :: Covered(a, k)
  }

  lemma PricesSlip(direction: Direction, price: real, costs: Costs)
    ensures EntryPrice(direction, price, costs) == Slipped(price, direction.Long?, costs)
    ensures ExitPrice(direction, price, costs) == Slipped(price, direction.Short?, costs)
  {
  }

  lemma ClosedEarns(a: Account, costs: Costs, i: nat, price: real)
    requires Sane(a) && a.position.Some?
    ensures var closed, p := CloseAt(a, costs, i, price), a.position.value;
            && closed.position.None? && |closed.trades| == |a.trades| + 1 && Front(closed.trades) == a.trades
            && var t := Last(closed.trades);
               && t.direction == p.direction && t.entryPrice == p.entryPrice && t.entryIndex == p.entryIndex
               && t.exitIndex == i && t.exitPrice == Slipped(price, p.direction.Short?, costs) && Earns(t, costs)
  {
    var p := a.position.value;
    PricesSlip(p.direction, price, costs);
    PctEarns(p, ExitPrice(p.direction, price, costs), costs);
    hide Times, Fraction, PnlPct, ExitPrice, Slipped;
  }

  lemma PctEarns(p: Position, exit: real, costs: Costs)
    requires p.entryPrice != 0.0
    ensures Times(PnlPct(p, exit, costs), p.entryPrice)
         == (if p.direction.Long? then exit - p.entryPrice else p.entryPrice - exit)
            - Times(2.0 * costs.commission, p.entryPrice)
  {
    var move := if p.direction.Long? then exit - p.entryPrice else p.entryPrice - exit;
    FractionIs(move, p.entryPrice);
    TimesSubtracts(p.entryPrice, Fraction(move, p.entryPrice), 2.0 * costs.commission);
    hide Fraction;
  }

  lemma HeldLonger(direction: Direction, entryPrice: real, from: nat, to: nat, costs: Costs,
                   prices: seq<real>, signals: seq<real>)
    requires HeldFrom(direction, entryPrice, from, to, costs, prices, signals)
    requires to < |prices| && to < |signals| && !Opposes(direction, signals[to])
    ensures HeldFrom(direction, entryPrice, from, to + 1, costs, prices, signals)
  {
    hide Slipped;
  }

  /** Closing at an opposing bar keeps every trade explained. */
  lemma CloseExplained(a: Account, costs: Costs, prices: seq<real>, signals: seq<real>, n: nat)
    requires n < |prices| && n < |signals| && Sane(a) && AllExplained(a, costs, prices, signals, n)
    requires a.position.Some? && Opposes(a.position.value.direction, signals[n])
    ensures var closed := CloseAt(a, costs, n, prices[n]);
            && (forall t | t in closed.trades :: Explained(t, costs, prices, signals, n + 1))
            && forall k | 0 <= k < n && Covered(a, k) :: Covered(closed, k)
  {
    ClosedEarns(a, costs, n, prices[n]);
    hide CloseAt, HeldFrom, Slipped, Earns, Opposes;
    var closed := CloseAt(a, costs, n, prices[n]);
    assert closed.trades == a.trades + [Last(closed.trades)];
    forall k | 0 <= k < n && Covered(a, k)
      ensures Covered(closed, k)
    {
      if a.position.Some? && a.position.value.entryIndex <= k {
        assert Last(closed.trades) in closed.trades;
      }
    }
  }

  lemma TradesStayExplained(trades: seq<Trade>, costs: Costs, prices: seq<real>, signals: seq<real>, n: nat)
    requires n < |prices| && n < |signals| && forall t | t in trades :: Explained(t, costs, prices, signals, n)
    ensures forall t | t in trades :: Explained(t, costs, prices, signals, n + 1)
  {
    hide HeldFrom, Slipped, Earns, Opposes;
  }

  /** Entering on a bar, or not, once nothing is held or the holding goes on. */
  lemma EntryExplained(a: Account, costs: Costs, prices: seq<real>, signals: seq<real>, n: nat)
    requires n < |prices| && n < |signals|
    requires forall t | t in a.trades :: Explained(t, costs, prices, signals, n + 1)
    requires a.position.Some? ==>
               var p := a.position.value;
               HeldFrom(p.direction, p.entryPrice, p.entryIndex, n + 1, costs, prices, signals)
    requires forall k | 0 <= k < n && (Enters(Long, signals[k]) || Enters(Short, signals[k])) :: Covered(a, k)
    ensures var after := if a.position.None? && AbsReal(signals[n]) > 0.5
                         then OpenAt(a, costs, n, prices[n], signals[n]) else a;
            AllExplained(after, costs, prices, signals, n + 1)
  {
    PricesSlip(Long, prices[n], costs);
    PricesSlip(Short, prices[n], costs);
    hide EntryPrice, Slipped, Explained;
  }

  lemma BarExplained(a: Account, costs: Costs, prices: seq<real>, signals: seq<real>, n: nat)
    requires n < |prices| && n < |signals| && Sane(a) && AllExplained(a, costs, prices, signals, n)
    ensures AllExplained(Bar(a, costs, n, prices[n], signals[n]), costs, prices, signals, n + 1)
  {
    hide CloseAt, OpenAt, Explained, HeldFrom, Covered, Enters;
    TradesStayExplained(a.trades, costs, prices, signals, n);
    if a.position.Some? {
      var p := a.position.value;
      if ShouldExit(p, signals[n]) {
        CloseExplained(a, costs, prices, signals, n);
        ClosedEarns(a, costs, n, prices[n]);
        EntryExplained(CloseAt(a, costs, n, prices[n]), costs, prices, signals, n);
      } else {
        HeldLonger(p.direction, p.entryPrice, p.entryIndex, n, costs, prices, signals);
        EntryExplained(a, costs, prices, signals, n);
      }
    } else {
      EntryExplained(a, costs, prices, signals, n);
    }
  }

  /** MAIN: on every series, each trade enters on a signal beyond one half, in its direction, and exits on the first
      opposite signal after that; its prices are those of these two bars with slippage against it, and its return
      on the entry price is what it gained less the commission both ways. A bar with a signal beyond one half
      always begins or continues a position. */
  lemma {:induction false} TradesAreExplained(capital: real, costs: Costs, prices: seq<real>, signals: seq<real>,
                                              n: nat)
    requires capital > 0.0 && n <= |prices| && n <= |signals| && AllUsable(costs, prices)
    ensures AllExplained(Simulate(capital, costs, prices, signals, n), costs, prices, signals, n)
    decreases n
  {
    hide Simulate, AllExplained, AllUsable, Sane;
    if n > 0 {
      TradesAreExplained(capital, costs, prices, signals, n - 1);
      StepExplained(capital, costs, prices, signals, n);
    } else {
      SimulateUnfolds(capital, costs, prices, signals, 0);
      NothingToExplain(capital, costs, prices, signals);
    }
  }

  lemma StepExplained(capital: real, costs: Costs, prices: seq<real>, signals: seq<real>, n: nat)
    requires capital > 0.0 && 0 < n <= |prices| && n <= |signals| && AllUsable(costs, prices)
    requires AllExplained(Simulate(capital, costs, prices, signals, n - 1), costs, prices, signals, n - 1)
    ensures AllExplained(Simulate(capital, costs, prices, signals, n), costs, prices, signals, n)
  {
    hide Simulate, Bar, AllExplained, AllUsable, Sane;
    SimulateUnfolds(capital, costs, prices, signals, n);
    BarExplained(Simulate(capital, costs, prices, signals, n - 1), costs, prices, signals, n - 1);
  }

  lemma NothingToExplain(capital: real, costs: Costs, prices: seq<real>, signals: seq<real>)
    ensures AllExplained(Opening(capital), costs, prices, signals, 0)
  {
  }
}
