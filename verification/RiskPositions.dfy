/** What opening, marking and closing do to the position table, in prices and profits. */
module RiskPositions {
  import opened Prelude
  import opened RealProducts
  import opened Positions
  import opened RiskDesk
  import opened RiskLedger
  import opened RiskApproval
  import opened RiskHalts
  import VR = ValueAtRisk

  /** How far a price lies from the signal's, on the losing side of its direction. */
  function Against(s: Signal, price: real): real {
    if s.isLong then s.price - price else price - s.price
  }

  /** The volatility that stops are measured in: the signal's, or one percent of its price. */
  function Volatility(s: Signal): real {
    MaxReal(s.atr, if s.atr > 0.0 then 0.0 else s.price / 100.0)
  }

  /** The stop lies against the position by the wider of the volatility distance and the fixed fraction, and the target
      on the other side by the reward ratio times the volatility distance. */
  lemma StopsMean(cfg: Config, s: Signal)
    requires s.price > 0.0
    ensures var (stop, target) := Stops(cfg, s);
            var distance := Volatility(s) * cfg.atrStopMultiplier;
            && Against(s, stop) == MaxReal(distance, s.price * cfg.stopLossPct)
            && -Against(s, target) == distance * cfg.rewardRatio
  {
    assert s.price * (1.0 - cfg.stopLossPct) == s.price - s.price * cfg.stopLossPct;
    assert s.price * (1.0 + cfg.stopLossPct) == s.price + s.price * cfg.stopLossPct;
  }

  /** An approved signal adds one position behind the others: worth the approved size at the signal's price, which is
      its entry, current and extreme price, without profit and unmanaged. */
  lemma OpenAddsOne(d: Desk, cfg: Config, s: Signal, now: int, minute: int)
    requires s.price > 0.0 && Approve(d, cfg, s, now, minute).1.Approved?
    ensures var (read, verdict) := Approve(d, cfg, s, now, minute);
            var after := OpenPosition(read, cfg, s, verdict.size, now);
            && after.positions != [] && Front(after.positions) == d.positions && after.equity == d.equity
            && var p := Last(after.positions);
               && IsFor(p, s.exchange, s.symbol) && p.isLong == s.isLong && p.openTime == now
               && Notional(p) == verdict.size && Opened(p) && p.entryPrice == s.price
               && p.pnl == 0.0 == p.pnlPct && (p.stopLoss, p.takeProfit) == Stops(cfg, s)
  {
    var size := SomeSize(d.equity, cfg, s);
    VerdictIs(d, cfg, s, now, minute, size);
    assert !Fails(d, cfg, s, now, minute, size, AlreadyInPosition);
    HeldIff(d.positions, s.exchange, s.symbol);
    OpenedNotional(cfg, s, size, now);
    ReadKeepsPositions(d, cfg, s, now, minute);
    ReadKeepsEquity(d, cfg, s, now, minute);
    hide Approve, LargestSize, Times, Find, Stops, Notional;
    assert Front(d.positions + [PositionOf(cfg, s, size, now)]) == d.positions;
  }

  lemma ReadKeepsEquity(d: Desk, cfg: Config, s: Signal, now: int, minute: int)
    ensures Approve(d, cfg, s, now, minute).0.equity == d.equity
  {
    hide Judge;
  }

  /** A price update marks and manages the position of that key and leaves every other one as it is. */
  lemma MarkTouchesOne(d: Desk, cfg: Config, exchange: string, symbol: string, price: real, held: int)
    requires Kept(d, cfg)
    ensures Priced(d.positions)
    ensures var (after, exit) := MarkAt(d, cfg, exchange, symbol, price, held);
            && |after.positions| == |d.positions|
            && (forall j | 0 <= j < |d.positions| ::
                  && d.positions[j] in d.positions
                  && if IsFor(d.positions[j], exchange, symbol)
                     then (after.positions[j], exit) == Tick(d.positions[j], cfg.rules, price, held)
                     else after.positions[j] == d.positions[j])
            && (!Holds(d.positions, exchange, symbol) ==> exit.NoExit? && after == d)
  {
    KeptIsPriced(d, cfg);
    HeldIff(d.positions, exchange, symbol);
    hide Tick;
    forall j | 0 <= j < |d.positions|
      ensures d.positions[j] in d.positions
    {
    }
  }

  /** Closing takes out the position of that key, leaves the others in their order, and books its profit at the price:
      on the equity, in the return history and with the loss breaker. */
  lemma CloseBooksOne(d: Desk, cfg: Config, exchange: string, symbol: string, price: real, now: int)
    returns (i: nat)
    requires Kept(d, cfg) && Holds(d.positions, exchange, symbol)
    ensures Priced(d.positions)
    ensures var (after, closed) := ClosePosition(d, cfg, exchange, symbol, price, now);
            && closed.Some? && i < |d.positions| && IsFor(d.positions[i], exchange, symbol)
            && after.positions == d.positions[..i] + d.positions[i + 1..]
            && !Holds(after.positions, exchange, symbol)
            && var p := closed.value;
               && Continues(p, d.positions[i]) && p.currentPrice == price
               && after.equity == d.equity + Gain(p, price)
               && p.pnlPct * p.entryPrice == (if p.isLong then price - p.entryPrice else p.entryPrice - price)
               && after.history == VR.RecordReturn(d.history, cfg.returnsWindow, p.pnlPct)
               && after.breaker == RecordPnl(d.breaker, cfg.losses, p.pnlPct, after.equity, now)
  {
    KeptIsPriced(d, cfg);
    i := Find(d.positions, exchange, symbol);
    var held :| held in d.positions && IsFor(held, exchange, symbol);
    assert d.positions[i] in d.positions;
    MarkedIsSound(d.positions[i], price);
    UpdateContinues(d.positions[i], price);
    UpdateReturns(d.positions[i], price);
    hide UpdatePrice, VR.RecordReturn, RecordPnl, Gain, Continues, Sound;
  }

  lemma UpdateReturns(p: Position, price: real)
    requires p.entryPrice != 0.0
    ensures UpdatePrice(p, price).pnlPct * p.entryPrice
         == if p.isLong then price - p.entryPrice else p.entryPrice - price
  {
    hide Times;
  }
}
