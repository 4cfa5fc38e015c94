/** The risk manager of execution/risk_manager.py: approval, the position table, the equity ledger, the
    kill switch and the loss breaker. Clock readings are inputs; the position table is a Python dict, so a
    sequence with one position per exchange and symbol. */
module RiskDesk {
  import opened Prelude
  import opened Positions
  import VR = ValueAtRisk

  // ---------------------------------------------------------------- the loss breaker

  datatype LossBreaker = LossBreaker(dailyLoss: real, peakEquity: real, tripped: bool, tripTime: int)

  datatype LossLimits = LossLimits(maxDailyLoss: real, maxDrawdown: real, pauseSeconds: int)

  function Drawdown(peak: real, equity: real): real {
    if peak > 0.0 then (peak - equity) / peak else 0.0
  }

  function RecordPnl(b: LossBreaker, limits: LossLimits, pnlPct: real, equity: real, now: int): LossBreaker {
    var loss := b.dailyLoss + MinReal(0.0, pnlPct);
    var peak := MaxReal(b.peakEquity, equity);
    var trips := AbsReal(loss) >= limits.maxDailyLoss || Drawdown(peak, equity) >= limits.maxDrawdown;
    LossBreaker(loss, peak, trips || b.tripped, if trips then now else b.tripTime)
  }

  /** Reading the flag clears it once the pause has passed. */
  function ReadTripped(b: LossBreaker, limits: LossLimits, now: int): LossBreaker {
    if b.tripped && limits.pauseSeconds > 0 && now - b.tripTime >= limits.pauseSeconds then b.(tripped := false) else b
  }

  // ---------------------------------------------------------------- the desk

  datatype Config = Config(
    maxPositionPct: real,
    riskPerTrade: real,
    riskBasedSizing: bool,
    maxOpen: int,
    leverage: real,
    maxSpreadBps: real,
    maxAtrPct: real,
    maxExposurePerSymbol: real,
    cooldownSeconds: int,
    sessionStart: int,
    sessionEnd: int,
    atrStopMultiplier: real,
    rewardRatio: real,
    stopLossPct: real,
    maxPortfolioVar: real,
    returnsWindow: nat,
    varMinHistory: int,
    rules: StopRules,
    losses: LossLimits)

  datatype Signal = Signal(
    exchange: string,
    symbol: string,
    isLong: bool,
    price: real,
    stopLoss: real,
    score: real,
    riskReward: real,
    spreadBps: real,
    atr: real)

  datatype Desk = Desk(
    positions: seq<Position>,
    equity: real,
    history: seq<real>,
    lastTrade: map<string, int>,
    killed: bool,
    breaker: LossBreaker)

  function NewDesk(equity: real): Desk {
    Desk([], equity, [], map[], false, LossBreaker(0.0, 0.0, false, 0))
  }

  predicate IsFor(p: Position, exchange: string, symbol: string) {
    p.exchange == exchange && p.symbol == symbol
  }

  function Find(ps: seq<Position>, exchange: string, symbol: string): (i: nat)
    ensures i <= |ps|
    ensures i < |ps| ==> IsFor(ps[i], exchange, symbol)
    ensures forall j | 0 <= j < i :: !IsFor(ps[j], exchange, symbol)
  {
    if ps == [] || IsFor(ps[0], exchange, symbol) then 0 else 1 + Find(ps[1..], exchange, symbol)
  }

  // ---------------------------------------------------------------- approval

  datatype Refusal =
    | KillSwitch | LossBreakerTripped | AlreadyInPosition | TooManyPositions | ScoreTooLow | PoorRiskReward
    | OutsideSession | Cooldown | SpreadTooWide | TooVolatile | NothingToSize | SymbolExposure | VarLimit

  /** Sizing can also raise, at a price of zero. */
  datatype Verdict = Approved(size: real) | Refused(reason: Refusal) | DividedByZero

  /** Risk-based sizing divides by the price, unless the stop is at the price itself. */
  predicate Sizable(cfg: Config, s: Signal) {
    s.price != 0.0 || !cfg.riskBasedSizing || s.stopLoss == s.price
  }

  /** The notional that loses the risk budget at the signal's stop. */
  function RiskNotional(equity: real, cfg: Config, s: Signal): real
    requires s.price != 0.0 && s.stopLoss != s.price
  {
    (equity * cfg.riskPerTrade) / (AbsReal(s.price - s.stopLoss) / s.price)
  }

  function PositionSize(equity: real, cfg: Config, s: Signal): real
    requires Sizable(cfg, s)
  {
    var distance := AbsReal(s.price - s.stopLoss);
    if distance == 0.0 then 0.0
    else
      var notional := if cfg.riskBasedSizing then RiskNotional(equity, cfg, s) else equity * cfg.maxPositionPct;
      MaxReal(0.0, MinReal(notional * cfg.leverage, equity * cfg.maxPositionPct * cfg.leverage))
  }

  predicate InSession(cfg: Config, minute: int) {
    if cfg.sessionStart <= cfg.sessionEnd then cfg.sessionStart <= minute <= cfg.sessionEnd
    else minute >= cfg.sessionStart || minute <= cfg.sessionEnd
  }

  /** The default session, 00:00 to 23:59, is never checked. */
  predicate SessionOpen(cfg: Config, minute: int) {
    (cfg.sessionStart == 0 && cfg.sessionEnd == 1439) || InSession(cfg, minute)
  }

  predicate Cooling(d: Desk, cfg: Config, symbol: string, now: int) {
    now - (if symbol in d.lastTrade then d.lastTrade[symbol] else 0) < cfg.cooldownSeconds
  }

  predicate BreachesVar(history: seq<real>, equity: real, cfg: Config, size: real) {
    |history| >= cfg.varMinHistory && equity > 0.0 &&
    VR.VaR(history, 0.95) + size / equity > cfg.maxPortfolioVar
  }

  /** The checks that need a size. */
  function JudgeSize(d: Desk, cfg: Config, s: Signal): Verdict {
    if !Sizable(cfg, s) then DividedByZero
    else
      var size := PositionSize(d.equity, cfg, s);
      if size <= 0.0 then Refused(NothingToSize)
      else if size > d.equity * cfg.maxExposurePerSymbol then Refused(SymbolExposure)
      else if BreachesVar(d.history, d.equity, cfg, size) then Refused(VarLimit)
      else Approved(size)
  }

  function Judge(d: Desk, cfg: Config, s: Signal, now: int, minute: int): Verdict {
    if d.killed then Refused(KillSwitch)
    else if d.breaker.tripped then Refused(LossBreakerTripped)
    else if Find(d.positions, s.exchange, s.symbol) < |d.positions| then Refused(AlreadyInPosition)
    else if |d.positions| >= cfg.maxOpen then Refused(TooManyPositions)
    else if s.score < 0.5 then Refused(ScoreTooLow)
    else if s.riskReward < 1.5 then Refused(PoorRiskReward)
    else if !SessionOpen(cfg, minute) then Refused(OutsideSession)
    else if Cooling(d, cfg, s.symbol, now) then Refused(Cooldown)
    else if s.spreadBps > 0.0 && s.spreadBps > cfg.maxSpreadBps then Refused(SpreadTooWide)
    else if s.price > 0.0 && s.atr / s.price > cfg.maxAtrPct then Refused(TooVolatile)
    else JudgeSize(d, cfg, s)
  }

  /** Approval reads the breaker's flag, unless the kill switch answers first. */
  function Approve(d: Desk, cfg: Config, s: Signal, now: int, minute: int): (Desk, Verdict) {
    var read := if d.killed then d else d.(breaker := ReadTripped(d.breaker, cfg.losses, now));
    (read, Judge(read, cfg, s, now, minute))
  }

  // ---------------------------------------------------------------- opening and closing

  function Stops(cfg: Config, s: Signal): (real, real) {
    var atr := if s.atr > 0.0 then s.atr else s.price * 0.01;
    var distance := atr * cfg.atrStopMultiplier;
    if s.isLong
    then (MinReal(s.price - distance, s.price * (1.0 - cfg.stopLossPct)), s.price + distance * cfg.rewardRatio)
    else (MaxReal(s.price + distance, s.price * (1.0 + cfg.stopLossPct)), s.price - distance * cfg.rewardRatio)
  }

  function PositionOf(cfg: Config, s: Signal, size: real, now: int): Position {
    var (stop, target) := Stops(cfg, s);
    var quantity := if s.price > 0.0 then size / s.price else 0.0;
    Position(s.exchange, s.symbol, s.isLong, quantity, s.price, s.price, stop, target,
             now, 0.0, 0.0, false, 0.0, false, s.price, s.price)
  }

  function Put(ps: seq<Position>, p: Position): seq<Position> {
    var i := Find(ps, p.exchange, p.symbol);
    if i < |ps| then ps[i := p] else ps + [p]
  }

  function OpenPosition(d: Desk, cfg: Config, s: Signal, size: real, now: int): Desk {
    d.(positions := Put(d.positions, PositionOf(cfg, s, size, now)), lastTrade := d.lastTrade[s.symbol := now])
  }

  ghost predicate Priced(ps: seq<Position>) {
    forall p | p in ps :: p.entryPrice != 0.0
  }

  /** Closing an unknown position does nothing. */
  function ClosePosition(d: Desk, cfg: Config, exchange: string, symbol: string, price: real, now: int)
    : (Desk, Option<Position>)
    requires Priced(d.positions)
  {
    var i := Find(d.positions, exchange, symbol);
    if i == |d.positions| then (d, None)
    else
      var closed := UpdatePrice(d.positions[i], price);
      var equity := d.equity + closed.pnl;
      var history := VR.RecordReturn(d.history, cfg.returnsWindow, closed.pnlPct);
      (Desk(d.positions[..i] + d.positions[i + 1..], equity, history,
            d.lastTrade[symbol := now], d.killed, RecordPnl(d.breaker, cfg.losses, closed.pnlPct, equity, now)),
       Some(closed))
  }

  function Kill(d: Desk, cfg: Config, now: int): (Desk, seq<Position>)
    requires Priced(d.positions)
  {
    CloseAll(d.(killed := true), cfg, d.positions, now)
  }

  /** Close these positions one by one, each at its own current price. */
  function CloseAll(d: Desk, cfg: Config, targets: seq<Position>, now: int): (Desk, seq<Position>)
    requires Priced(d.positions)
    decreases |targets|
  {
    if targets == [] then (d, [])
    else
      var (next, closed) := ClosePosition(d, cfg, targets[0].exchange, targets[0].symbol, targets[0].currentPrice, now);
      var (last, others) := CloseAll(next, cfg, targets[1..], now);
      (last, (if closed.Some? then [closed.value] else []) + others)
  }

  function MarkAt(d: Desk, cfg: Config, exchange: string, symbol: string, price: real, heldSeconds: int): (Desk, Exit)
    requires Priced(d.positions)
  {
    var i := Find(d.positions, exchange, symbol);
    if i == |d.positions| then (d, NoExit)
    else
      var (marked, exit) := Tick(d.positions[i], cfg.rules, price, heldSeconds);
      (d.(positions := d.positions[i := marked]), exit)
  }
}
