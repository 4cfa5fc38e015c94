/** What approval means: the exact condition, the first gate that fails, and the size. */
module RiskApproval {
  import opened Prelude
  import opened RealProducts
  import opened RiskDesk
  import VR = ValueAtRisk

  // ---------------------------------------------------------------- the size

  /** The most that the position cap allows. */
  function CapOf(equity: real, cfg: Config): real {
    equity * cfg.maxPositionPct * cfg.leverage
  }

  /** The most that a position may lose at its stop, times the price. */
  function BudgetOf(equity: real, cfg: Config, s: Signal): real {
    equity * cfg.riskPerTrade * cfg.leverage * s.price
  }

  /** A notional that the position cap allows and, under risk-based sizing, loses no more at the signal's stop than
      the leveraged budget. */
  predicate Affordable(equity: real, cfg: Config, s: Signal, x: real) {
    || x <= 0.0
    || (s.stopLoss != s.price
        && x <= CapOf(equity, cfg)
        && (cfg.riskBasedSizing ==> Times(x, AbsReal(s.price - s.stopLoss)) <= BudgetOf(equity, cfg, s)))
  }

  ghost predicate LargestSize(equity: real, cfg: Config, s: Signal, size: real) {
    forall x: real :: Affordable(equity, cfg, s, x) <==> x <= size
  }

  /** Sizing would divide by a price of zero. */
  predicate Raises(cfg: Config, s: Signal) {
    cfg.riskBasedSizing && s.price == 0.0 && s.stopLoss != 0.0
  }

  lemma QuotientOfQuotient(budget: real, distance: real, price: real, leverage: real)
    requires distance != 0.0 && price != 0.0
    ensures Times(budget / (distance / price) * leverage, distance) == budget * leverage * price
  {
    var rate := distance / price;
    var notional := budget / rate;
    assert rate * price == distance;
    assert notional * rate == budget;
    assert notional * distance == budget * price by {
      assert notional * (rate * price) == (notional * rate) * price;
    }
    assert (notional * leverage) * distance == (notional * distance) * leverage;
  }

  lemma ComparesTimes(x: real, y: real, distance: real)
    requires distance > 0.0
    ensures x <= y <==> Times(x, distance) <= Times(y, distance)
  {
    if x <= y {
      TimesMonotone(x, y, distance);
    } else {
      TimesStrict(y, x, distance);
    }
  }

  lemma WithinBudget(equity: real, cfg: Config, s: Signal, x: real)
    requires s.stopLoss != s.price && s.price != 0.0
    ensures Times(x, AbsReal(s.price - s.stopLoss)) <= BudgetOf(equity, cfg, s)
       <==> x <= Times(RiskNotional(equity, cfg, s), cfg.leverage)
  {
    var distance, budget := AbsReal(s.price - s.stopLoss), equity * cfg.riskPerTrade;
    QuotientOfQuotient(budget, distance, s.price, cfg.leverage);
    hide Times;
    ComparesTimes(x, Times(RiskNotional(equity, cfg, s), cfg.leverage), distance);
    TimesIs(RiskNotional(equity, cfg, s), cfg.leverage);
  }

  lemma TimesIs(a: real, b: real)
    ensures Times(a, b) == a * b
  {
  }

  lemma SizeUnfolds(equity: real, cfg: Config, s: Signal)
    requires cfg.riskBasedSizing && s.stopLoss != s.price && s.price != 0.0
    ensures PositionSize(equity, cfg, s)
         == MaxReal(0.0, MinReal(Times(RiskNotional(equity, cfg, s), cfg.leverage), CapOf(equity, cfg)))
  {
    hide RiskNotional;
  }

  lemma RiskedSize(equity: real, cfg: Config, s: Signal, x: real)
    requires cfg.riskBasedSizing && s.stopLoss != s.price && s.price != 0.0
    ensures Affordable(equity, cfg, s, x) <==> x <= PositionSize(equity, cfg, s)
  {
    hide Times, RiskNotional, CapOf, BudgetOf, PositionSize;
    WithinBudget(equity, cfg, s, x);
    SizeUnfolds(equity, cfg, s);
  }

  /** MAIN: the size is the largest affordable notional. */
  lemma SizeIsLargest(equity: real, cfg: Config, s: Signal)
    requires !Raises(cfg, s)
    ensures Sizable(cfg, s) && LargestSize(equity, cfg, s, PositionSize(equity, cfg, s))
  {
    hide Affordable, PositionSize;
    if s.stopLoss == s.price || !cfg.riskBasedSizing {
      PlainSize(equity, cfg, s);
    } else {
      forall x: real
        ensures Affordable(equity, cfg, s, x) <==> x <= PositionSize(equity, cfg, s)
      {
        RiskedSize(equity, cfg, s, x);
      }
    }
  }

  lemma PlainSize(equity: real, cfg: Config, s: Signal)
    requires s.stopLoss == s.price || !cfg.riskBasedSizing
    ensures LargestSize(equity, cfg, s, PositionSize(equity, cfg, s))
  {
    hide Times;
  }

  lemma LargestIsUnique(equity: real, cfg: Config, s: Signal, a: real, b: real)
    requires LargestSize(equity, cfg, s, a) && LargestSize(equity, cfg, s, b)
    ensures a == b
  {
    hide Affordable;
    assert Affordable(equity, cfg, s, a) && Affordable(equity, cfg, s, b);
  }

  // ---------------------------------------------------------------- the gates

  /** The loss breaker has tripped and its pause, if it has one, has not run out. */
  predicate Halted(b: LossBreaker, limits: LossLimits, now: int) {
    b.tripped && (limits.pauseSeconds <= 0 || now < b.tripTime + limits.pauseSeconds)
  }

  /** Minutes of the day from the session's start to its end, which may lie after midnight. */
  predicate WithinHours(cfg: Config, minute: int) {
    || (cfg.sessionStart == 0 && cfg.sessionEnd == 1439)
    || (cfg.sessionStart <= minute <= cfg.sessionEnd)
    || (cfg.sessionEnd < cfg.sessionStart && (minute >= cfg.sessionStart || minute <= cfg.sessionEnd))
  }

  /** A session is one arc of the day: no later after its start than its end is. */
  lemma SessionIsAnArc(cfg: Config, minute: int)
    requires 0 <= cfg.sessionStart < 1440 && 0 <= cfg.sessionEnd < 1440 && 0 <= minute < 1440
    ensures SessionOpen(cfg, minute)
       <==> (minute - cfg.sessionStart) % 1440 <= (cfg.sessionEnd - cfg.sessionStart) % 1440
  {
    Turn(minute - cfg.sessionStart);
    Turn(cfg.sessionEnd - cfg.sessionStart);
  }

  lemma Turn(n: int)
    requires -1440 < n < 1440
    ensures n % 1440 == if n >= 0 then n else n + 1440
  {
  }

  /** The second a symbol was last opened or closed, or the epoch. */
  function LastTouch(d: Desk, symbol: string): int {
    if symbol in d.lastTrade then d.lastTrade[symbol] else 0
  }

  /** A gate fails, for a signal whose largest affordable notional is `size`. */
  ghost predicate Fails(d: Desk, cfg: Config, s: Signal, now: int, minute: int, size: real, gate: Refusal) {
    match gate
    case KillSwitch => d.killed
    case LossBreakerTripped => Halted(d.breaker, cfg.losses, now)
    case AlreadyInPosition => exists p | p in d.positions :: p.exchange == s.exchange && p.symbol == s.symbol
    case TooManyPositions => |d.positions| >= cfg.maxOpen
    case ScoreTooLow => s.score < 0.5
    case PoorRiskReward => s.riskReward < 1.5
    case OutsideSession => !WithinHours(cfg, minute)
    case Cooldown => now < LastTouch(d, s.symbol) + cfg.cooldownSeconds
    case SpreadTooWide => s.spreadBps > MaxReal(0.0, cfg.maxSpreadBps)
    case TooVolatile => s.price > 0.0 && s.atr > Times(cfg.maxAtrPct, s.price)
    case NothingToSize => size <= 0.0
    case SymbolExposure => size > d.equity * cfg.maxExposurePerSymbol
    case VarLimit =>
      |d.history| >= cfg.varMinHistory && d.equity > 0.0
      && size > Times(cfg.maxPortfolioVar - VR.VaR(d.history, 0.95), d.equity)
  }

  /** The order in which the gates are tried. */
  function Rank(gate: Refusal): nat {
    match gate
    case KillSwitch => 0
    case LossBreakerTripped => 1
    case AlreadyInPosition => 2
    case TooManyPositions => 3
    case ScoreTooLow => 4
    case PoorRiskReward => 5
    case OutsideSession => 6
    case Cooldown => 7
    case SpreadTooWide => 8
    case TooVolatile => 9
    case NothingToSize => 10
    case SymbolExposure => 11
    case VarLimit => 12
  }

  /** This gate fails and every gate before it passes; the last three look at a computed size. */
  ghost predicate FailsFirst(d: Desk, cfg: Config, s: Signal, now: int, minute: int, size: real, gate: Refusal) {
    && Fails(d, cfg, s, now, minute, size, gate)
    && (Rank(gate) >= Rank(NothingToSize) ==> !Raises(cfg, s))
    && forall g | Rank(g) < Rank(gate) :: !Fails(d, cfg, s, now, minute, size, g)
  }

  lemma HeldIff(ps: seq<Positions.Position>, exchange: string, symbol: string)
    ensures Find(ps, exchange, symbol) < |ps| <==> exists p | p in ps :: p.exchange == exchange && p.symbol == symbol
  {
    var i := Find(ps, exchange, symbol);
    if i < |ps| {
      assert ps[i] in ps;
    }
  }

  lemma RatioExceeds(a: real, b: real, bound: real)
    requires b > 0.0
    ensures a / b > bound <==> a > Times(bound, b)
  {
    var ratio := a / b;
    assert ratio * b == a;
    hide Times;
    ComparesTimes(ratio, bound, b);
    TimesIs(ratio, b);
  }

  /** The gates before the size ask the desk, the clock and the signal. */
  lemma GatesAgree(d: Desk, cfg: Config, s: Signal, now: int, minute: int, size: real)
    ensures var read := Approve(d, cfg, s, now, minute).0;
            && (!d.killed ==> (read.breaker.tripped <==> Halted(d.breaker, cfg.losses, now)))
            && (Find(d.positions, s.exchange, s.symbol) < |d.positions|
                <==> Fails(d, cfg, s, now, minute, size, AlreadyInPosition))
            && (SessionOpen(cfg, minute) <==> WithinHours(cfg, minute))
            && (Cooling(read, cfg, s.symbol, now) <==> now < LastTouch(d, s.symbol) + cfg.cooldownSeconds)
            && (s.price > 0.0 && s.atr / s.price > cfg.maxAtrPct <==> Fails(d, cfg, s, now, minute, size, TooVolatile))
  {
    hide Judge, VR.VaR, Times;
    HeldIff(d.positions, s.exchange, s.symbol);
    if s.price > 0.0 {
      RatioExceeds(s.atr, s.price, cfg.maxAtrPct);
    }
  }

  /** Either some gate before the size fails first, or they all pass and the size decides. */
  lemma UnsizedVerdict(d: Desk, cfg: Config, s: Signal, now: int, minute: int, size: real)
    ensures var verdict := Approve(d, cfg, s, now, minute).1;
            || (verdict.Refused? && Rank(verdict.reason) < Rank(NothingToSize)
                && FailsFirst(d, cfg, s, now, minute, size, verdict.reason))
            || (verdict == JudgeSize(d, cfg, s)
                && forall g | Rank(g) < Rank(NothingToSize) :: !Fails(d, cfg, s, now, minute, size, g))
  {
    GatesAgree(d, cfg, s, now, minute, size);
    SizeIgnoresReading(d, cfg, s, now, minute);
    hide VR.VaR, Times, JudgeSize, Find, SessionOpen, WithinHours, Cooling, LastTouch;
    hide Halted, ReadTripped;
  }

  lemma SizeIgnoresReading(d: Desk, cfg: Config, s: Signal, now: int, minute: int)
    ensures JudgeSize(Approve(d, cfg, s, now, minute).0, cfg, s) == JudgeSize(d, cfg, s)
  {
    hide VR.VaR, PositionSize, Judge;
  }

  lemma SizedVerdict(d: Desk, cfg: Config, s: Signal, size: real)
    requires LargestSize(d.equity, cfg, s, size)
    ensures JudgeSize(d, cfg, s)
         == if Raises(cfg, s) then DividedByZero
            else if size <= 0.0 then Refused(NothingToSize)
            else if size > d.equity * cfg.maxExposurePerSymbol then Refused(SymbolExposure)
            else if BreachesVar(d.history, d.equity, cfg, size) then Refused(VarLimit)
            else Approved(size)
  {
    if !Raises(cfg, s) {
      SizeIsLargest(d.equity, cfg, s);
      LargestIsUnique(d.equity, cfg, s, size, PositionSize(d.equity, cfg, s));
    }
    hide LargestSize, VR.VaR, PositionSize, BreachesVar;
  }

  lemma SizeGatesAgree(d: Desk, cfg: Config, s: Signal, now: int, minute: int, size: real)
    ensures && (size <= 0.0 <==> Fails(d, cfg, s, now, minute, size, NothingToSize))
            && (size > d.equity * cfg.maxExposurePerSymbol <==> Fails(d, cfg, s, now, minute, size, SymbolExposure))
            && (BreachesVar(d.history, d.equity, cfg, size) <==> Fails(d, cfg, s, now, minute, size, VarLimit))
  {
    hide VR.VaR, Times;
    if d.equity > 0.0 {
      RatioExceeds(size, d.equity, cfg.maxPortfolioVar - VR.VaR(d.history, 0.95));
    }
  }

  lemma SizeDecides(d: Desk, cfg: Config, s: Signal, now: int, minute: int, size: real)
    requires LargestSize(d.equity, cfg, s, size)
    requires forall g | Rank(g) < Rank(NothingToSize) :: !Fails(d, cfg, s, now, minute, size, g)
    ensures match JudgeSize(d, cfg, s)
            case Refused(gate) => FailsFirst(d, cfg, s, now, minute, size, gate)
            case Approved(x) => x == size && !Raises(cfg, s)
                                && forall g: Refusal :: !Fails(d, cfg, s, now, minute, size, g)
            case DividedByZero => Raises(cfg, s)
  {
    SizedVerdict(d, cfg, s, size);
    SizeGatesAgree(d, cfg, s, now, minute, size);
    hide LargestSize, JudgeSize, BreachesVar, Raises, Fails;
  }

  /** MAIN: a signal is approved, for the largest affordable notional, exactly when every gate passes; it is refused
      for the first gate that fails; and sizing raises exactly when it is reached at a price of zero. */
  lemma VerdictIs(d: Desk, cfg: Config, s: Signal, now: int, minute: int, size: real)
    requires LargestSize(d.equity, cfg, s, size)
    ensures var verdict := Approve(d, cfg, s, now, minute).1;
            && (verdict.Approved? ==> verdict.size == size)
            && (verdict.Approved? <==>
                  !Raises(cfg, s) && forall g: Refusal :: !Fails(d, cfg, s, now, minute, size, g))
            && (forall g: Refusal :: verdict == Refused(g) <==> FailsFirst(d, cfg, s, now, minute, size, g))
  {
    UnsizedVerdict(d, cfg, s, now, minute, size);
    hide LargestSize, Approve, Fails, JudgeSize, BreachesVar, Raises;
    if forall g | Rank(g) < Rank(NothingToSize) :: !Fails(d, cfg, s, now, minute, size, g) {
      SizeDecides(d, cfg, s, now, minute, size);
    }
  }

  /** Every signal has a largest affordable notional; it is zero where sizing would raise. */
  lemma SomeSize(equity: real, cfg: Config, s: Signal) returns (size: real)
    ensures LargestSize(equity, cfg, s, size)
  {
    if Raises(cfg, s) {
      size := 0.0;
      forall x: real
        ensures Affordable(equity, cfg, s, x) <==> x <= 0.0
      {
        NothingAtPriceZero(equity, cfg, s, x);
      }
    } else {
      size := PositionSize(equity, cfg, s);
      SizeIsLargest(equity, cfg, s);
    }
  }

  lemma NothingAtPriceZero(equity: real, cfg: Config, s: Signal, x: real)
    requires Raises(cfg, s)
    ensures Affordable(equity, cfg, s, x) <==> x <= 0.0
  {
    if x > 0.0 {
      TimesStrict(0.0, x, AbsReal(s.price - s.stopLoss));
      TimesUnits(AbsReal(s.price - s.stopLoss));
      hide Times, CapOf;
    }
  }

  /** A tripped breaker whose pause has not run out refuses every signal and stays tripped. */
  lemma HaltedRefuses(d: Desk, cfg: Config, s: Signal, now: int, minute: int)
    requires Halted(d.breaker, cfg.losses, now)
    ensures Approve(d, cfg, s, now, minute).1.Refused? && Approve(d, cfg, s, now, minute).0 == d
  {
    var size := SomeSize(d.equity, cfg, s);
    VerdictIs(d, cfg, s, now, minute, size);
    assert Fails(d, cfg, s, now, minute, size, LossBreakerTripped);
    hide LargestSize, VR.VaR, Times;
  }
}
