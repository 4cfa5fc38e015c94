/** The mutable risk manager of execution/risk_manager.py. */
module RiskManagement {
  import opened Prelude
  import opened Positions
  import opened RiskDesk
  import VR = ValueAtRisk

  /** The daily-loss and drawdown breaker. */
  class LossGuard {
    var state: LossBreaker
    const limits: LossLimits

    constructor (limits: LossLimits)
      ensures this.limits == limits && state == LossBreaker(0.0, 0.0, false, 0)
    {
      this.limits := limits;
      state := LossBreaker(0.0, 0.0, false, 0);
    }

    method OnResult(pnlPct: real, equity: real, now: int) returns (tripped: bool)
      modifies this
      ensures state == RiskDesk.RecordPnl(old(state), limits, pnlPct, equity, now) && tripped == state.tripped
    {
      state := state.(dailyLoss := state.dailyLoss + MinReal(0.0, pnlPct));
      if equity > state.peakEquity {
        state := state.(peakEquity := equity);
      }
      var drawdown := if state.peakEquity > 0.0 then (state.peakEquity - equity) / state.peakEquity else 0.0;
      if AbsReal(state.dailyLoss) >= limits.maxDailyLoss {
        state := state.(tripped := true, tripTime := now);
      }
      if drawdown >= limits.maxDrawdown {
        state := state.(tripped := true, tripTime := now);
      }
      tripped := state.tripped;
    }

    method IsTripped(now: int) returns (tripped: bool)
      modifies this
      ensures state == ReadTripped(old(state), limits, now) && tripped == state.tripped
    {
      if state.tripped && limits.pauseSeconds > 0 {
        if now - state.tripTime >= limits.pauseSeconds {
          state := state.(tripped := false);
        }
      }
      tripped := state.tripped;
    }
  }

  class RiskManager {
    var positions: seq<Position>
    var equity: real
    var history: seq<real>
    var lastTrade: map<string, int>
    var killed: bool
    const guard: LossGuard
    const cfg: Config

    ghost function State(): Desk
      reads this, guard
    {
      Desk(positions, equity, history, lastTrade, killed, guard.state)
    }

    ghost predicate Valid()
      reads this
    {
      Priced(positions) && guard.limits == cfg.losses
    }

    constructor (cfg: Config, initialEquity: real)
      ensures Valid() && this.cfg == cfg && fresh(guard) && State() == NewDesk(initialEquity)
    {
      this.cfg := cfg;
      positions, equity, history, lastTrade, killed := [], initialEquity, [], map[], false;
      guard := new LossGuard(cfg.losses);
    }

    method ApproveSignal(s: Signal, now: int, minute: int) returns (verdict: Verdict)
      requires Valid()
      modifies guard
      ensures Valid() && (State(), verdict) == Approve(old(State()), cfg, s, now, minute)
    {
      hide Judge;
      if !killed {
        var tripped := guard.IsTripped(now);
      }
      verdict := Judge(Desk(positions, equity, history, lastTrade, killed, guard.state), cfg, s, now, minute);
    }

    /** Opens at any price; a position whose price is not positive has size zero, and one opened at price zero cannot
        be marked. */
    method Open(s: Signal, size: real, now: int)
      requires Valid()
      modifies this
      ensures State() == OpenPosition(old(State()), cfg, s, size, now)
      ensures Valid() <==> s.price != 0.0
    {
      hide Stops;
      var p := PositionOf(cfg, s, size, now);
      var i := Find(positions, s.exchange, s.symbol);
      positions := if i < |positions| then positions[i := p] else positions + [p];
      lastTrade := lastTrade[s.symbol := now];
      assert positions[i] == p;
    }

    method Close(exchange: string, symbol: string, price: real, now: int) returns (closed: Option<Position>)
      requires Valid()
      modifies this, guard
      ensures Valid() && (State(), closed) == ClosePosition(old(State()), cfg, exchange, symbol, price, now)
    {
      hide UpdatePrice, VR.RecordReturn, RiskDesk.RecordPnl, Find;
      var i := Find(positions, exchange, symbol);
      if i == |positions| {
        return None;
      }
      assert positions[i] in positions;
      var p := UpdatePrice(positions[i], price);
      positions := positions[..i] + positions[i + 1..];
      equity := equity + p.pnl;
      history := VR.RecordReturn(history, cfg.returnsWindow, p.pnlPct);
      var tripped := guard.OnResult(p.pnlPct, equity, now);
      lastTrade := lastTrade[symbol := now];
      closed := Some(p);
    }

    method ActivateKillSwitch(now: int) returns (closed: seq<Position>)
      requires Valid()
      modifies this, guard
      ensures Valid() && (State(), closed) == Kill(old(State()), cfg, now)
    {
      hide ClosePosition;
      killed := true;
      closed := [];
      var targets := positions;
      ghost var start := State();
      assert targets[0..] == targets;
      ghost var all := CloseAll(start, cfg, targets, now).1;
      assert [] + all == all;
      var i := 0;
      while i < |targets|
        invariant 0 <= i <= |targets| && Valid()
        invariant var (desk, rest) := CloseAll(State(), cfg, targets[i..], now);
                  CloseAll(start, cfg, targets, now) == (desk, closed + rest)
      {
        assert targets[i..][1..] == targets[i + 1..];
        ghost var sofar := closed;
        var one := Close(targets[i].exchange, targets[i].symbol, targets[i].currentPrice, now);
        if one.Some? {
          closed := closed + [one.value];
        }
        ghost var rest := CloseAll(State(), cfg, targets[i + 1..], now).1;
        ghost var head := if one.Some? then [one.value] else [];
        assert sofar + (head + rest) == (sofar + head) + rest && sofar + [] == sofar;
        i := i + 1;
      }
      assert closed + [] == closed;
    }

    method DeactivateKillSwitch()
      requires Valid()
      modifies this`killed
      ensures Valid() && State() == old(State()).(killed := false)
    {
      killed := false;
    }

    method UpdatePrices(exchange: string, symbol: string, price: real, heldSeconds: int) returns (exit: Exit)
      requires Valid()
      modifies this`positions
      ensures Valid() && (State(), exit) == MarkAt(old(State()), cfg, exchange, symbol, price, heldSeconds)
    {
      exit := NoExit;
      var i := Find(positions, exchange, symbol);
      if i < |positions| {
        assert positions[i] in positions;
        var holding := new Holding(positions[i]);
        exit := holding.OnPrice(cfg.rules, price, heldSeconds);
        assert holding.position.entryPrice == positions[i].entryPrice;
        hide Tick;
        positions := positions[i := holding.position];
      }
    }
  }
}
