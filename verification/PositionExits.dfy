/** Which exit a tick announces, after any price path. */
module PositionExits {
  import opened Prelude
  import opened RealProducts
  import opened Positions

  /** The price is at the stop or beyond it, on the losing side. */
  predicate StoppedAt(isLong: bool, price: real, stop: real) {
    price == stop || (isLong <==> price < stop)
  }

  /** The price is at the target or beyond it, on the winning side. */
  predicate ReachedAt(isLong: bool, price: real, target: real) {
    price == target || (isLong <==> price > target)
  }

  lemma TickKeepsTarget(p: Position, rules: StopRules, price: real, held: int)
    requires p.entryPrice != 0.0
    ensures var q := Tick(p, rules, price, held).0;
            q.takeProfit == p.takeProfit && q.isLong == p.isLong && q.currentPrice == price
  {
    UpdateKeepsTarget(p, price);
    ManageKeepsTarget(UpdatePrice(p, price), rules, held);
    hide UpdatePrice, Manage;
  }

  lemma UpdateKeepsTarget(p: Position, price: real)
    requires p.entryPrice != 0.0
    ensures var q := UpdatePrice(p, price);
            && q.takeProfit == p.takeProfit && q.isLong == p.isLong && q.currentPrice == price
            && q.stopLoss == p.stopLoss
  {
    hide Times, ReturnAt;
  }

  lemma ManageKeepsTarget(p: Position, rules: StopRules, held: int)
    ensures var q := Manage(p, rules, held).0;
            q.takeProfit == p.takeProfit && q.isLong == p.isLong && q.currentPrice == p.currentPrice
  {
    hide Times, ProfitInAtr;
  }

  lemma {:induction false} FollowKeepsTarget(p: Position, rules: StopRules, prices: seq<real>)
    requires p.entryPrice != 0.0
    ensures var q := Follow(p, rules, prices); q.takeProfit == p.takeProfit && q.isLong == p.isLong
  {
    if prices != [] {
      FollowKeepsTarget(p, rules, Front(prices));
      TickKeepsTarget(Follow(p, rules, Front(prices)), rules, Last(prices), 0);
      hide Tick;
    }
  }

  lemma ExitOf(p: Position, rules: StopRules, price: real, held: int)
    requires p.entryPrice != 0.0 && !(rules.maxHoldMinutes > 0 && held >= rules.maxHoldMinutes * 60)
    ensures var (q, exit) := Tick(p, rules, price, held);
            var stopped := StoppedAt(p.isLong, price, q.stopLoss);
            && (exit.TrailingStop? <==> stopped && q.trailingActive)
            && (exit.StopLoss? <==> stopped && !q.trailingActive)
            && (exit.TakeProfit? <==> !stopped && ReachedAt(p.isLong, price, p.takeProfit))
            && !exit.TimeExit?
  {
    TickKeepsTarget(p, rules, price, held);
    hide UpdatePrice, Trail, MoveToBreakeven;
  }

  /** MAIN: after any price path, the last tick announces a stop exactly when its price is at or beyond the stop that
      the best price on the path calls for, a trailing one if that best price activated the trail; failing that, it
      announces the target exactly when its price is at or beyond it. */
  lemma ExitIsOfThePath(p: Position, rules: StopRules, prices: seq<real>)
    requires Opened(p) && rules.maxHoldMinutes <= 0 && prices != []
    ensures var exit := Tick(Follow(p, rules, Front(prices)), rules, Last(prices), 0).1;
            var best := BestSeen(p, prices);
            var stopped := StoppedAt(p.isLong, Last(prices), StopFor(p, rules, best));
            var trailing := AtLeast(p, best, Level(p, rules.trailingActivationAtr));
            && (exit.TrailingStop? <==> stopped && trailing)
            && (exit.StopLoss? <==> stopped && !trailing)
            && (exit.TakeProfit? <==> !stopped && ReachedAt(p.isLong, Last(prices), p.takeProfit))
            && !exit.TimeExit?
  {
    StopIsPathIndependent(p, rules, prices);
    FollowKeepsTarget(p, rules, Front(prices));
    ExitOf(Follow(p, rules, Front(prices)), rules, Last(prices), 0);
    FollowUnfolds(p, rules, prices);
    hide Tick, Follow, StopFor, BestSeen, AtLeast, Level;
  }

  lemma FollowUnfolds(p: Position, rules: StopRules, prices: seq<real>)
    requires p.entryPrice != 0.0 && prices != []
    ensures Follow(p, rules, prices) == Tick(Follow(p, rules, Front(prices)), rules, Last(prices), 0).0
  {
  }

  /** A position held for its longest time is announced as such, whatever its price, and its stop is left alone; held
      for less, it is managed as if there were no limit. */
  lemma TimeExitIff(p: Position, rules: StopRules, price: real, held: int)
    requires p.entryPrice != 0.0
    ensures var (q, exit) := Tick(p, rules, price, held);
            && (exit.TimeExit? <==> rules.maxHoldMinutes >= 1 && held >= 60 * rules.maxHoldMinutes)
            && if exit.TimeExit? then q.stopLoss == p.stopLoss && q.currentPrice == price
               else (q, exit) == Tick(p, rules.(maxHoldMinutes := 0), price, 0)
  {
    UpdateKeepsTarget(p, price);
    ManagedAlike(UpdatePrice(p, price), rules);
    hide UpdatePrice, Trail, MoveToBreakeven, StopHit, TargetHit;
  }

  lemma ManagedAlike(p: Position, rules: StopRules)
    ensures var unlimited := rules.(maxHoldMinutes := 0);
            Trail(MoveToBreakeven(p, rules), rules) == Trail(MoveToBreakeven(p, unlimited), unlimited)
  {
    hide Times, ProfitInAtr;
  }

  // ---------------------------------------------------------------- the recorded trailing stop

  /** Tighter than the entry price, so that being stopped there is a profit. */
  predicate Locks(p: Position, stop: real) {
    if p.isLong then stop > p.entryPrice else stop < p.entryPrice
  }

  /** A stop that locks a profit is the recorded trailing stop; otherwise none has been recorded since `initial`. */
  predicate TrailRecorded(p: Position, initial: real) {
    && p.entryPrice > 0.0 && (p.breakevenMoved ==> p.stopLoss == p.entryPrice || Locks(p, p.stopLoss))
    && if Locks(p, p.stopLoss) then p.trailingStop == p.stopLoss && p.breakevenMoved else p.trailingStop == initial
  }

  lemma TrailStaysRecorded(p: Position, rules: StopRules, initial: real)
    requires TrailRecorded(p, initial) && rules.breakevenTriggerAtr <= rules.trailingActivationAtr
    ensures TrailRecorded(Trail(MoveToBreakeven(p, rules), rules), initial)
  {
    SameProfit(p, MoveToBreakeven(p, rules));
    hide Times, ProfitInAtr;
  }

  lemma UpdateKeepsTrail(p: Position, price: real, initial: real)
    requires TrailRecorded(p, initial)
    ensures TrailRecorded(UpdatePrice(p, price), initial)
  {
    hide Times, ReturnAt;
  }

  /** After any price path the position's recorded trailing stop is its stop, once that locks a profit; before that,
      none has been recorded. */
  lemma {:induction false} TrailingStopIsStop(p: Position, rules: StopRules, prices: seq<real>)
    requires Opened(p) && rules.maxHoldMinutes <= 0 && rules.breakevenTriggerAtr <= rules.trailingActivationAtr
    requires if p.isLong then p.stopLoss <= p.entryPrice else p.stopLoss >= p.entryPrice
    ensures TrailRecorded(Follow(p, rules, prices), p.trailingStop)
  {
    hide Tick, TrailRecorded, Trail, MoveToBreakeven, UpdatePrice;
    if prices == [] {
      NothingRecorded(p);
    } else {
      TrailingStopIsStop(p, rules, Front(prices));
      var q := Follow(p, rules, Front(prices));
      TickManages(q, rules, Last(prices));
      UpdateKeepsTrail(q, Last(prices), p.trailingStop);
      TrailStaysRecorded(UpdatePrice(q, Last(prices)), rules, p.trailingStop);
    }
  }

  lemma NothingRecorded(p: Position)
    requires Opened(p) && if p.isLong then p.stopLoss <= p.entryPrice else p.stopLoss >= p.entryPrice
    ensures TrailRecorded(p, p.trailingStop)
  {
  }
}
