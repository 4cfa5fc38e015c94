/** Open positions of execution/risk_manager.py: marking to a price and managing the stop. */
module Positions {
  import opened Prelude
  import opened RealProducts

  datatype Position = Position(
    exchange: string,
    symbol: string,
    isLong: bool,
    size: real,
    entryPrice: real,
    currentPrice: real,
    stopLoss: real,
    takeProfit: real,
    openTime: int,
    pnl: real,
    pnlPct: real,
    trailingActive: bool,
    trailingStop: real,
    breakevenMoved: bool,
    highestSinceEntry: real,
    lowestSinceEntry: real)

  /** Distances in multiples of the fallback ATR; `maxHoldMinutes` of zero or less turns time exits off. */
  datatype StopRules = StopRules(
    breakevenTriggerAtr: real,
    trailingActivationAtr: real,
    trailingDistanceAtr: real,
    maxHoldMinutes: int)

  function ReturnAt(isLong: bool, entry: real, price: real): real
    requires entry != 0.0
  {
    if isLong then (price - entry) / entry else (entry - price) / entry
  }

  function UpdatePrice(p: Position, price: real): Position
    requires p.entryPrice != 0.0
  {
    var pct := ReturnAt(p.isLong, p.entryPrice, price);
    var marked := p.(currentPrice := price, pnlPct := pct, pnl := Times(Times(pct, p.size), p.entryPrice));
    if p.isLong then
      if price > p.highestSinceEntry then marked.(highestSinceEntry := price) else marked
    else if price < p.lowestSinceEntry then marked.(lowestSinceEntry := price) else marked
  }

  /** The stop management after a price update; the flag says that the position must be closed on time. */
  function Manage(p: Position, rules: StopRules, heldSeconds: int): (Position, bool) {
    if rules.maxHoldMinutes > 0 && heldSeconds >= rules.maxHoldMinutes * 60 then (p, true)
    else (Trail(MoveToBreakeven(p, rules), rules), false)
  }

  function Atr(p: Position): real {
    p.entryPrice * 0.01
  }

  function ProfitInAtr(p: Position): real {
    if Atr(p) <= 0.0 then 0.0
    else if p.isLong then (p.currentPrice - p.entryPrice) / Atr(p)
    else (p.entryPrice - p.currentPrice) / Atr(p)
  }

  function MoveToBreakeven(p: Position, rules: StopRules): Position {
    if !p.breakevenMoved && ProfitInAtr(p) >= rules.breakevenTriggerAtr
    then p.(stopLoss := p.entryPrice, breakevenMoved := true)
    else p
  }

  function Trail(p: Position, rules: StopRules): Position {
    if ProfitInAtr(p) >= rules.trailingActivationAtr then
      var active := p.(trailingActive := true);
      if p.isLong then
        var trail := p.highestSinceEntry - Times(Atr(p), rules.trailingDistanceAtr);
        if trail > p.stopLoss then active.(stopLoss := trail, trailingStop := trail) else active
      else
        var trail := p.lowestSinceEntry + Times(Atr(p), rules.trailingDistanceAtr);
        if trail < p.stopLoss then active.(stopLoss := trail, trailingStop := trail) else active
    else p
  }

  predicate StopHit(p: Position) {
    if p.isLong then p.currentPrice <= p.stopLoss else p.currentPrice >= p.stopLoss
  }

  predicate TargetHit(p: Position) {
    if p.isLong then p.currentPrice >= p.takeProfit else p.currentPrice <= p.takeProfit
  }

  datatype Exit = NoExit | TimeExit | TrailingStop | StopLoss | TakeProfit

  /** One tick: mark, manage, and name the exit to announce. */
  function Tick(p: Position, rules: StopRules, price: real, heldSeconds: int): (Position, Exit)
    requires p.entryPrice != 0.0
  {
    var (managed, expired) := Manage(UpdatePrice(p, price), rules, heldSeconds);
    (managed,
     if expired then TimeExit
     else if StopHit(managed) then (if managed.trailingActive then TrailingStop else StopLoss)
     else if TargetHit(managed) then TakeProfit
     else NoExit)
  }

  /** The position object, updated in place. */
  class Holding {
    var position: Position

    constructor (position: Position)
      ensures this.position == position
    {
      this.position := position;
    }

    method OnPrice(rules: StopRules, price: real, heldSeconds: int) returns (exit: Exit)
      requires position.entryPrice != 0.0
      modifies this
      ensures (position, exit) == Tick(old(position), rules, price, heldSeconds)
    {
      MarkTo(price);
      var expired := ManageStop(rules, heldSeconds);
      if expired {
        exit := TimeExit;
      } else if StopHit(position) {
        exit := if position.trailingActive then TrailingStop else StopLoss;
      } else if TargetHit(position) {
        exit := TakeProfit;
      } else {
        exit := NoExit;
      }
    }

    method MarkTo(price: real)
      requires position.entryPrice != 0.0
      modifies this
      ensures position == UpdatePrice(old(position), price)
    {
      var entry := position.entryPrice;
      position := position.(currentPrice := price);
      if position.isLong {
        position := position.(pnlPct := (price - entry) / entry);
        if price > position.highestSinceEntry {
          position := position.(highestSinceEntry := price);
        }
      } else {
        position := position.(pnlPct := (entry - price) / entry);
        if price < position.lowestSinceEntry {
          position := position.(lowestSinceEntry := price);
        }
      }
      position := position.(pnl := position.pnlPct * position.size * entry);
    }

    method ManageStop(rules: StopRules, heldSeconds: int) returns (expired: bool)
      modifies this
      ensures (position, expired) == Manage(old(position), rules, heldSeconds)
    {
      if rules.maxHoldMinutes > 0 && heldSeconds >= rules.maxHoldMinutes * 60 {
        return true;
      }
      var profit := ProfitInAtr(position);
      if !position.breakevenMoved && profit >= rules.breakevenTriggerAtr {
        position := position.(stopLoss := position.entryPrice);
        position := position.(breakevenMoved := true);
      }
      if profit >= rules.trailingActivationAtr {
        position := position.(trailingActive := true);
        var offset := Times(Atr(position), rules.trailingDistanceAtr);
        var extreme := if position.isLong then position.highestSinceEntry else position.lowestSinceEntry;
        var trail := if position.isLong then extreme - offset else extreme + offset;
        if (position.isLong && trail > position.stopLoss) || (!position.isLong && trail < position.stopLoss) {
          position := position.(stopLoss := trail, trailingStop := trail);
        }
      }
      expired := false;
    }
  }

  // ---------------------------------------------------------------- the stop does not depend on the path

  /** Just opened at its entry price. */
  predicate Opened(p: Position) {
    && p.entryPrice > 0.0 && p.currentPrice == p.entryPrice
    && p.highestSinceEntry == p.entryPrice && p.lowestSinceEntry == p.entryPrice
    && !p.breakevenMoved && !p.trailingActive
  }

  /** A position after a sequence of ticks. */
  function Follow(p: Position, rules: StopRules, prices: seq<real>): (q: Position)
    requires p.entryPrice != 0.0
    ensures q.entryPrice == p.entryPrice
  {
    if prices == [] then p else Tick(Follow(p, rules, Front(prices)), rules, Last(prices), 0).0
  }

  function Highest(prices: seq<real>): real
    requires prices != []
  {
    if |prices| == 1 then prices[0] else MaxReal(Highest(Front(prices)), Last(prices))
  }

  function Lowest(prices: seq<real>): real
    requires prices != []
  {
    if |prices| == 1 then prices[0] else MinReal(Lowest(Front(prices)), Last(prices))
  }

  /** The price at which a long (short) position is `multiple` ATRs in profit. */
  function Level(p: Position, multiple: real): real {
    if p.isLong then p.entryPrice + Times(Atr(p), multiple) else p.entryPrice - Times(Atr(p), multiple)
  }

  /** The best price seen, for the side the position is on. */
  function BestSeen(p: Position, prices: seq<real>): real
    requires prices != []
  {
    if p.isLong then Highest(prices) else Lowest(prices)
  }

  predicate AtLeast(p: Position, price: real, level: real) {
    if p.isLong then price >= level else price <= level
  }

  /** The stop as a function of the best price alone. */
  function StopFor(p: Position, rules: StopRules, best: real): real {
    var floor := if AtLeast(p, best, Level(p, rules.breakevenTriggerAtr)) then p.entryPrice else p.stopLoss;
    if !AtLeast(p, best, Level(p, rules.trailingActivationAtr)) then floor
    else if p.isLong then MaxReal(floor, MaxReal(p.entryPrice, best) - Times(Atr(p), rules.trailingDistanceAtr))
    else MinReal(floor, MinReal(p.entryPrice, best) + Times(Atr(p), rules.trailingDistanceAtr))
  }

  lemma ProfitReaches(p: Position, multiple: real)
    requires p.entryPrice > 0.0
    ensures ProfitInAtr(p) >= multiple <==> AtLeast(p, p.currentPrice, Level(p, multiple))
  {
    var gain := if p.isLong then p.currentPrice - p.entryPrice else p.entryPrice - p.currentPrice;
    QuotientReaches(gain, Atr(p), multiple);
  }

  lemma QuotientReaches(x: real, unit: real, multiple: real)
    requires unit > 0.0
    ensures x / unit >= multiple <==> x >= Times(unit, multiple)
  {
    var q := x / unit;
    assert x == Times(unit, q);
    if q >= multiple {
      TimesMonotone(multiple, q, unit);
    } else {
      TimesStrict(q, multiple, unit);
    }
  }

  /** What a run of ticks keeps: the running extremes, the breakeven flag and the stop, all read off the
      best price. */
  ghost predicate Tracks(p: Position, rules: StopRules, best: real, q: Position) {
    && q.entryPrice == p.entryPrice && q.isLong == p.isLong
    && (p.isLong ==> q.highestSinceEntry == MaxReal(p.entryPrice, best))
    && (!p.isLong ==> q.lowestSinceEntry == MinReal(p.entryPrice, best))
    && (q.breakevenMoved <==> AtLeast(p, best, Level(p, rules.breakevenTriggerAtr)))
    && (q.trailingActive <==> AtLeast(p, best, Level(p, rules.trailingActivationAtr)))
    && q.stopLoss == StopFor(p, rules, best)
  }

  lemma FirstTick(p: Position, rules: StopRules, price: real)
    requires Opened(p) && rules.maxHoldMinutes <= 0
    ensures Tracks(p, rules, price, Tick(p, rules, price, 0).0)
  {
    var marked := UpdatePrice(p, price);
    ProfitReaches(marked, rules.breakevenTriggerAtr);
    ProfitReaches(marked, rules.trailingActivationAtr);
    hide Times, ProfitInAtr, ReturnAt;
  }

  function Better(p: Position, best: real, price: real): real {
    if p.isLong then MaxReal(best, price) else MinReal(best, price)
  }

  /** A tick without a time limit only marks and manages the stop. */
  lemma TickManages(q: Position, rules: StopRules, price: real)
    requires q.entryPrice != 0.0 && rules.maxHoldMinutes <= 0
    ensures Tick(q, rules, price, 0).0 == Trail(MoveToBreakeven(UpdatePrice(q, price), rules), rules)
  {
    hide UpdatePrice, MoveToBreakeven, Trail, StopHit, TargetHit;
  }

  lemma NextTickLong(p: Position, rules: StopRules, best: real, q: Position, price: real)
    requires Opened(p) && p.isLong && rules.maxHoldMinutes <= 0 && Tracks(p, rules, best, q)
    ensures Tracks(p, rules, Better(p, best, price), Tick(q, rules, price, 0).0)
  {
    hide ProfitInAtr, ReturnAt, Times, Tick, Manage;
    TickManages(q, rules, price);
    var marked := UpdatePrice(q, price);
    ProfitReaches(marked, rules.breakevenTriggerAtr);
    ProfitReaches(marked, rules.trailingActivationAtr);
    SameProfit(marked, MoveToBreakeven(marked, rules));
  }

  lemma NextTickShort(p: Position, rules: StopRules, best: real, q: Position, price: real)
    requires Opened(p) && !p.isLong && rules.maxHoldMinutes <= 0 && Tracks(p, rules, best, q)
    ensures Tracks(p, rules, Better(p, best, price), Tick(q, rules, price, 0).0)
  {
    hide ProfitInAtr, ReturnAt, Times, Tick, Manage;
    TickManages(q, rules, price);
    var marked := UpdatePrice(q, price);
    ProfitReaches(marked, rules.breakevenTriggerAtr);
    ProfitReaches(marked, rules.trailingActivationAtr);
    SameProfit(marked, MoveToBreakeven(marked, rules));
  }

  lemma SameProfit(a: Position, b: Position)
    requires a.isLong == b.isLong && a.entryPrice == b.entryPrice && a.currentPrice == b.currentPrice
    ensures ProfitInAtr(a) == ProfitInAtr(b)
  {
  }

  /** MAIN: after any price path, a position's stop is a function of its initial stop and the best price on
      that path: the initial stop until breakeven is reached, then the entry, and once trailing is active
      the trail below (above) the running extreme if that is tighter. The rules may be any numbers. */
  lemma {:induction false} StopIsPathIndependent(p: Position, rules: StopRules, prices: seq<real>)
    requires Opened(p) && rules.maxHoldMinutes <= 0 && prices != []
    ensures Tracks(p, rules, BestSeen(p, prices), Follow(p, rules, prices))
  {
    if |prices| == 1 {
      assert Front(prices) == [] && prices == [Last(prices)];
      FirstTick(p, rules, Last(prices));
    } else {
      StopIsPathIndependent(p, rules, Front(prices));
      assert prices == Front(prices) + [Last(prices)];
      hide Tracks, Tick;
      if p.isLong {
        NextTickLong(p, rules, Highest(Front(prices)), Follow(p, rules, Front(prices)), Last(prices));
      } else {
        NextTickShort(p, rules, Lowest(Front(prices)), Follow(p, rules, Front(prices)), Last(prices));
      }
    }
  }

  lemma TighterWithBest(p: Position, rules: StopRules, before: real, after: real)
    requires if p.isLong then p.stopLoss <= p.entryPrice && before <= after
             else p.stopLoss >= p.entryPrice && after <= before
    ensures if p.isLong then p.stopLoss <= StopFor(p, rules, before) <= StopFor(p, rules, after)
            else p.stopLoss >= StopFor(p, rules, before) >= StopFor(p, rules, after)
  {
    hide Times;
  }

  lemma {:induction false} BestImproves(p: Position, prices: seq<real>, n: nat)
    requires 0 < n <= |prices|
    ensures if p.isLong then BestSeen(p, prices[..n]) <= BestSeen(p, prices)
            else BestSeen(p, prices) <= BestSeen(p, prices[..n])
    decreases |prices|
  {
    if n < |prices| {
      assert Front(prices)[..n] == prices[..n];
      BestImproves(p, Front(prices), n);
    } else {
      assert prices[..n] == prices;
    }
  }

  /** MAIN: a stop opened on the losing side of the entry never loosens, whatever the path. */
  lemma StopNeverLoosens(p: Position, rules: StopRules, prices: seq<real>, n: nat)
    requires Opened(p) && rules.maxHoldMinutes <= 0 && 0 < n <= |prices|
    requires if p.isLong then p.stopLoss <= p.entryPrice else p.stopLoss >= p.entryPrice
    ensures var (early, late) := (Follow(p, rules, prices[..n]).stopLoss, Follow(p, rules, prices).stopLoss);
            if p.isLong then p.stopLoss <= early <= late else p.stopLoss >= early >= late
  {
    StopIsPathIndependent(p, rules, prices);
    StopIsPathIndependent(p, rules, prices[..n]);
    BestImproves(p, prices, n);
    hide StopFor, BestSeen, Follow;
    TighterWithBest(p, rules, BestSeen(p, prices[..n]), BestSeen(p, prices));
  }

  /** The familiar reading, when breakeven comes no later than trailing. */
  lemma LongStopByBands(p: Position, rules: StopRules, prices: seq<real>)
    requires Opened(p) && p.isLong && rules.maxHoldMinutes <= 0 && prices != []
    requires 0.0 < rules.breakevenTriggerAtr <= rules.trailingActivationAtr
    ensures var best := MaxReal(p.entryPrice, Highest(prices));
            Follow(p, rules, prices).stopLoss ==
            if best < Level(p, rules.breakevenTriggerAtr) then p.stopLoss
            else if best < Level(p, rules.trailingActivationAtr) then p.entryPrice
            else MaxReal(p.entryPrice, best - Times(Atr(p), rules.trailingDistanceAtr))
  {
    StopIsPathIndependent(p, rules, prices);
    TimesMonotone(rules.breakevenTriggerAtr, rules.trailingActivationAtr, Atr(p));
    TimesStrict(0.0, rules.breakevenTriggerAtr, Atr(p));
    TimesUnits(Atr(p));
    hide Times, Follow, Highest;
  }

  /** The mirror image: a short's stop falls with the lowest price. */
  lemma ShortStopByBands(p: Position, rules: StopRules, prices: seq<real>)
    requires Opened(p) && !p.isLong && rules.maxHoldMinutes <= 0 && prices != []
    requires 0.0 < rules.breakevenTriggerAtr <= rules.trailingActivationAtr
    ensures var best := MinReal(p.entryPrice, Lowest(prices));
            Follow(p, rules, prices).stopLoss ==
            if best > Level(p, rules.breakevenTriggerAtr) then p.stopLoss
            else if best > Level(p, rules.trailingActivationAtr) then p.entryPrice
            else MinReal(p.entryPrice, best + Times(Atr(p), rules.trailingDistanceAtr))
  {
    StopIsPathIndependent(p, rules, prices);
    TimesMonotone(rules.breakevenTriggerAtr, rules.trailingActivationAtr, Atr(p));
    TimesStrict(0.0, rules.breakevenTriggerAtr, Atr(p));
    TimesUnits(Atr(p));
    hide Times, Follow, Lowest;
  }
}
