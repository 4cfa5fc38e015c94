/** What an order leaves behind and what it is told, in terms of the price-time queues before it: when it matches at
    all, when its residue rests and where, and what its report adds up to. */
module OrderOutcomes {
  import opened Prelude
  import opened OrderMatcher
  import opened PriceTimePriority
  import opened MatchFills
  import opened BookQueue
  import opened BookInvariants

  // ---------------------------------------------------------------- limits and self-trade prevention, spelled out

  /** MAIN: in prices, a buy limit that is not negative admits exactly the asks at or below it, and a negative one
      only a price of zero; a sell limit within the key range admits exactly the bids less than a tick below it or
      better. */
  lemma CrossesInPrices(taker: Order, key: nat)
    requires key <= MAX_PRICE_KEY
    ensures !HasLimit(taker) ==> Crosses(taker, key)
    ensures HasLimit(taker) && taker.side.Buy? && taker.price >= 0.0 ==>
              (Crosses(taker, key) <==> PriceOf(key) <= taker.price)
    ensures HasLimit(taker) && taker.side.Buy? && taker.price < 0.0 ==> (Crosses(taker, key) <==> key == 0)
    ensures HasLimit(taker) && taker.side.Sell? && taker.price * PRICE_SCALE <= MAX_PRICE_KEY as real ==>
              (Crosses(taker, key) <==> PriceOf(key) > taker.price - 1.0 / PRICE_SCALE)
  {
    var scaled := taker.price * PRICE_SCALE;
    assert PriceOf(key) <= taker.price <==> key as real <= scaled;
    assert PriceOf(key) > taker.price - 1.0 / PRICE_SCALE <==> key as real + 1.0 > scaled;
  }

  /** MAIN: a resting order is barred from a taker by its price or, under prevention, by an order of the taker's user
      anywhere at its price; a market taker without a user is barred only from orders without one. */
  lemma EligibleIff(levels: Levels, taker: Order, stp: bool, r: Resting)
    requires r.key in levels && r.order in levels[r.key]
    ensures HasLimit(taker) || taker.userId.Some? ==>
              (Eligible(levels, taker, stp, r)
               <==> Crosses(taker, r.key) && !(stp && exists o | o in levels[r.key] :: o.userId == taker.userId))
    ensures !HasLimit(taker) && taker.userId.None? ==>
              (Eligible(levels, taker, stp, r) <==> !(stp && r.order.userId.None?))
  {
    hide KeyOf;
    var orders := levels[r.key];
    var i :| 0 <= i < |orders| && orders[i] == r.order;
    assert SameUser(orders, taker.userId) <==> exists o | o in orders :: o.userId == taker.userId;
  }

  // ---------------------------------------------------------------- stop orders

  /** A buy stop fires when there are asks and all of them are at or above its trigger, a sell stop when there are bids
      and all of them are at or below it. The trigger is the limit price unless a stop price is given. */
  ghost predicate Fires(b: Book, order: Order) {
    var trigger := if order.stopPrice.Some? then order.stopPrice.value else order.price;
    if order.side.Buy? then b.asks != map[] && forall k | k in b.asks :: PriceOf(k) >= trigger
    else b.bids != map[] && forall k | k in b.bids :: PriceOf(k) <= trigger
  }

  lemma PriceOrder(a: nat, b: nat)
    requires a <= b
    ensures PriceOf(a) <= PriceOf(b)
  {
  }

  lemma FiresIff(b: Book, order: Order)
    ensures Triggered(b, order) <==> Fires(b, order)
  {
    hide PriceOf;
    var levels := OppositeLevels(b, order.side);
    if levels.Keys == {} {
      assert levels == map[];
    } else {
      var best := Best(levels.Keys, order.side);
      assert best in levels;
      forall k | k in levels
        ensures if order.side.Buy? then PriceOf(best) <= PriceOf(k) else PriceOf(k) <= PriceOf(best)
      {
        assert NoWorse(order.side, best, k);
        PriceOrder(if order.side.Buy? then best else k, if order.side.Buy? then k else best);
      }
      BestPrices(b, order.side);
    }
  }

  lemma BestPrices(b: Book, side: Side)
    requires OppositeLevels(b, side).Keys != {}
    ensures side.Buy? ==> BestAsk(b) == Some(PriceOf(Best(b.asks.Keys, Buy)))
    ensures side.Sell? ==> BestBid(b) == Some(PriceOf(Best(b.bids.Keys, Sell)))
  {
  }

  /** Takers that a sweep cannot tell apart. */
  predicate Alike(t: Order, u: Order) {
    && t.id == u.id && t.side == u.side && t.remaining == u.remaining && t.userId == u.userId && t.price == u.price
    && (HasLimit(t) <==> HasLimit(u))
  }

  lemma {:induction false} WalkAlike(orders: seq<Order>, t: Order, u: Order, key: nat, stp: bool, id: nat)
    requires Alike(t, u)
    ensures WalkLevel(orders, t, key, stp, id) == WalkLevel(orders, u, key, stp, id)
    decreases |orders|
  {
    if orders != [] && t.remaining > 0 {
      if stp && orders[0].userId == t.userId {
        WalkAlike(orders[1..], t, u, key, stp, id);
      } else {
        var left := t.remaining - Min(t.remaining, orders[0].remaining);
        WalkAlike(orders[1..], t.(remaining := left), u.(remaining := left), key, stp, id + 1);
      }
    }
  }

  lemma {:induction false} SweepAlike(levels: Levels, keys: seq<nat>, t: Order, u: Order, stp: bool, id: nat)
    requires Alike(t, u)
    ensures SweepLevels(levels, keys, t, stp, id) == SweepLevels(levels, keys, u, stp, id)
    decreases |keys|
  {
    hide WalkLevel, SameUser, Retain, StoreLevel;
    if keys != [] && t.remaining > 0 {
      if keys[0] !in levels || SkipsLevel(levels[keys[0]], t, stp) {
        SweepAlike(levels, keys[1..], t, u, stp, id);
      } else {
        WalkAlike(levels[keys[0]], t, u, keys[0], stp, id);
        var walk := WalkLevel(levels[keys[0]], t, keys[0], stp, id);
        SweepAlike(StoreLevel(levels, keys[0], Retain(walk.orders)), keys[1..], t.(remaining := walk.left),
                   u.(remaining := walk.left), stp, id + |walk.fills|);
      }
    }
  }

  lemma {:induction false} CrossingAlike(keys: seq<nat>, t: Order, u: Order)
    requires Alike(t, u)
    ensures TakeCrossing(keys, t) == TakeCrossing(keys, u)
    decreases |keys|
  {
    hide KeyOf;
    if keys != [] {
      CrossingAlike(keys[1..], t, u);
    }
  }

  lemma MatchAlike(b: Book, t: Order, u: Order, stp: bool)
    requires Alike(t, u)
    ensures MatchOpposite(b, t, stp) == MatchOpposite(b, u, stp)
  {
    hide SweepLevels, TakeCrossing, BestFirst;
    var levels := OppositeLevels(b, t.side);
    CrossingAlike(BestFirst(levels.Keys, t.side), t, u);
    SweepAlike(levels, VisitedKeys(levels, t), t, u, stp, b.trades);
  }

  /** The outcome of an order that does nothing. */
  ghost predicate Idle(b: Book, order: Order, outcome: Outcome) {
    outcome.book == b && outcome.result == MatchResult([], order.quantity, 0, 0.0)
  }

  /** MAIN: a stop-market order that fires does what a market order does; otherwise it does nothing, and is not kept. */
  lemma StopMarketFires(b: Book, cfg: Config, order: Order)
    requires order.orderType.StopMarket?
    ensures if Fires(b, order)
            then AddOrder(b, cfg, order) == AddOrder(b, cfg, order.(orderType := Market, stopPrice := None))
            else Idle(b, order, AddOrder(b, cfg, order))
  {
    hide Triggered, Fires, MatchOpposite, Average;
    FiresIff(b, order);
    MatchAlike(b, order, order.(orderType := Market, stopPrice := None), cfg.selfTradePrevention);
  }

  /** MAIN: a stop-limit order that fires is told what a limit order is told, and matches what a limit order matches;
      otherwise it does nothing, and is not kept. */
  lemma StopLimitFires(b: Book, cfg: Config, order: Order)
    requires order.orderType.StopLimit?
    ensures var outcome := AddOrder(b, cfg, order);
            var plain := AddOrder(b, cfg, order.(orderType := Limit, stopPrice := None));
            if Fires(b, order)
            then outcome.result == plain.result && outcome.book.trades == plain.book.trades
                 && OppositeLevels(outcome.book, order.side) == OppositeLevels(plain.book, order.side)
            else Idle(b, order, outcome)
  {
    hide Triggered, Fires, MatchOpposite, Average, KeyOf;
    FiresIff(b, order);
    MatchAlike(b, order, order.(orderType := Limit, stopPrice := None), cfg.selfTradePrevention);
  }

  // ---------------------------------------------------------------- what rests

  /** The order is matched under its limit: it is a limit order, or a stop-limit order that fires. */
  ghost predicate AtLimit(b: Book, order: Order) {
    order.orderType.Limit? || (order.orderType.StopLimit? && Fires(b, order))
  }

  /** It is matched without one. */
  ghost predicate AtMarket(b: Book, order: Order) {
    order.orderType.Market? || (order.orderType.StopMarket? && Fires(b, order))
  }

  function CountAt(q: seq<Resting>, key: nat): nat {
    if q == [] then 0 else (if q[0].key == key then 1 else 0) + CountAt(q[1..], key)
  }

  lemma {:induction false} CountAppend(a: seq<Resting>, b: seq<Resting>, key: nat)
    ensures CountAt(a + b, key) == CountAt(a, key) + CountAt(b, key)
    decreases |a|
  {
    if a == [] {
      assert a + b == b;
    } else {
      assert (a + b)[1..] == a[1..] + b;
      CountAppend(a[1..], b, key);
    }
  }

  lemma {:induction false} CountNone(q: seq<Resting>, key: nat)
    requires forall r | r in q :: r.key != key
    ensures CountAt(q, key) == 0
    decreases |q|
  {
    if q != [] {
      CountNone(q[1..], key);
    }
  }

  lemma {:induction false} CountTagged(key: nat, orders: seq<Order>)
    ensures CountAt(Tag(key, orders), key) == |orders|
    decreases |orders|
  {
    if orders != [] {
      CountTagged(key, orders[1..]);
      assert Tag(key, orders)[1..] == Tag(key, orders[1..]);
    }
  }

  /** The queue holds as many orders at a price as the level does. */
  lemma CountIsLevel(levels: Levels, key: nat, side: Side)
    ensures CountAt(Queue(levels, side), key) == if key in levels then |levels[key]| else 0
  {
    hide Queue, CountAt;
    var before, after := StoreSplitsQueue(levels, key, [], side);
    CountAppend(before + Part(levels, key), after, key);
    CountAppend(before, Part(levels, key), key);
    CountNone(before, key);
    CountNone(after, key);
    if key in levels {
      CountTagged(key, levels[key]);
    } else {
      CountNone([], key);
    }
  }

  /** A residue may rest: the order is good till cancelled, matched under its limit and wants more than it may have, and
      its own price holds no order, or fewer than the cap. */
  ghost predicate MayRest(b: Book, cfg: Config, order: Order) {
    var queue := Queue(OwnLevels(b, order.side), Other(order.side));
    && AtLimit(b, order) && order.tif.GTC?
    && order.remaining > Liquidity(OppositeLevels(b, order.side), order, cfg.selfTradePrevention)
    && (CountAt(queue, KeyOf(order.price)) == 0 || CountAt(queue, KeyOf(order.price)) < cfg.maxDepth)
  }

  function Other(side: Side): Side {
    if side.Buy? then Sell else Buy
  }

  /** `after` is the queue `before` with this order inserted behind everyone at its price or a better one. */
  ghost predicate JoinsTail(before: seq<Resting>, after: seq<Resting>, r: Resting, viewer: Side) {
    exists i | 0 <= i <= |before| ::
      && after == before[..i] + [r] + before[i..]
      && (forall j | 0 <= j < i :: NoWorse(viewer, before[j].key, r.key))
      && (forall j | i <= j < |before| :: before[j].key != r.key && NoWorse(viewer, r.key, before[j].key))
  }

  lemma EnqueuedJoinsTail(own: Levels, order: Order, viewer: Side)
    ensures var key := KeyOf(order.price);
            JoinsTail(Queue(own, viewer), Queue(Enqueue(own, key, order), viewer), Resting(key, order), viewer)
  {
    hide KeyOf, Queue, Enqueue, NoWorse;
    var key := KeyOf(order.price);
    var before, after := RestingJoinsTheTail(own, order, viewer);
    var q, i := Queue(own, viewer), |before|;
    assert q[..i] == before && q[i..] == after;
    assert forall j | 0 <= j < i :: q[j] == before[j] && before[j] in before;
    assert forall j | i <= j < |q| :: q[j] == after[j - i] && after[j - i] in after;
  }

  lemma RoomIff(own: Levels, key: nat, cfg: Config, viewer: Side)
    ensures HasRoom(own, key, cfg) ==>
              CountAt(Queue(own, viewer), key) == 0 || CountAt(Queue(own, viewer), key) < cfg.maxDepth
    ensures (key in own ==> own[key] != []) && !HasRoom(own, key, cfg) ==>
              CountAt(Queue(own, viewer), key) != 0 && CountAt(Queue(own, viewer), key) >= cfg.maxDepth
  {
    hide Queue;
    CountIsLevel(own, key, viewer);
  }

  lemma LimitedOwnSide(b: Book, cfg: Config, order: Order)
    requires ValidBook(b, cfg) && AtLimit(b, order)
    ensures var (own, viewer) := (OwnLevels(b, order.side), Other(order.side));
            var after := OwnLevels(AddOrder(b, cfg, order).book, order.side);
            var supply := Liquidity(OppositeLevels(b, order.side), order, cfg.selfTradePrevention);
            if MayRest(b, cfg, order)
            then JoinsTail(Queue(own, viewer), Queue(after, viewer),
                           Resting(KeyOf(order.price), order.(remaining := order.remaining - supply)), viewer)
            else after == own
  {
    hide MatchLimit, MatchOpposite, Liquidity, KeyOf, Queue, Enqueue, Live, Fires, Triggered;
    hide HasRoom, JoinsTail, CountAt;
    var stp, own, key := cfg.selfTradePrevention, OwnLevels(b, order.side), KeyOf(order.price);
    FiresIff(b, order);
    BookAfterLimit(b, cfg, order);
    OppositeIsLive(b, cfg, order.side);
    LeftIsUnmet(b, order, stp);
    OwnLevelsNotEmpty(b, cfg, order.side, key);
    RoomIff(own, key, cfg, Other(order.side));
    EnqueuedJoinsTail(own, order.(remaining := MatchOpposite(b, order, stp).left), Other(order.side));
    hide ValidBook;
  }

  lemma LeftIsUnmet(b: Book, taker: Order, stp: bool)
    requires Live(OppositeLevels(b, taker.side))
    ensures var supply := Liquidity(OppositeLevels(b, taker.side), taker, stp);
            && supply >= 0 && (MatchOpposite(b, taker, stp).left > 0 <==> taker.remaining > supply)
            && (taker.remaining > supply ==> MatchOpposite(b, taker, stp).left == taker.remaining - supply)
  {
    hide MatchOpposite, Liquidity, FillsBefore, SurvivorsBefore, Queue, Live;
    MatchGivesShares(b, taker, stp);
    LiquidityPositive(OppositeLevels(b, taker.side), taker, stp);
  }

  lemma OwnLevelsNotEmpty(b: Book, cfg: Config, side: Side, key: nat)
    requires ValidBook(b, cfg)
    ensures key in OwnLevels(b, side) ==> OwnLevels(b, side)[key] != []
  {
    hide KeyOf;
  }

  /** MAIN: whatever the order, its own side's queue afterwards is the one before with its unmet demand inserted behind
      everyone at its price or a better one, if that residue may rest, and otherwise unchanged. */
  lemma ResidueRestsIff(b: Book, cfg: Config, order: Order)
    requires ValidBook(b, cfg)
    ensures var (own, viewer) := (OwnLevels(b, order.side), Other(order.side));
            var after := OwnLevels(AddOrder(b, cfg, order).book, order.side);
            var supply := Liquidity(OppositeLevels(b, order.side), order, cfg.selfTradePrevention);
            if MayRest(b, cfg, order)
            then JoinsTail(Queue(own, viewer), Queue(after, viewer),
                           Resting(KeyOf(order.price), order.(remaining := order.remaining - supply)), viewer)
            else after == own
  {
    hide MatchLimit, MatchOpposite, Liquidity, KeyOf, Queue, Fires, Triggered, JoinsTail, CountAt, ValidBook;
    FiresIff(b, order);
    if AtLimit(b, order) {
      LimitedOwnSide(b, cfg, order);
    }
  }

  // ---------------------------------------------------------------- what is matched and told

  /** What the fills cost or fetch, added up from the front. */
  function ValueOf(fills: seq<Fill>): real {
    if fills == [] then 0.0 else fills[0].quantity as real * PriceOf(fills[0].priceKey) + ValueOf(fills[1..])
  }

  function LotsOf(fills: seq<Fill>): int {
    if fills == [] then 0 else fills[0].quantity + LotsOf(fills[1..])
  }

  lemma {:induction false} OneMoreFill(fills: seq<Fill>, f: Fill)
    ensures ValueOf(fills + [f]) == ValueOf(fills) + f.quantity as real * PriceOf(f.priceKey)
    ensures LotsOf(fills + [f]) == LotsOf(fills) + f.quantity
    decreases |fills|
  {
    hide PriceOf;
    if fills != [] {
      assert (fills + [f])[1..] == fills[1..] + [f];
      OneMoreFill(fills[1..], f);
    }
  }

  lemma {:induction false} SumsAreTotals(fills: seq<Fill>)
    ensures SumQuantity(fills) == LotsOf(fills) && SumValue(fills) == ValueOf(fills)
    decreases |fills|
  {
    hide PriceOf;
    if fills != [] {
      SumsAreTotals(Front(fills));
      OneMoreFill(Front(fills), Last(fills));
      assert fills == Front(fills) + [Last(fills)];
    }
  }

  /** The report adds up: filled and unfilled make the quantity, and the average times the filled lots is the value
      of the fills. */
  ghost predicate AddsUp(order: Order, result: MatchResult) {
    && result.filledQty == LotsOf(result.fills) && result.filledQty + result.remaining == order.quantity
    && (result.filledQty > 0 ==> result.avgFillPrice * result.filledQty as real == ValueOf(result.fills))
    && (result.filledQty <= 0 ==> result.avgFillPrice == 0.0)
  }

  lemma ReportAddsUp(fills: seq<Fill>, remaining: int, order: Order)
    requires SumQuantity(fills) + remaining == order.quantity
    ensures AddsUp(order, ResultOf(fills, remaining))
  {
    SumsAreTotals(fills);
    hide SumQuantity, SumValue, LotsOf, ValueOf;
    if SumQuantity(fills) > 0 {
      var lots := SumQuantity(fills) as real;
      assert SumValue(fills) / lots * lots == SumValue(fills);
    }
  }

  lemma MatchedReport(b: Book, cfg: Config, order: Order)
    requires ValidBook(b, cfg) && order.remaining == order.quantity && (AtMarket(b, order) || AtLimit(b, order))
    ensures var sweep, outcome := MatchOpposite(b, order, cfg.selfTradePrevention), AddOrder(b, cfg, order);
            && outcome.result == (if AtLimit(b, order) && order.tif.FOK? && sweep.left > 0
                                  then ResultOf([], order.quantity) else ResultOf(sweep.fills, sweep.left))
            && OppositeLevels(outcome.book, order.side) == sweep.levels
  {
    hide MatchOpposite, Fires, Triggered, KeyOf, Average, ValidBook;
    FiresIff(b, order);
  }

  lemma DemandIsMet(b: Book, cfg: Config, order: Order)
    requires ValidBook(b, cfg)
    ensures var sweep := MatchOpposite(b, order, cfg.selfTradePrevention);
            SumQuantity(sweep.fills) + sweep.left == order.remaining
  {
    hide ValidBook, MatchOpposite, Live, SumQuantity;
    OppositeIsLive(b, cfg, order.side);
    FillsAreFair(b, order, cfg.selfTradePrevention);
  }

  /** MAIN: whatever the order, its report adds up; if it is matched, the opposite queue loses exactly its shares by
      price and time, and those are the fills it is told of, unless it is a fill-or-kill order that wants more than
      it may have, which is told of none. */
  lemma AddOrderMeans(b: Book, cfg: Config, order: Order)
    requires ValidBook(b, cfg) && order.remaining == order.quantity
    ensures var (levels, stp) := (OppositeLevels(b, order.side), cfg.selfTradePrevention);
            var (q, want, outcome) := (Queue(levels, order.side), order.remaining, AddOrder(b, cfg, order));
            && AddsUp(order, outcome.result)
            && (AtMarket(b, order) || AtLimit(b, order) ==>
                  && Queue(OppositeLevels(outcome.book, order.side), order.side)
                     == SurvivorsBefore(q, levels, order, stp, want, |q|)
                  && outcome.result.fills
                     == if AtLimit(b, order) && order.tif.FOK? && want > Liquidity(levels, order, stp) then []
                        else FillsBefore(q, levels, order, stp, want, b.trades, |q|))
            && (!AtMarket(b, order) && !AtLimit(b, order) ==> Idle(b, order, outcome))
  {
    hide AddOrder, MatchOpposite, Liquidity, FillsBefore, SurvivorsBefore, Queue, Live, ValidBook, Fires, SumQuantity,
         AddsUp, Average;
    NothingAddsUp(order);
    if AtMarket(b, order) || AtLimit(b, order) {
      var sweep := MatchOpposite(b, order, cfg.selfTradePrevention);
      OppositeIsLive(b, cfg, order.side);
      MatchedReport(b, cfg, order);
      MatchGivesShares(b, order, cfg.selfTradePrevention);
      LeftIsUnmet(b, order, cfg.selfTradePrevention);
      DemandIsMet(b, cfg, order);
      ReportAddsUp(sweep.fills, sweep.left, order);
    } else {
      UnfiredIsIdle(b, cfg, order);
    }
  }

  lemma NothingAddsUp(order: Order)
    ensures AddsUp(order, MatchResult([], order.quantity, 0, 0.0)) && ResultOf([], order.quantity)
            == MatchResult([], order.quantity, 0, 0.0)
  {
    assert SumQuantity([]) == 0 && LotsOf([]) == 0;
  }

  lemma UnfiredIsIdle(b: Book, cfg: Config, order: Order)
    requires !AtMarket(b, order) && !AtLimit(b, order)
    ensures Idle(b, order, AddOrder(b, cfg, order))
  {
    FiresIff(b, order);
    hide Fires, Triggered, MatchMarket, MatchLimit;
  }

  /** A cancel searches one side and leaves the other, and the trade counter, alone. */
  lemma CancelKeepsOpposite(b: Book, id: nat, side: Side)
    ensures var after := CancelOrder(b, id, side).0;
            && OppositeLevels(after, side) == OppositeLevels(b, side) && after.trades == b.trades
            && (OwnLevels(after, side), CancelOrder(b, id, side).1) == CancelIn(OwnLevels(b, side), id)
  {
    hide CancelIn;
  }
}
