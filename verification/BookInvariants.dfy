/** What every order and every cancel keeps of the book: well-formed levels, and bids below asks. */
module BookInvariants {
  import opened Prelude
  import opened OrderMatcher
  import opened PriceTimePriority
  import opened MatchFills

  // ---------------------------------------------------------------- well-formed levels

  lemma {:induction false} WalkKeepsOrders(orders: seq<Order>, taker: Order, key: nat, stp: bool, id: nat,
                                           side: Side, cfg: Config)
    requires forall o | o in orders :: 0 < o.remaining <= o.quantity && o.side == side && KeyOf(o.price) == key
    ensures var after := WalkLevel(orders, taker, key, stp, id).orders;
            && |after| == |orders|
            && forall o | o in after :: 0 <= o.remaining <= o.quantity && o.side == side && KeyOf(o.price) == key
  {
    hide KeyOf;
    if orders == [] || taker.remaining <= 0 {
    } else if stp && orders[0].userId == taker.userId {
      WalkKeepsOrders(orders[1..], taker, key, stp, id, side, cfg);
    } else {
      var quantity := Min(taker.remaining, orders[0].remaining);
      WalkKeepsOrders(orders[1..], taker.(remaining := taker.remaining - quantity), key, stp, id + 1, side, cfg);
    }
  }

  lemma StoreKeepsSide(levels: Levels, key: nat, orders: seq<Order>, side: Side, cfg: Config)
    requires ValidSide(levels, side, cfg)
    requires orders == [] || ValidLevel(orders, key, side, cfg)
    ensures ValidSide(StoreLevel(levels, key, orders), side, cfg)
  {
    hide ValidLevel;
  }

  lemma {:induction false} SweepKeepsSide(levels: Levels, keys: seq<nat>, taker: Order, stp: bool, id: nat,
                                          side: Side, cfg: Config)
    requires ValidSide(levels, side, cfg)
    ensures ValidSide(SweepLevels(levels, keys, taker, stp, id).levels, side, cfg)
    decreases |keys|
  {
    if keys == [] || taker.remaining <= 0 {
    } else if keys[0] !in levels || SkipsLevel(levels[keys[0]], taker, stp) {
      SweepKeepsSide(levels, keys[1..], taker, stp, id, side, cfg);
    } else {
      var walk := WalkLevel(levels[keys[0]], taker, keys[0], stp, id);
      WalkKeepsOrders(levels[keys[0]], taker, keys[0], stp, id, side, cfg);
      hide WalkLevel, KeyOf, SkipsLevel;
      var kept := Retain(walk.orders);
      StoreKeepsSide(levels, keys[0], kept, side, cfg);
      SweepKeepsSide(StoreLevel(levels, keys[0], kept), keys[1..], taker.(remaining := walk.left), stp,
                     id + |walk.fills|, side, cfg);
    }
  }

  lemma SweepKeepsBook(b: Book, cfg: Config, taker: Order)
    requires ValidBook(b, cfg)
    ensures ValidBook(AfterSweep(b, taker, MatchOpposite(b, taker, cfg.selfTradePrevention)), cfg)
  {
    hide ValidSide, SweepLevels, VisitedKeys;
    var levels := OppositeLevels(b, taker.side);
    SweepKeepsSide(levels, VisitedKeys(levels, taker), taker, cfg.selfTradePrevention, b.trades,
                   if taker.side.Buy? then Sell else Buy, cfg);
  }

  lemma EnqueueKeepsSide(own: Levels, order: Order, cfg: Config)
    requires ValidSide(own, order.side, cfg) && HasRoom(own, KeyOf(order.price), cfg)
    requires 0 < order.remaining <= order.quantity
    ensures ValidSide(Enqueue(own, KeyOf(order.price), order), order.side, cfg)
  {
    hide KeyOf;
    var key := KeyOf(order.price);
    var level := if key in own then own[key] else [];
    assert ValidLevel(level + [order], key, order.side, cfg);
    StoreKeepsSide(own, key, level + [order], order.side, cfg);
    assert Enqueue(own, key, order) == StoreLevel(own, key, level + [order]);
  }

  lemma MatchLimitKeepsBook(b: Book, cfg: Config, order: Order)
    requires ValidBook(b, cfg) && order.remaining <= order.quantity && Live(OppositeLevels(b, order.side))
    ensures ValidBook(OrderMatcher.MatchLimit(b, cfg, order).book, cfg)
  {
    hide OrderMatcher.MatchLimit, ValidSide, MatchOpposite, KeyOf, HasRoom, Enqueue, Live;
    var left := MatchOpposite(b, order, cfg.selfTradePrevention).left;
    BookAfterLimit(b, cfg, order);
    SweepKeepsBook(b, cfg, order);
    LeftAtMostWanted(b, order, cfg.selfTradePrevention);
    if left > 0 && HasRoom(OwnLevels(b, order.side), KeyOf(order.price), cfg) {
      EnqueueKeepsSide(OwnLevels(b, order.side), order.(remaining := left), cfg);
    }
  }

  lemma LeftAtMostWanted(b: Book, taker: Order, stp: bool)
    requires Live(OppositeLevels(b, taker.side))
    ensures MatchOpposite(b, taker, stp).left <= taker.remaining
  {
    hide MatchOpposite, Liquidity, FillsBefore, SurvivorsBefore, Queue, Live;
    MatchGivesShares(b, taker, stp);
    LiquidityPositive(OppositeLevels(b, taker.side), taker, stp);
  }

  lemma LiquidityPositive(levels: Levels, taker: Order, stp: bool)
    requires Live(levels)
    ensures Liquidity(levels, taker, stp) >= 0
  {
    var q := Queue(levels, taker.side);
    LiveQueue(levels, taker.side);
    AheadGrows(q, levels, taker, stp, |q|);
  }

  lemma ValidIsLive(b: Book, cfg: Config)
    requires ValidBook(b, cfg)
    ensures Live(b.bids) && Live(b.asks)
  {
    hide KeyOf;
  }

  /** MAIN: whatever the order, the book stays well formed: no empty level, every level within the depth
      cap, every order on its own side under its own price key with 0 < remaining <= quantity. */
  lemma AddKeepsBook(b: Book, cfg: Config, order: Order)
    requires ValidBook(b, cfg) && order.remaining <= order.quantity
    ensures ValidBook(AddOrder(b, cfg, order).book, cfg)
  {
    ValidIsLive(b, cfg);
    hide ValidBook, MatchLimit, MatchMarket, Triggered;
    MatchLimitKeepsBook(b, cfg, order);
    MarketKeepsBook(b, cfg, order);
  }

  lemma MarketKeepsBook(b: Book, cfg: Config, order: Order)
    requires ValidBook(b, cfg)
    ensures ValidBook(OrderMatcher.MatchMarket(b, cfg, order).book, cfg)
  {
    SweepKeepsBook(b, cfg, order);
  }

  lemma CancelKeepsBook(b: Book, cfg: Config, id: nat, side: Side)
    requires ValidBook(b, cfg)
    ensures ValidBook(CancelOrder(b, id, side).0, cfg)
  {
    hide BestFirst, KeyOf;
    var own := OwnLevels(b, side);
    var found := FirstHolding(own, BestFirst(own.Keys, Buy), id);
    if found.Some? {
      var key := found.value;
      var left := Without(own[key], PositionOf(own[key], id));
      assert left == [] || ValidLevel(left, key, side, cfg);
      StoreKeepsSide(own, key, left, side, cfg);
    }
  }

  // ---------------------------------------------------------------- bids below asks

  ghost predicate Uncrossed(b: Book) {
    forall bid, ask | bid in b.bids && ask in b.asks :: bid < ask
  }

  /** Some price the taker could trade at is withheld from it by self-trade prevention. */
  ghost predicate Withheld(levels: Levels, taker: Order, stp: bool) {
    exists k | k in levels :: Crosses(taker, k) && SkipsLevel(levels[k], taker, stp)
  }

  lemma HeadExhausts(r: Resting, levels: Levels, taker: Order, stp: bool, want: int, id: nat)
    requires r.order.remaining > 0
    ensures var head := GreedyHead(r, levels, taker, stp, want, id);
            head.left > 0 ==> head.queue == if Eligible(levels, taker, stp, r) then [] else [r]
  {
    hide Eligible;
  }

  lemma {:induction false} GreedyExhausts(q: seq<Resting>, levels: Levels, taker: Order, stp: bool, want: int, id: nat)
    requires Greedy(q, levels, taker, stp, want, id).left > 0
    requires forall r | r in q :: r.order.remaining > 0
    ensures forall r | r in Greedy(q, levels, taker, stp, want, id).queue :: r in q && !Eligible(levels, taker, stp, r)
    ensures forall r | r in q && !Eligible(levels, taker, stp, r) :: r in Greedy(q, levels, taker, stp, want, id).queue
  {
    hide Eligible, GreedyHead;
    if q != [] {
      assert q[0] in q;
      var head := GreedyHead(q[0], levels, taker, stp, want, id);
      HeadExhausts(q[0], levels, taker, stp, want, id);
      LeftShrinks(q[1..], levels, taker, stp, head.left, id + |head.fills|);
      GreedyExhausts(q[1..], levels, taker, stp, head.left, id + |head.fills|);
    }
  }

  lemma {:induction false} LeftShrinks(q: seq<Resting>, levels: Levels, taker: Order, stp: bool, want: int, id: nat)
    requires forall r | r in q :: r.order.remaining > 0
    ensures Greedy(q, levels, taker, stp, want, id).left <= want
  {
    hide Eligible;
    if q != [] {
      assert q[0] in q;
      var head := GreedyHead(q[0], levels, taker, stp, want, id);
      LeftShrinks(q[1..], levels, taker, stp, head.left, id + |head.fills|);
    }
  }

  /** A side in terms of its queue: a key is present when the queue has an order there. */
  lemma QueueCovers(levels: Levels, side: Side, key: nat)
    requires Live(levels)
    ensures key in levels <==> exists r | r in Queue(levels, side) :: r.key == key
  {
    FlattenKeys(levels, BestFirst(levels.Keys, side));
    if key in levels {
      FlattenCovers(levels, BestFirst(levels.Keys, side), key);
    }
  }

  lemma {:induction false} FlattenCovers(levels: Levels, keys: seq<nat>, key: nat)
    requires key in keys && key in levels && levels[key] != []
    ensures Resting(key, levels[key][0]) in Flatten(levels, keys)
  {
    if keys[0] == key {
      TagKeys(key, levels[key]);
      assert Tag(key, levels[key])[0] == Resting(key, levels[key][0]);
    } else {
      FlattenCovers(levels, keys[1..], key);
    }
  }

  lemma SweepStaysLive(b: Book, cfg: Config, taker: Order)
    requires ValidBook(b, cfg)
    ensures Live(MatchOpposite(b, taker, cfg.selfTradePrevention).levels)
  {
    hide MatchOpposite, KeyOf, VisitedKeys;
    SweepKeepsBook(b, cfg, taker);
    ValidIsLive(AfterSweep(b, taker, MatchOpposite(b, taker, cfg.selfTradePrevention)), cfg);
  }

  /** When a limit taker is left unfilled, the crossing prices still present are the withheld ones. */
  lemma UnfilledLeavesWithheld(b: Book, cfg: Config, taker: Order, key: nat)
    requires ValidBook(b, cfg) && HasLimit(taker) && Crosses(taker, key)
    requires MatchOpposite(b, taker, cfg.selfTradePrevention).left > 0
    ensures var levels := OppositeLevels(b, taker.side);
            (key in MatchOpposite(b, taker, cfg.selfTradePrevention).levels
             <==> key in levels && SkipsLevel(levels[key], taker, cfg.selfTradePrevention))
  {
    var stp := cfg.selfTradePrevention;
    var levels := OppositeLevels(b, taker.side);
    var sweep := MatchOpposite(b, taker, stp);
    var q := Queue(levels, taker.side);
    ValidIsLive(b, cfg);
    SweepStaysLive(b, cfg, taker);
    LiveQueue(levels, taker.side);
    MatchIsPriceTime(b, taker, stp);
    hide MatchOpposite, Queue, Greedy, KeyOf;
    GreedyExhausts(q, levels, taker, stp, taker.remaining, b.trades);
    QueueCovers(sweep.levels, taker.side, key);
    QueueCovers(levels, taker.side, key);
    if key in sweep.levels {
      var r :| r in Queue(sweep.levels, taker.side) && r.key == key;
      EligibleUnlessSkipped(levels, taker, stp, r);
    }
  }

  lemma EligibleUnlessSkipped(levels: Levels, taker: Order, stp: bool, r: Resting)
    requires HasLimit(taker) && Crosses(taker, r.key) && r in Queue(levels, taker.side)
    ensures r.key in levels
    ensures !Eligible(levels, taker, stp, r) <==> SkipsLevel(levels[r.key], taker, stp)
  {
    FlattenKeys(levels, BestFirst(levels.Keys, taker.side));
    var orders := levels[r.key];
    var i :| 0 <= i < |orders| && orders[i] == r.order;
  }

  /** A limit order locks the book when it rests although a price it could trade at was withheld. */
  ghost predicate Locks(b: Book, cfg: Config, taker: Order) {
    var levels := OppositeLevels(b, taker.side);
    && taker.tif.GTC? && taker.remaining > Liquidity(levels, taker, cfg.selfTradePrevention)
    && Withheld(levels, taker, cfg.selfTradePrevention)
  }

  lemma SweepStaysUncrossed(b: Book, taker: Order, stp: bool)
    requires Uncrossed(b)
    ensures Uncrossed(AfterSweep(b, taker, MatchOpposite(b, taker, stp)))
  {
    var levels := OppositeLevels(b, taker.side);
    SweepFrame(levels, VisitedKeys(levels, taker), taker, stp, b.trades);
    hide SweepLevels, VisitedKeys;
  }

  lemma RestCrossesIff(own: Levels, opposite: Levels, taker: Order, resting: Order, trades: nat)
    requires HasLimit(taker)
    requires Uncrossed(WithOwn(WithOpposite(Book(map[], map[], trades), taker.side, opposite), taker.side, own))
    ensures var before := WithOwn(WithOpposite(Book(map[], map[], trades), taker.side, opposite), taker.side, own);
            Uncrossed(WithOwn(before, taker.side, Enqueue(own, KeyOf(taker.price), resting)))
            <==> forall k | k in opposite :: !Crosses(taker, k)
  {
    hide KeyOf;
    var key := KeyOf(taker.price);
    var before := WithOwn(WithOpposite(Book(map[], map[], trades), taker.side, opposite), taker.side, own);
    var joined := Enqueue(own, key, resting);
    var after := WithOwn(before, taker.side, joined);
    assert joined.Keys == own.Keys + {key} && key in joined;
    if Uncrossed(after) {
      forall k | k in opposite
        ensures !Crosses(taker, k)
      {
        assert if taker.side.Buy? then key in after.bids && k in after.asks else k in after.bids && key in after.asks;
      }
    }
  }

  /** A limit order's residue joins its own side when it may rest and there is room for it. */
  lemma BookAfterLimit(b: Book, cfg: Config, taker: Order)
    ensures var sweep := MatchOpposite(b, taker, cfg.selfTradePrevention);
            (var swept, own := AfterSweep(b, taker, sweep), OwnLevels(b, taker.side);
             OrderMatcher.MatchLimit(b, cfg, taker).book
             == if sweep.left > 0 && taker.tif.GTC? && HasRoom(own, KeyOf(taker.price), cfg)
                then WithOwn(swept, taker.side, Enqueue(own, KeyOf(taker.price), taker.(remaining := sweep.left)))
                else swept)
  {
    hide MatchOpposite, KeyOf, Enqueue, HasRoom;
  }

  lemma RestingUncrossedIff(b: Book, taker: Order, stp: bool)
    requires Uncrossed(b) && HasLimit(taker)
    ensures var sweep := MatchOpposite(b, taker, stp);
            (var swept, own := AfterSweep(b, taker, sweep), OwnLevels(b, taker.side);
             Uncrossed(WithOwn(swept, taker.side, Enqueue(own, KeyOf(taker.price), taker.(remaining := sweep.left))))
             <==> forall k | k in sweep.levels :: !Crosses(taker, k))
  {
    hide MatchOpposite, KeyOf, Crosses, Uncrossed, Enqueue;
    var sweep, own := MatchOpposite(b, taker, stp), OwnLevels(b, taker.side);
    var swept := AfterSweep(b, taker, sweep);
    SweepStaysUncrossed(b, taker, stp);
    assert swept == WithOwn(WithOpposite(Book(map[], map[], swept.trades), taker.side, sweep.levels), taker.side, own);
    RestCrossesIff(own, sweep.levels, taker, taker.(remaining := sweep.left), swept.trades);
  }

  /** A taker is left with something exactly when it wants more than the liquidity it may touch. */
  lemma LeftIffShort(b: Book, taker: Order, stp: bool)
    requires Live(OppositeLevels(b, taker.side))
    ensures MatchOpposite(b, taker, stp).left > 0
       <==> taker.remaining > Liquidity(OppositeLevels(b, taker.side), taker, stp)
  {
    hide MatchOpposite, Liquidity, FillsBefore, SurvivorsBefore, Queue;
    MatchGivesShares(b, taker, stp);
    LiquidityPositive(OppositeLevels(b, taker.side), taker, stp);
  }

  /** MAIN: on a well-formed uncrossed book, a limit order leaves bids below asks exactly when it does
      not lock: it may be withheld a price, or be left with a residue that rests, but not both. */
  lemma LimitUncrossedIff(b: Book, cfg: Config, taker: Order)
    requires ValidBook(b, cfg) && Uncrossed(b) && HasLimit(taker)
    ensures Uncrossed(OrderMatcher.MatchLimit(b, cfg, taker).book) <==> !Locks(b, cfg, taker)
  {
    hide OrderMatcher.MatchLimit, MatchOpposite, Liquidity, KeyOf, Crosses, SkipsLevel, Uncrossed, Enqueue, ValidBook,
         AfterSweep, OwnLevels, OppositeLevels, WithOwn, Live;
    var stp := cfg.selfTradePrevention;
    BookAfterLimit(b, cfg, taker);
    OppositeIsLive(b, cfg, taker.side);
    LeftIffShort(b, taker, stp);
    SweepStaysUncrossed(b, taker, stp);
    RestingUncrossedIff(b, taker, stp);
    if MatchOpposite(b, taker, stp).left > 0 {
      CrossingLeft(b, cfg, taker);
      if !HasRoom(OwnLevels(b, taker.side), KeyOf(taker.price), cfg) {
        FullLevelMeansClear(b, taker);
      }
    }
  }

  lemma OppositeIsLive(b: Book, cfg: Config, side: Side)
    requires ValidBook(b, cfg)
    ensures Live(OppositeLevels(b, side))
  {
    hide ValidBook, Live;
    ValidIsLive(b, cfg);
  }

  lemma CrossingLeft(b: Book, cfg: Config, taker: Order)
    requires ValidBook(b, cfg) && HasLimit(taker) && MatchOpposite(b, taker, cfg.selfTradePrevention).left > 0
    ensures (forall k | k in MatchOpposite(b, taker, cfg.selfTradePrevention).levels :: !Crosses(taker, k))
       <==> !Withheld(OppositeLevels(b, taker.side), taker, cfg.selfTradePrevention)
  {
    hide MatchOpposite, SkipsLevel;
    forall k: nat | Crosses(taker, k)
      ensures var levels := OppositeLevels(b, taker.side);
              (k in MatchOpposite(b, taker, cfg.selfTradePrevention).levels
               <==> k in levels && SkipsLevel(levels[k], taker, cfg.selfTradePrevention))
    {
      UnfilledLeavesWithheld(b, cfg, taker, k);
    }
  }

  lemma FullLevelMeansClear(b: Book, taker: Order)
    requires Uncrossed(b) && HasLimit(taker) && KeyOf(taker.price) in OwnLevels(b, taker.side)
    ensures forall k | k in OppositeLevels(b, taker.side) :: !Crosses(taker, k)
  {
    hide KeyOf;
  }
}
