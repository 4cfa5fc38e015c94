/** The mutable book shard of rust/order-matcher, run in place. Every method is tied to the
    function of OrderMatcher that says what the whole operation does. */
module MatchingEngine {
  import opened Prelude
  import opened OrderMatcher

  // ---------------------------------------------------------------- loops resume the functions

  /** A level walk that already did `done` and `fills` before the rest of the queue. */
  ghost function Resume(done: seq<Order>, fills: seq<Fill>, rest: LevelWalk): LevelWalk {
    LevelWalk(done + rest.orders, rest.left, fills + rest.fills)
  }

  lemma WalkSkips(makers: seq<Order>, i: nat, fills: seq<Fill>, taker: Order, key: nat, stp: bool, id: nat)
    requires i < |makers| && taker.remaining > 0 && stp && makers[i].userId == taker.userId
    ensures Resume(makers[..i], fills, WalkLevel(makers[i..], taker, key, stp, id))
         == Resume(makers[..i + 1], fills, WalkLevel(makers[i + 1..], taker, key, stp, id))
  {
    assert makers[i..][1..] == makers[i + 1..];
    assert makers[..i + 1] == makers[..i] + [makers[i]];
    var rest := WalkLevel(makers[i + 1..], taker, key, stp, id).orders;
    assert makers[..i] + ([makers[i]] + rest) == makers[..i + 1] + rest;
  }

  lemma WalkEnds(makers: seq<Order>, i: nat, fills: seq<Fill>, taker: Order, key: nat, stp: bool, id: nat)
    requires i <= |makers| && (i == |makers| || taker.remaining <= 0)
    ensures Resume(makers[..i], fills, WalkLevel(makers[i..], taker, key, stp, id))
         == LevelWalk(makers, taker.remaining, fills)
  {
    assert makers[..i] + makers[i..] == makers;
  }

  lemma WalkDebits(makers: seq<Order>, i: nat, fills: seq<Fill>, taker: Order, key: nat, stp: bool, id: nat)
    requires i < |makers| && taker.remaining > 0 && !(stp && makers[i].userId == taker.userId)
    ensures var quantity := Min(taker.remaining, makers[i].remaining);
            (var next := makers[i := makers[i].(remaining := makers[i].remaining - quantity)];
             Resume(makers[..i], fills, WalkLevel(makers[i..], taker, key, stp, id))
             == Resume(next[..i + 1], fills + [FillOf(makers[i], taker, key, quantity, id)],
                       WalkLevel(next[i + 1..], taker.(remaining := taker.remaining - quantity), key, stp, id + 1)))
  {
    hide Min;
    var quantity := Min(taker.remaining, makers[i].remaining);
    var debited := makers[i].(remaining := makers[i].remaining - quantity);
    var next := makers[i := debited];
    var fill := FillOf(makers[i], taker, key, quantity, id);
    assert makers[i..][1..] == makers[i + 1..] == next[i + 1..];
    assert next[..i + 1] == makers[..i] + [debited];
    var rest := WalkLevel(makers[i + 1..], taker.(remaining := taker.remaining - quantity), key, stp, id + 1);
    assert makers[..i] + ([debited] + rest.orders) == next[..i + 1] + rest.orders;
    assert fills + ([fill] + rest.fills) == (fills + [fill]) + rest.fills;
  }

  ghost function ResumeSweep(fills: seq<Fill>, rest: Sweep): Sweep {
    rest.(fills := fills + rest.fills)
  }

  lemma SweepSkips(levels: Levels, keys: seq<nat>, i: nat, taker: Order, stp: bool, id: nat)
    requires i < |keys| && taker.remaining > 0
    requires keys[i] !in levels || SkipsLevel(levels[keys[i]], taker, stp)
    ensures SweepLevels(levels, keys[i..], taker, stp, id) == SweepLevels(levels, keys[i + 1..], taker, stp, id)
  {
    assert keys[i..][1..] == keys[i + 1..];
  }

  lemma SweepVisits(levels: Levels, keys: seq<nat>, i: nat, fills: seq<Fill>, taker: Order, stp: bool, id: nat)
    requires i < |keys| && taker.remaining > 0
    requires keys[i] in levels && !SkipsLevel(levels[keys[i]], taker, stp)
    ensures var walk := WalkLevel(levels[keys[i]], taker, keys[i], stp, id);
            (ResumeSweep(fills, SweepLevels(levels, keys[i..], taker, stp, id))
             == ResumeSweep(fills + walk.fills,
                            SweepLevels(StoreLevel(levels, keys[i], Retain(walk.orders)), keys[i + 1..],
                                        taker.(remaining := walk.left), stp, id + |walk.fills|)))
  {
    hide WalkLevel, Retain, StoreLevel;
    assert keys[i..][1..] == keys[i + 1..];
    var walk := WalkLevel(levels[keys[i]], taker, keys[i], stp, id);
    var rest := SweepLevels(StoreLevel(levels, keys[i], Retain(walk.orders)), keys[i + 1..],
                            taker.(remaining := walk.left), stp, id + |walk.fills|);
    assert fills + (walk.fills + rest.fills) == (fills + walk.fills) + rest.fills;
  }

  lemma SweepEnds(levels: Levels, keys: seq<nat>, i: nat, fills: seq<Fill>, taker: Order, stp: bool, id: nat)
    requires i <= |keys| && (i == |keys| || taker.remaining <= 0)
    ensures ResumeSweep(fills, SweepLevels(levels, keys[i..], taker, stp, id)) == Sweep(levels, taker.remaining, fills)
  {
    assert fills + [] == fills;
  }

  lemma SweepStarts(rest: Sweep)
    ensures ResumeSweep([], rest) == rest
  {
    assert [] + rest.fills == rest.fills;
  }

  class ShardedOrderBook {
    var bids: Levels
    var asks: Levels
    var tradeCounter: nat
    var selfTradePrevention: bool
    const maxDepth: nat

    ghost function State(): Book
      reads this
    {
      Book(bids, asks, tradeCounter)
    }

    ghost function Settings(): Config
      reads this
    {
      Config(maxDepth, selfTradePrevention)
    }

    constructor (maxDepth: nat)
      ensures State() == Book(map[], map[], 0)
      ensures Settings() == Config(maxDepth, true)
    {
      this.maxDepth := maxDepth;
      bids, asks, tradeCounter := map[], map[], 0;
      selfTradePrevention := true;
    }

    method SetSelfTradePrevention(enabled: bool)
      modifies this`selfTradePrevention
      ensures Settings() == Config(maxDepth, enabled)
    {
      selfTradePrevention := enabled;
    }

    method AddOrder(order: Order) returns (result: MatchResult)
      modifies this`bids, this`asks, this`tradeCounter
      ensures State() == OrderMatcher.AddOrder(old(State()), Settings(), order).book
      ensures result == OrderMatcher.AddOrder(old(State()), Settings(), order).result
    {
      match order.orderType
      case Market => result := MatchMarket(order);
      case Limit => result := MatchLimit(order);
      case StopMarket => result := HandleStopMarket(order);
      case StopLimit => result := HandleStopLimit(order);
    }

    method BestBid() returns (best: Option<real>)
      ensures best == OrderMatcher.BestBid(State())
    {
      best := if bids.Keys == {} then None else Some(PriceOf(Best(bids.Keys, Sell)));
    }

    method BestAsk() returns (best: Option<real>)
      ensures best == OrderMatcher.BestAsk(State())
    {
      best := if asks.Keys == {} then None else Some(PriceOf(Best(asks.Keys, Buy)));
    }

    /** The inner loop over the makers of one level, adding to the running totals. */
    method MatchLevel(orders: seq<Order>, taker: Order, key: nat, fills0: seq<Fill>, qty0: int, value0: real)
      returns (makers: seq<Order>, left: int, fills: seq<Fill>, filledQty: int, fillValue: real)
      requires qty0 == SumQuantity(fills0) && value0 == SumValue(fills0)
      modifies this`tradeCounter
      ensures var walk := WalkLevel(orders, taker, key, selfTradePrevention, old(tradeCounter));
              && makers == walk.orders && left == walk.left && fills == fills0 + walk.fills
              && tradeCounter == old(tradeCounter) + |walk.fills|
      ensures filledQty == SumQuantity(fills) && fillValue == SumValue(fills)
    {
      hide WalkLevel;
      makers, fills, filledQty, fillValue := orders, fills0, qty0, value0;
      ghost var whole := Resume([], fills0, WalkLevel(orders, taker, key, selfTradePrevention, tradeCounter));
      assert makers[0..] == orders && makers[..0] == [];
      var t := taker;
      var i := 0;
      while i < |makers| && t.remaining > 0
        invariant 0 <= i <= |makers|
        invariant t == taker.(remaining := t.remaining)
        invariant whole == Resume(makers[..i], fills, WalkLevel(makers[i..], t, key, selfTradePrevention, tradeCounter))
        invariant tradeCounter - old(tradeCounter) == |fills| - |fills0|
        invariant filledQty == SumQuantity(fills) && fillValue == SumValue(fills)
      {
        var maker := makers[i];
        if selfTradePrevention && maker.userId == t.userId {
          WalkSkips(makers, i, fills, t, key, selfTradePrevention, tradeCounter);
        } else {
          WalkDebits(makers, i, fills, t, key, selfTradePrevention, tradeCounter);
          var quantity := Min(t.remaining, maker.remaining);
          makers := makers[i := maker.(remaining := maker.remaining - quantity)];
          var fill := FillOf(maker, t, key, quantity, tradeCounter);
          t := t.(remaining := t.remaining - quantity);
          assert Front(fills + [fill]) == fills;
          fills := fills + [fill];
          tradeCounter := tradeCounter + 1;
          filledQty := filledQty + quantity;
          fillValue := fillValue + quantity as real * PriceOf(key);
        }
        i := i + 1;
      }
      left := t.remaining;
      WalkEnds(makers, i, fills, t, key, selfTradePrevention, tradeCounter);
    }

    /** One turn of the outer loop: match at `keys[i]` and drop the level if it empties. */
    method VisitKey(levels: Levels, keys: seq<nat>, i: nat, taker: Order, fills0: seq<Fill>, qty0: int, value0: real)
      returns (book: Levels, t: Order, fills: seq<Fill>, filledQty: int, fillValue: real)
      requires i < |keys| && taker.remaining > 0
      requires qty0 == SumQuantity(fills0) && value0 == SumValue(fills0)
      modifies this`tradeCounter
      ensures ResumeSweep(fills0, SweepLevels(levels, keys[i..], taker, selfTradePrevention, old(tradeCounter)))
           == ResumeSweep(fills, SweepLevels(book, keys[i + 1..], t, selfTradePrevention, tradeCounter))
      ensures tradeCounter - old(tradeCounter) == |fills| - |fills0|
      ensures filledQty == SumQuantity(fills) && fillValue == SumValue(fills)
    {
      hide WalkLevel, SweepLevels;
      book, t, fills, filledQty, fillValue := levels, taker, fills0, qty0, value0;
      var key := keys[i];
      if key in levels && !SkipsLevel(levels[key], taker, selfTradePrevention) {
        SweepVisits(levels, keys, i, fills0, taker, selfTradePrevention, tradeCounter);
        var makers, left;
        makers, left, fills, filledQty, fillValue := MatchLevel(levels[key], taker, key, fills, filledQty, fillValue);
        book := StoreLevel(levels, key, Retain(makers));
        t := taker.(remaining := left);
      } else {
        SweepSkips(levels, keys, i, taker, selfTradePrevention, tradeCounter);
      }
    }

    /** The outer loop over the visited keys of the opposite side `levels`. */
    method SweepKeys(levels: Levels, keys: seq<nat>, taker: Order)
      returns (book: Levels, left: int, fills: seq<Fill>, filledQty: int, fillValue: real)
      modifies this`tradeCounter
      ensures Sweep(book, left, fills) == SweepLevels(levels, keys, taker, selfTradePrevention, old(tradeCounter))
      ensures tradeCounter - old(tradeCounter) == |fills|
      ensures filledQty == SumQuantity(fills) && fillValue == SumValue(fills)
    {
      hide SweepLevels, ResumeSweep;
      book, fills, filledQty, fillValue := levels, [], 0, 0.0;
      assert keys[0..] == keys;
      SweepStarts(SweepLevels(levels, keys, taker, selfTradePrevention, tradeCounter));
      var t := taker;
      var i := 0;
      while i < |keys| && t.remaining > 0
        invariant 0 <= i <= |keys|
        invariant SweepLevels(levels, keys, taker, selfTradePrevention, old(tradeCounter))
               == ResumeSweep(fills, SweepLevels(book, keys[i..], t, selfTradePrevention, tradeCounter))
        invariant tradeCounter - old(tradeCounter) == |fills|
        invariant filledQty == SumQuantity(fills) && fillValue == SumValue(fills)
      {
        book, t, fills, filledQty, fillValue := VisitKey(book, keys, i, t, fills, filledQty, fillValue);
        i := i + 1;
      }
      left := t.remaining;
      SweepEnds(book, keys, i, fills, t, selfTradePrevention, tradeCounter);
    }

    method SweepOpposite(taker: Order)
      returns (left: int, fills: seq<Fill>, filledQty: int, fillValue: real)
      modifies this`bids, this`asks, this`tradeCounter
      ensures var sweep := MatchOpposite(old(State()), taker, selfTradePrevention);
              && State() == AfterSweep(old(State()), taker, sweep)
              && left == sweep.left && fills == sweep.fills
      ensures filledQty == SumQuantity(fills) && fillValue == SumValue(fills)
    {
      hide SweepLevels, VisitedKeys, SumQuantity, SumValue;
      var book := if taker.side.Buy? then asks else bids;
      book, left, fills, filledQty, fillValue := SweepKeys(book, VisitedKeys(book, taker), taker);
      if taker.side.Buy? {
        asks := book;
      } else {
        bids := book;
      }
    }

    method MatchMarket(taker: Order) returns (result: MatchResult)
      modifies this`bids, this`asks, this`tradeCounter
      ensures State() == OrderMatcher.MatchMarket(old(State()), Settings(), taker).book
      ensures result == OrderMatcher.MatchMarket(old(State()), Settings(), taker).result
    {
      var left, fills, filledQty, fillValue := SweepOpposite(taker);
      var average := if filledQty > 0 then fillValue / filledQty as real else 0.0;
      result := MatchResult(fills, left, filledQty, average);
    }

    /** Append to the level at this price if it has room; a new level always has. */
    method Rest(resting: Order, key: nat)
      modifies this`bids, this`asks
      ensures var own := OwnLevels(old(State()), resting.side);
              State() == if HasRoom(own, key, Settings())
                         then WithOwn(old(State()), resting.side, Enqueue(own, key, resting)) else old(State())
    {
      hide KeyOf;
      var own := if resting.side.Buy? then bids else asks;
      if key in own {
        if |own[key]| < maxDepth {
          own := own[key := own[key] + [resting]];
        }
      } else {
        own := own[key := [resting]];
        assert [] + [resting] == [resting];
      }
      if resting.side.Buy? {
        bids := own;
      } else {
        asks := own;
      }
    }

    method MatchLimit(taker: Order) returns (result: MatchResult)
      modifies this`bids, this`asks, this`tradeCounter
      ensures State() == OrderMatcher.MatchLimit(old(State()), Settings(), taker).book
      ensures result == OrderMatcher.MatchLimit(old(State()), Settings(), taker).result
    {
      var left, fills, filledQty, fillValue := SweepOpposite(taker);
      if left > 0 && taker.tif.GTC? {
        Rest(taker.(remaining := left), KeyOf(taker.price));
      } else if taker.tif.FOK? && left > 0 {
        fills, filledQty, left := [], 0, taker.quantity;
      }
      var average := if filledQty > 0 then fillValue / filledQty as real else 0.0;
      result := MatchResult(fills, left, filledQty, average);
    }

    method HandleStopMarket(order: Order) returns (result: MatchResult)
      requires order.orderType.StopMarket?
      modifies this`bids, this`asks, this`tradeCounter
      ensures State() == OrderMatcher.AddOrder(old(State()), Settings(), order).book
      ensures result == OrderMatcher.AddOrder(old(State()), Settings(), order).result
    {
      var triggered := StopTriggered(order);
      if triggered {
        result := MatchMarket(order);
      } else {
        result := MatchResult([], order.quantity, 0, 0.0);
      }
    }

    method HandleStopLimit(order: Order) returns (result: MatchResult)
      requires order.orderType.StopLimit?
      modifies this`bids, this`asks, this`tradeCounter
      ensures State() == OrderMatcher.AddOrder(old(State()), Settings(), order).book
      ensures result == OrderMatcher.AddOrder(old(State()), Settings(), order).result
    {
      var triggered := StopTriggered(order);
      if triggered {
        result := MatchLimit(order);
      } else {
        result := MatchResult([], order.quantity, 0, 0.0);
      }
    }

    method StopTriggered(order: Order) returns (triggered: bool)
      ensures triggered == Triggered(State(), order)
    {
      var stop := if order.stopPrice.Some? then order.stopPrice.value else order.price;
      if order.side.Buy? {
        var ask := BestAsk();
        triggered := ask.Some? && ask.value >= stop;
      } else {
        var bid := BestBid();
        triggered := bid.Some? && bid.value <= stop;
      }
    }

    method FindLevel(book: Levels, id: nat) returns (found: Option<nat>)
      ensures found == FirstHolding(book, BestFirst(book.Keys, Buy), id)
    {
      var keys := BestFirst(book.Keys, Buy);
      assert keys[0..] == keys;
      var i := 0;
      while i < |keys|
        invariant 0 <= i <= |keys|
        invariant FirstHolding(book, keys, id) == FirstHolding(book, keys[i..], id)
      {
        assert keys[i..][1..] == keys[i + 1..];
        if Holds(book[keys[i]], id) {
          return Some(keys[i]);
        }
        i := i + 1;
      }
      found := None;
    }

    /** Returns whether the level became empty, which is not whether an order was removed. */
    method CancelOrder(id: nat, side: Side) returns (emptied: bool)
      modifies this`bids, this`asks
      ensures (State(), emptied) == OrderMatcher.CancelOrder(old(State()), id, side)
    {
      var book := if side.Buy? then bids else asks;
      var found := FindLevel(book, id);
      emptied := false;
      if found.Some? {
        var orders := book[found.value];
        var left := Without(orders, PositionOf(orders, id));
        emptied := left == [];
        book := StoreLevel(book, found.value, left);
      }
      if side.Buy? {
        bids := book;
      } else {
        asks := book;
      }
    }
  }
}
