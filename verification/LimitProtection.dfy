/** What a limit protects a taker from, in prices: the limits that bound every fill and the reported average on every
    book, and for each other limit a book that fills beyond it. */
module LimitProtection {
  import opened Prelude
  import opened OrderMatcher
  import opened PriceTimePriority
  import opened MatchFills
  import opened BookInvariants

  /** The price is no worse for the taker than its limit. */
  predicate NoWorseThanLimit(taker: Order, price: real) {
    if taker.side.Buy? then price <= taker.price else price >= taker.price
  }

  /** Every reported fill, and the reported average if anything was filled, are within the limit. */
  ghost predicate ReportWithin(taker: Order, result: MatchResult) {
    && (forall f | f in result.fills :: NoWorseThanLimit(taker, PriceOf(f.priceKey)))
    && (result.filledQty > 0 ==> NoWorseThanLimit(taker, result.avgFillPrice))
  }

  /** Limits that the key cast does not loosen: for buyers those not below zero, for sellers those on the tick grid or
      not above zero. */
  predicate Exact(taker: Order) {
    if taker.side.Buy? then taker.price >= 0.0 else taker.price <= 0.0 || OnTickGrid(taker.price)
  }

  // ---------------------------------------------------------------- averages

  /** What these lots cost or fetched in total is no worse than all of them at the limit. */
  predicate ValueWithin(taker: Order, value: real, lots: real) {
    if taker.side.Buy? then value <= lots * taker.price else value >= lots * taker.price
  }

  lemma ValueStep(taker: Order, value: real, done: real, lots: real, price: real)
    requires ValueWithin(taker, value, done) && NoWorseThanLimit(taker, price) && lots >= 0.0
    ensures ValueWithin(taker, value + lots * price, done + lots)
  {
    if taker.side.Buy? {
      assert lots * (taker.price - price) >= 0.0;
    } else {
      assert lots * (price - taker.price) >= 0.0;
    }
  }

  lemma NothingWithin(taker: Order)
    ensures ValueWithin(taker, 0.0, 0.0)
  {
  }

  lemma {:induction false} FillsWithin(fills: seq<Fill>, taker: Order)
    requires forall f | f in fills :: f.quantity > 0 && NoWorseThanLimit(taker, PriceOf(f.priceKey))
    ensures ValueWithin(taker, SumValue(fills), SumQuantity(fills) as real)
  {
    hide PriceOf, ValueWithin, NoWorseThanLimit;
    NothingWithin(taker);
    if fills != [] {
      assert Last(fills) in fills;
      FillsWithin(Front(fills), taker);
      var done, lots := SumQuantity(Front(fills)) as real, Last(fills).quantity as real;
      var price := PriceOf(Last(fills).priceKey);
      ValueStep(taker, SumValue(Front(fills)), done, lots, price);
      assert SumQuantity(fills) as real == done + lots && SumValue(fills) == SumValue(Front(fills)) + lots * price;
    } else {
      assert SumValue(fills) == 0.0 && SumQuantity(fills) as real == 0.0;
    }
  }

  lemma QuotientWithin(taker: Order, value: real, lots: real)
    requires lots > 0.0 && ValueWithin(taker, value, lots)
    ensures NoWorseThanLimit(taker, value / lots)
  {
  }

  lemma AverageWithin(fills: seq<Fill>, taker: Order)
    requires forall f | f in fills :: f.quantity > 0 && NoWorseThanLimit(taker, PriceOf(f.priceKey))
    ensures SumQuantity(fills) > 0 ==> NoWorseThanLimit(taker, Average(fills))
  {
    hide PriceOf, SumValue, SumQuantity, NoWorseThanLimit, ValueWithin;
    FillsWithin(fills, taker);
    if SumQuantity(fills) > 0 {
      QuotientWithin(taker, SumValue(fills), SumQuantity(fills) as real);
    }
  }

  // ---------------------------------------------------------------- exact limits protect

  lemma ExactLimitBoundsKeys(taker: Order, key: nat)
    requires HasLimit(taker) && Exact(taker) && Crosses(taker, key)
    ensures NoWorseThanLimit(taker, PriceOf(key))
  {
    if taker.side.Buy? {
      BuyLimitHolds(taker);
    } else {
      SellLimitHolds(taker);
    }
    hide PriceOf, Crosses;
  }

  lemma ExactLimitProtects(b: Book, cfg: Config, taker: Order)
    requires Live(OppositeLevels(b, taker.side)) && HasLimit(taker) && Exact(taker)
    ensures ReportWithin(taker, OrderMatcher.MatchLimit(b, cfg, taker).result)
  {
    hide MatchOpposite, PriceOf, Exact, NoWorseThanLimit, Average, KeyOf, Live;
    var levels := OppositeLevels(b, taker.side);
    var fills := MatchOpposite(b, taker, cfg.selfTradePrevention).fills;
    FillsAreFair(b, taker, cfg.selfTradePrevention);
    forall f | f in fills
      ensures f.quantity > 0 && NoWorseThanLimit(taker, PriceOf(f.priceKey))
    {
      assert Fair(f, levels, taker, cfg.selfTradePrevention);
      ExactLimitBoundsKeys(taker, f.priceKey);
    }
    AverageWithin(fills, taker);
    ReportIsFillsOrNothing(b, cfg, taker);
  }

  lemma ReportIsFillsOrNothing(b: Book, cfg: Config, taker: Order)
    ensures var result := OrderMatcher.MatchLimit(b, cfg, taker).result;
            || (result.fills == [] && result.filledQty == 0)
            || (var fills := MatchOpposite(b, taker, cfg.selfTradePrevention).fills;
                && result.fills == fills && result.filledQty == SumQuantity(fills)
                && result.avgFillPrice == Average(fills))
  {
    hide MatchOpposite, KeyOf, Average;
    assert SumQuantity([]) == 0;
  }

  // ---------------------------------------------------------------- other limits do not

  /** A resting order of another user, on the taker's own limit price, that can fill the taker whole. */
  function Counterpart(taker: Order): Order {
    Order(0, if taker.side.Buy? then Sell else Buy, Limit, GTC, taker.price, None, taker.remaining, taker.remaining,
          if taker.userId == Some(0) then Some(1) else Some(0))
  }

  function OneOrderBook(taker: Order): Book {
    WithOpposite(Book(map[], map[], 0), taker.side, map[KeyOf(taker.price) := [Counterpart(taker)]])
  }

  lemma OneOrderBookIsValid(cfg: Config, taker: Order)
    requires taker.remaining > 0
    ensures ValidBook(OneOrderBook(taker), cfg)
  {
    hide KeyOf;
  }

  lemma OneLevelQueue(key: nat, order: Order, side: Side)
    ensures Queue(map[key := [order]], side) == [Resting(key, order)]
  {
    hide NoWorse;
    var levels := map[key := [order]];
    assert levels.Keys == {key} && Best({key}, side) == key && {key} - {key} == {};
    assert BestFirst({key}, side) == [key];
    assert Flatten(levels, [key]) == Tag(key, [order]) + Flatten(levels, []);
  }

  lemma OneOrderFills(cfg: Config, taker: Order)
    requires HasLimit(taker) && taker.remaining > 0
    ensures var sweep := MatchOpposite(OneOrderBook(taker), taker, cfg.selfTradePrevention);
            && sweep.fills == [FillOf(Counterpart(taker), taker, KeyOf(taker.price), taker.remaining, 0)]
            && sweep.left == 0
  {
    hide MatchOpposite, KeyOf, Queue;
    var b, stp := OneOrderBook(taker), cfg.selfTradePrevention;
    var levels, o := OppositeLevels(b, taker.side), Counterpart(taker);
    OneLevelQueue(KeyOf(taker.price), o, taker.side);
    MatchGivesShares(b, taker, stp);
    var q := Queue(levels, taker.side);
    assert !SameUser([o], taker.userId);
    assert Eligible(levels, taker, stp, q[0]);
    assert Ahead(q, levels, taker, stp, 0) == 0 && Ahead(q, levels, taker, stp, 1) == taker.remaining;
    assert Share(q, levels, taker, stp, taker.remaining, 0) == taker.remaining;
    assert FillsBefore(q, levels, taker, stp, taker.remaining, 0, 0) == [];
  }

  lemma InexactKeyIsWorse(taker: Order)
    ensures NoWorseThanLimit(taker, PriceOf(KeyOf(taker.price))) ==> Exact(taker)
  {
    if taker.side.Sell? && taker.price > 0.0 && PriceOf(KeyOf(taker.price)) >= taker.price {
      assert KeyOf(taker.price) as real == taker.price * PRICE_SCALE;
    }
  }

  lemma InexactLimitFails(cfg: Config, taker: Order)
    requires HasLimit(taker) && taker.remaining > 0 && !Exact(taker)
    ensures !ReportWithin(taker, OrderMatcher.MatchLimit(OneOrderBook(taker), cfg, taker).result)
  {
    hide MatchOpposite, KeyOf, PriceOf, Exact, NoWorseThanLimit, OneOrderBook, Average;
    OneOrderFills(cfg, taker);
    InexactKeyIsWorse(taker);
    var result := OrderMatcher.MatchLimit(OneOrderBook(taker), cfg, taker).result;
    assert result.fills == MatchOpposite(OneOrderBook(taker), taker, cfg.selfTradePrevention).fills;
    assert result.fills[0] in result.fills;
  }

  /** MAIN: a limit order with something to fill is told only of fills and averages within its limit, on every
      well-formed book, if and only if the limit is exact. A seller off the tick grid, or a buyer with a negative limit,
      meets a book of one order that fills it beyond its limit. */
  lemma LimitProtectsIff(cfg: Config, taker: Order)
    requires HasLimit(taker) && taker.remaining > 0
    ensures (forall b: Book | ValidBook(b, cfg) :: ReportWithin(taker, OrderMatcher.MatchLimit(b, cfg, taker).result))
       <==> Exact(taker)
  {
    hide ValidBook, ReportWithin, OrderMatcher.MatchLimit, Exact, Live;
    if Exact(taker) {
      forall b: Book | ValidBook(b, cfg)
        ensures ReportWithin(taker, OrderMatcher.MatchLimit(b, cfg, taker).result)
      {
        OppositeIsLive(b, cfg, taker.side);
        ExactLimitProtects(b, cfg, taker);
      }
    } else {
      OneOrderBookIsValid(cfg, taker);
      InexactLimitFails(cfg, taker);
    }
  }
}
