/** Where the matcher departs from what its order types and unit tests suggest. */
module MatchPolicies {
  import opened Prelude
  import opened OrderMatcher
  import opened PriceTimePriority
  import opened MatchFills
  import opened BookInvariants
  import opened LimitProtection
  import opened BookRuns

  // ---------------------------------------------------------------- eligible liquidity

  /** Order by order, what a taker can never touch. */
  function Untouchable(q: seq<Resting>, levels: Levels, taker: Order, stp: bool): seq<Resting> {
    if q == [] then []
    else (if Eligible(levels, taker, stp, q[0]) then [] else [q[0]]) + Untouchable(q[1..], levels, taker, stp)
  }

  ghost predicate NoneEligible(q: seq<Resting>, levels: Levels, taker: Order, stp: bool) {
    forall i | 0 <= i < |q| :: !Eligible(levels, taker, stp, q[i])
  }

  lemma {:induction false} UntouchedIff(q: seq<Resting>, levels: Levels, taker: Order, stp: bool)
    ensures |Untouchable(q, levels, taker, stp)| <= |q|
    ensures Untouchable(q, levels, taker, stp) == q <==> NoneEligible(q, levels, taker, stp)
    ensures |Untouchable(q, levels, taker, stp)| == |q| ==> NoneEligible(q, levels, taker, stp)
  {
    hide Eligible;
    if q != [] {
      UntouchedIff(q[1..], levels, taker, stp);
      assert NoneEligible(q, levels, taker, stp) ==> NoneEligible(q[1..], levels, taker, stp);
      assert forall i | 0 < i < |q| :: q[i] == q[1..][i - 1];
    }
  }

  /** There is liquidity exactly when some order is eligible. */
  lemma {:induction false} AheadIff(q: seq<Resting>, levels: Levels, taker: Order, stp: bool, n: nat)
    requires n <= |q| && forall r | r in q :: r.order.remaining > 0
    ensures Ahead(q, levels, taker, stp, n) >= 0
    ensures Ahead(q, levels, taker, stp, n) == 0 <==> forall i | 0 <= i < n :: !Eligible(levels, taker, stp, q[i])
    decreases n
  {
    hide Eligible;
    if n > 0 {
      AheadIff(q, levels, taker, stp, n - 1);
      assert q[n - 1] in q;
    }
  }

  lemma LiquidityIff(levels: Levels, taker: Order, stp: bool)
    requires Live(levels)
    ensures Liquidity(levels, taker, stp) >= 0
    ensures Liquidity(levels, taker, stp) == 0 <==> NoneEligible(Queue(levels, taker.side), levels, taker, stp)
  {
    hide Eligible, Queue, Ahead;
    var q := Queue(levels, taker.side);
    LiveQueue(levels, taker.side);
    AheadIff(q, levels, taker, stp, |q|);
  }

  /** A demand that is not met leaves exactly what it may not touch. */
  lemma {:induction false} UnmetTakesAll(q: seq<Resting>, levels: Levels, taker: Order, stp: bool, want: int, id: nat)
    requires Greedy(q, levels, taker, stp, want, id).left > 0 && forall r | r in q :: r.order.remaining > 0
    ensures Greedy(q, levels, taker, stp, want, id).queue == Untouchable(q, levels, taker, stp)
  {
    hide Eligible, GreedyHead;
    if q != [] {
      assert q[0] in q;
      var head := GreedyHead(q[0], levels, taker, stp, want, id);
      HeadExhausts(q[0], levels, taker, stp, want, id);
      LeftShrinks(q[1..], levels, taker, stp, head.left, id + |head.fills|);
      UnmetTakesAll(q[1..], levels, taker, stp, head.left, id + |head.fills|);
    }
  }

  lemma {:induction false} SomeFillsSomeLots(fills: seq<Fill>)
    requires forall f | f in fills :: f.quantity > 0
    ensures SumQuantity(fills) >= |fills|
  {
    if fills != [] {
      assert Last(fills) in fills;
      SomeFillsSomeLots(Front(fills));
    }
  }

  /** A match fills something exactly when it is left with less than it wanted. */
  lemma FillsIffLess(b: Book, taker: Order, stp: bool)
    requires Live(OppositeLevels(b, taker.side))
    ensures var sweep := MatchOpposite(b, taker, stp);
            && SumQuantity(sweep.fills) == taker.remaining - sweep.left
            && (sweep.fills != [] <==> sweep.left < taker.remaining)
  {
    hide MatchOpposite, Live;
    FillsAreFair(b, taker, stp);
    var fills := MatchOpposite(b, taker, stp).fills;
    forall f | f in fills
      ensures f.quantity > 0
    {
      assert Fair(f, OppositeLevels(b, taker.side), taker, stp);
    }
    SomeFillsSomeLots(fills);
    assert SumQuantity([]) == 0;
  }

  // ---------------------------------------------------------------- fill or kill

  lemma FillOrKillReport(b: Book, cfg: Config, order: Order)
    requires HasLimit(order) && order.tif.FOK? && order.remaining == order.quantity > 0
    ensures var sweep := MatchOpposite(b, order, cfg.selfTradePrevention);
            var outcome := OrderMatcher.MatchLimit(b, cfg, order);
            && !outcome.rests && outcome.book == AfterSweep(b, order, sweep)
            && outcome.result.fills == (if sweep.left > 0 then [] else sweep.fills)
            && outcome.result.filledQty == SumQuantity(outcome.result.fills)
            && outcome.unreported == if sweep.left > 0 then sweep.fills else []
  {
    hide MatchOpposite, KeyOf, Average;
  }

  /** MAIN: a fill-or-kill order reports all of its quantity or none of it; when it reports none, what it took from its
      makers all the same is the whole eligible liquidity. */
  lemma FillOrKill(b: Book, cfg: Config, order: Order)
    requires ValidBook(b, cfg) && HasLimit(order) && order.tif.FOK? && order.remaining == order.quantity > 0
    ensures var supply := Liquidity(OppositeLevels(b, order.side), order, cfg.selfTradePrevention);
            var outcome := OrderMatcher.MatchLimit(b, cfg, order);
            && !outcome.rests
            && outcome.result.filledQty == (if supply >= order.quantity then order.quantity else 0)
            && SumQuantity(outcome.unreported) == (if supply >= order.quantity then 0 else supply)
            && (outcome.unreported == [] <==> supply >= order.quantity || supply == 0)
            && outcome.book.trades == b.trades + |outcome.result.fills| + |outcome.unreported|
  {
    hide OrderMatcher.MatchLimit, MatchOpposite, Liquidity, ValidBook, Live;
    var stp := cfg.selfTradePrevention;
    OppositeIsLive(b, cfg, order.side);
    MatchLeaves(b, order, stp);
    FillsIffLess(b, order, stp);
    FillOrKillReport(b, cfg, order);
    assert SumQuantity([]) == 0;
  }

  lemma MatchLeaves(b: Book, taker: Order, stp: bool)
    requires Live(OppositeLevels(b, taker.side)) && taker.remaining > 0
    ensures var supply := Liquidity(OppositeLevels(b, taker.side), taker, stp);
            supply >= 0 && MatchOpposite(b, taker, stp).left == Max(0, taker.remaining - supply)
  {
    hide MatchOpposite, Liquidity, FillsBefore, SurvivorsBefore, Queue, Live;
    MatchGivesShares(b, taker, stp);
    LiquidityPositive(OppositeLevels(b, taker.side), taker, stp);
  }

  /** MAIN: a fill-or-kill order that the eligible liquidity does not cover removes every eligible order from the
      opposite side, keeping the others in place, and touches nothing else; so a killed order leaves the book as it was
      exactly when nothing was eligible. */
  lemma KilledOrderTakesAll(b: Book, cfg: Config, order: Order)
    requires ValidBook(b, cfg) && HasLimit(order) && order.tif.FOK? && order.remaining == order.quantity > 0
    requires Liquidity(OppositeLevels(b, order.side), order, cfg.selfTradePrevention) < order.quantity
    ensures var (levels, stp) := (OppositeLevels(b, order.side), cfg.selfTradePrevention);
            var (q, after) := (Queue(levels, order.side), OrderMatcher.MatchLimit(b, cfg, order).book);
            && OwnLevels(after, order.side) == OwnLevels(b, order.side)
            && Queue(OppositeLevels(after, order.side), order.side) == Untouchable(q, levels, order, stp)
            && (Queue(OppositeLevels(after, order.side), order.side) == q <==> Liquidity(levels, order, stp) == 0)
  {
    hide OrderMatcher.MatchLimit, MatchOpposite, Liquidity, ValidBook, Live, Queue, Greedy, NoneEligible, Untouchable;
    var levels, stp := OppositeLevels(b, order.side), cfg.selfTradePrevention;
    OppositeIsLive(b, cfg, order.side);
    MatchLeaves(b, order, stp);
    FillOrKillReport(b, cfg, order);
    MatchIsPriceTime(b, order, stp);
    LiveQueue(levels, order.side);
    UnmetTakesAll(Queue(levels, order.side), levels, order, stp, order.remaining, b.trades);
    UntouchedIff(Queue(levels, order.side), levels, order, stp);
    LiquidityIff(levels, order, stp);
  }

  /** One lot for sale, two wanted or none: nothing is reported, and the lot is gone. */
  lemma KilledOrderEmptiesBook(cfg: Config)
    ensures var ask := Order(1, Sell, Limit, GTC, 50000.0, None, 1, 1, Some(1));
            var bid := Order(2, Buy, Limit, FOK, 50000.0, None, 2, 2, Some(2));
            var b := Book(map[], map[KeyOf(50000.0) := [ask]], 0);
            var outcome := AddOrder(b, cfg, bid);
            && ValidBook(b, cfg) && outcome.result.fills == [] && outcome.result.filledQty == 0
            && outcome.book.asks == map[]
  {
    hide KeyOf, MatchOpposite, Queue, Best;
    var ask := Order(1, Sell, Limit, GTC, 50000.0, None, 1, 1, Some(1));
    var bid := Order(2, Buy, Limit, FOK, 50000.0, None, 2, 2, Some(2));
    var key := KeyOf(50000.0);
    var b, stp := Book(map[], map[key := [ask]], 0), cfg.selfTradePrevention;
    assert ValidLevel([ask], key, Sell, cfg);
    OneLevelQueue(key, ask, Buy);
    var q := Queue(b.asks, Buy);
    assert !SameUser([ask], bid.userId) && Eligible(b.asks, bid, stp, q[0]);
    assert Ahead(q, b.asks, bid, stp, 0) == 0 && Ahead(q, b.asks, bid, stp, 1) == 1;
    KilledOrderTakesAll(b, cfg, bid);
    FillOrKill(b, cfg, bid);
    FillOrKillReport(b, cfg, bid);
    assert Untouchable(q, b.asks, bid, stp) == [];
    NoQueueNoLevels(b, cfg, bid);
  }

  lemma NoQueueNoLevels(b: Book, cfg: Config, order: Order)
    requires ValidBook(b, cfg)
    ensures var levels := MatchOpposite(b, order, cfg.selfTradePrevention).levels;
            Queue(levels, order.side) == [] ==> levels == map[]
  {
    hide MatchOpposite, Queue, ValidBook, Live;
    SweepStaysLive(b, cfg, order);
    var levels := MatchOpposite(b, order, cfg.selfTradePrevention).levels;
    if Queue(levels, order.side) == [] {
      forall k: nat
        ensures k !in levels
      {
        QueueCovers(levels, order.side, k);
      }
    }
  }

  // ---------------------------------------------------------------- anonymous orders

  ghost predicate AllAnonymous(levels: Levels) {
    forall k | k in levels :: forall o | o in levels[k] :: o.userId == None
  }

  lemma AnonymousEligibleIff(levels: Levels, taker: Order, stp: bool, r: Resting)
    requires AllAnonymous(levels) && taker.userId == None && r.key in levels && r.order in levels[r.key]
    ensures Eligible(levels, taker, stp, r) <==> !stp && Crosses(taker, r.key)
  {
  }

  lemma AnonymousLiquidityIff(levels: Levels, taker: Order, stp: bool)
    requires Live(levels) && AllAnonymous(levels) && taker.userId == None
    ensures NoneEligible(Queue(levels, taker.side), levels, taker, stp)
       <==> stp || forall k | k in levels :: !Crosses(taker, k)
  {
    hide Eligible, Crosses, AllAnonymous, Live;
    var q := Queue(levels, taker.side);
    FlattenKeys(levels, BestFirst(levels.Keys, taker.side));
    forall i | 0 <= i < |q|
      ensures q[i].key in levels && (Eligible(levels, taker, stp, q[i]) <==> !stp && Crosses(taker, q[i].key))
    {
      assert q[i] in q;
      AnonymousEligibleIff(levels, taker, stp, q[i]);
    }
    forall k | k in levels
      ensures exists i :: 0 <= i < |q| && q[i].key == k
    {
      QueueCovers(levels, taker.side, k);
    }
  }

  /** MAIN: orders without a user trade with each other exactly when self-trade prevention, which is on by default, is
      off, because two missing users compare equal: against a side without users an anonymous taker fills something if
      and only if prevention is off, it wants something and some price is within its limit. */
  lemma AnonymousTradeIff(b: Book, taker: Order, stp: bool)
    requires Live(OppositeLevels(b, taker.side)) && AllAnonymous(OppositeLevels(b, taker.side)) && taker.userId == None
    ensures MatchOpposite(b, taker, stp).fills != []
       <==> !stp && taker.remaining > 0 && exists k | k in OppositeLevels(b, taker.side) :: Crosses(taker, k)
    ensures stp ==> MatchOpposite(b, taker, stp).left == taker.remaining
  {
    hide MatchOpposite, Liquidity, Live, AllAnonymous, NoneEligible, Queue, Crosses;
    var levels := OppositeLevels(b, taker.side);
    FillsIffLess(b, taker, stp);
    LiquidityIff(levels, taker, stp);
    AnonymousLiquidityIff(levels, taker, stp);
    if taker.remaining > 0 {
      MatchLeaves(b, taker, stp);
    } else {
      NothingWanted(b, taker, stp);
    }
  }

  lemma NothingWanted(b: Book, taker: Order, stp: bool)
    requires Live(OppositeLevels(b, taker.side)) && taker.remaining <= 0
    ensures MatchOpposite(b, taker, stp).left == taker.remaining
  {
    hide MatchOpposite, Liquidity, FillsBefore, SurvivorsBefore, Queue, Live;
    MatchGivesShares(b, taker, stp);
  }

  /** The repository's own limit-match test: an anonymous ask at 50000 meets an anonymous bid at 50000. With prevention
      off it trades as the test expects; with prevention on nothing trades, the bid rests, and the book is locked. */
  lemma LimitMatchTestLocks(cfg: Config)
    ensures var ask := Order(1, Sell, Limit, GTC, 50000.0, None, 1, 1, None);
            var bid := Order(2, Buy, Limit, GTC, 50000.0, None, 1, 1, None);
            var b := AddOrder(EMPTY_BOOK, cfg, ask).book;
            var outcome := AddOrder(b, cfg, bid);
            && ValidBook(b, cfg) && Uncrossed(b)
            && (if cfg.selfTradePrevention
                then outcome.result.fills == [] && !Uncrossed(outcome.book)
                else outcome.result.fills == [FillOf(ask, bid, KeyOf(50000.0), 1, 0)]
                     && outcome.result.remaining == 0 && PriceOf(KeyOf(50000.0)) == 50000.0)
  {
    var ask := Order(1, Sell, Limit, GTC, 50000.0, None, 1, 1, None);
    var bid := Order(2, Buy, Limit, GTC, 50000.0, None, 1, 1, None);
    var key := KeyOf(50000.0);
    assert key == 50_000_000_000;
    TestBook(cfg, ask);
    var b := AddOrder(EMPTY_BOOK, cfg, ask).book;
    hide KeyOf, MatchOpposite, Best;
    if cfg.selfTradePrevention {
      AnonymousTradeIff(b, bid, true);
      var after := AddOrder(b, cfg, bid);
      assert after.rests && key in after.book.bids;
      UnfilledLeavesWithheld(b, cfg, bid, key);
    } else {
      TestTrades(b, ask, bid, key);
    }
  }

  lemma TestBook(cfg: Config, ask: Order)
    requires ask == Order(1, Sell, Limit, GTC, 50000.0, None, 1, 1, None)
    ensures var b := AddOrder(EMPTY_BOOK, cfg, ask).book;
            b == Book(map[], map[KeyOf(50000.0) := [ask]], 0) && ValidBook(b, cfg)
  {
    hide KeyOf, Best;
    assert VisitedKeys(map[], ask) == [];
    assert [] + [ask] == [ask];
    AddKeepsBook(EMPTY_BOOK, cfg, ask);
  }

  lemma TestTrades(b: Book, ask: Order, bid: Order, key: nat)
    requires b == Book(map[], map[key := [ask]], 0) && ask.remaining == bid.remaining == 1
    requires bid.side.Buy? && HasLimit(bid) && key == KeyOf(bid.price)
    ensures var sweep := MatchOpposite(b, bid, false);
            sweep.fills == [FillOf(ask, bid, key, 1, 0)] && sweep.left == 0
  {
    hide MatchOpposite, KeyOf, Queue;
    OneLevelQueue(key, ask, Buy);
    MatchGivesShares(b, bid, false);
    var q := Queue(b.asks, Buy);
    assert Eligible(b.asks, bid, false, q[0]);
    assert Ahead(q, b.asks, bid, false, 0) == 0 && Ahead(q, b.asks, bid, false, 1) == 1;
    assert Share(q, b.asks, bid, false, 1, 0) == 1;
    assert FillsBefore(q, b.asks, bid, false, 1, 0, 0) == [];
  }
}
