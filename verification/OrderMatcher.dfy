/** The order matching engine of rust/order-matcher: what an order does to one book shard.
    The functions say what the sweep loops compute; the class in MatchingEngine.dfy runs those
    loops in place and is proved to compute exactly this. */
module OrderMatcher {
  import opened Prelude

  datatype Side = Buy | Sell

  datatype OrderType = Market | Limit | StopMarket | StopLimit

  datatype TimeInForce = GTC | IOC | FOK | GTD

  /** Quantities are whole lots, so the source's EPSILON threshold is zero. */
  datatype Order = Order(
    id: nat,
    side: Side,
    orderType: OrderType,
    tif: TimeInForce,
    price: real,
    stopPrice: Option<real>,
    quantity: int,
    remaining: int,
    userId: Option<nat>)

  datatype Fill = Fill(
    makerId: nat,
    takerId: nat,
    priceKey: nat,
    quantity: int,
    side: Side,
    makerUser: Option<nat>,
    takerUser: Option<nat>,
    tradeId: nat)

  datatype MatchResult = MatchResult(
    fills: seq<Fill>,
    remaining: int,
    filledQty: int,
    avgFillPrice: real)

  /** One side of the book: price key to the first-in first-out queue at that price. */
  type Levels = map<nat, seq<Order>>

  datatype Book = Book(bids: Levels, asks: Levels, trades: nat)

  datatype Config = Config(maxDepth: nat, selfTradePrevention: bool)

  // ---------------------------------------------------------------- prices

  const PRICE_SCALE: real := 1_000_000.0
  const MAX_PRICE_KEY: nat := 0xFFFF_FFFF_FFFF_FFFF

  /** The saturating, truncating cast to a 64-bit key. */
  function KeyOf(price: real): nat {
    var scaled := price * PRICE_SCALE;
    if scaled < 0.0 then 0
    else if scaled >= MAX_PRICE_KEY as real then MAX_PRICE_KEY
    else scaled.Floor
  }

  function PriceOf(key: nat): real {
    key as real / PRICE_SCALE
  }

  // ---------------------------------------------------------------- sides

  function OppositeLevels(b: Book, side: Side): Levels {
    if side.Buy? then b.asks else b.bids
  }

  function OwnLevels(b: Book, side: Side): Levels {
    if side.Buy? then b.bids else b.asks
  }

  function WithOpposite(b: Book, side: Side, levels: Levels): Book {
    if side.Buy? then b.(asks := levels) else b.(bids := levels)
  }

  function WithOwn(b: Book, side: Side, levels: Levels): Book {
    if side.Buy? then b.(bids := levels) else b.(asks := levels)
  }

  /** A taker on `side` would rather trade at `a` than at `b`, or does not mind. */
  predicate NoWorse(side: Side, a: nat, b: nat) {
    if side.Buy? then a <= b else b <= a
  }

  ghost predicate IsBest(k: nat, keys: set<nat>, side: Side) {
    k in keys && forall x | x in keys :: NoWorse(side, k, x)
  }

  lemma {:induction false} BestExists(keys: set<nat>, side: Side) returns (best: nat)
    requires keys != {}
    ensures IsBest(best, keys, side)
  {
    var first :| first in keys;
    var others := keys - {first};
    best := first;
    if others != {} {
      var second := BestExists(others, side);
      if !NoWorse(side, first, second) {
        best := second;
      }
    }
    forall x | x in keys
      ensures NoWorse(side, best, x)
    {
      assert x == first || x in others;
    }
  }

  function Best(keys: set<nat>, side: Side): (best: nat)
    requires keys != {}
    ensures best in keys
    ensures forall x | x in keys :: NoWorse(side, best, x)
  {
    assert exists k :: IsBest(k, keys, side) by {
      var best := BestExists(keys, side);
    }
    var k :| k in keys && forall x | x in keys :: NoWorse(side, k, x);
    k
  }

  /** The keys in the order a taker on `side` visits them. */
  function BestFirst(keys: set<nat>, side: Side): (order: seq<nat>)
    ensures forall k :: k in order <==> k in keys
    ensures forall i, j | 0 <= i < j < |order| :: order[i] != order[j] && NoWorse(side, order[i], order[j])
  {
    if keys == {} then []
    else
      var best := Best(keys, side);
      [best] + BestFirst(keys - {best}, side)
  }

  function BestBid(b: Book): Option<real> {
    if b.bids.Keys == {} then None else Some(PriceOf(Best(b.bids.Keys, Sell)))
  }

  function BestAsk(b: Book): Option<real> {
    if b.asks.Keys == {} then None else Some(PriceOf(Best(b.asks.Keys, Buy)))
  }

  // ---------------------------------------------------------------- one level

  /** Orders matched under a limit; market and triggered stop-market orders have none. */
  predicate HasLimit(taker: Order) {
    taker.orderType.Limit? || taker.orderType.StopLimit?
  }

  predicate Crosses(taker: Order, key: nat) {
    HasLimit(taker) ==> NoWorse(taker.side, key, KeyOf(taker.price))
  }

  predicate SameUser(orders: seq<Order>, user: Option<nat>) {
    exists i | 0 <= i < |orders| :: orders[i].userId == user
  }

  /** Self-trade prevention skips a whole level. Under a limit the comparison is between the
      optional users themselves, so an anonymous taker skips every level with an anonymous order;
      a market taker looks only when it has a user. */
  predicate SkipsLevel(orders: seq<Order>, taker: Order, stp: bool) {
    stp && (HasLimit(taker) || taker.userId.Some?) && SameUser(orders, taker.userId)
  }

  function FillOf(maker: Order, taker: Order, key: nat, quantity: int, tradeId: nat): Fill {
    Fill(maker.id, taker.id, key, quantity, taker.side, maker.userId, taker.userId, tradeId)
  }

  datatype LevelWalk = LevelWalk(orders: seq<Order>, left: int, fills: seq<Fill>)

  /** The inner loop: debit the makers of one level front to back. */
  function WalkLevel(orders: seq<Order>, taker: Order, key: nat, stp: bool, tradeId: nat): LevelWalk {
    if orders == [] || taker.remaining <= 0 then LevelWalk(orders, taker.remaining, [])
    else if stp && orders[0].userId == taker.userId then
      var rest := WalkLevel(orders[1..], taker, key, stp, tradeId);
      rest.(orders := [orders[0]] + rest.orders)
    else
      var quantity := Min(taker.remaining, orders[0].remaining);
      var debited := orders[0].(remaining := orders[0].remaining - quantity);
      var rest := WalkLevel(orders[1..], taker.(remaining := taker.remaining - quantity), key, stp, tradeId + 1);
      LevelWalk([debited] + rest.orders, rest.left,
                [FillOf(orders[0], taker, key, quantity, tradeId)] + rest.fills)
  }

  function Retain(orders: seq<Order>): (kept: seq<Order>)
    ensures |kept| <= |orders|
    ensures forall o | o in kept :: o in orders && o.remaining > 0
  {
    if orders == [] then []
    else (if orders[0].remaining > 0 then [orders[0]] else []) + Retain(orders[1..])
  }

  // ---------------------------------------------------------------- the sweep

  datatype Sweep = Sweep(levels: Levels, left: int, fills: seq<Fill>)

  function StoreLevel(levels: Levels, key: nat, kept: seq<Order>): Levels {
    if kept == [] then levels - {key} else levels[key := kept]
  }

  /** The outer loop over the visited keys. */
  function SweepLevels(levels: Levels, keys: seq<nat>, taker: Order, stp: bool, tradeId: nat): Sweep
    decreases |keys|
  {
    if keys == [] || taker.remaining <= 0 then Sweep(levels, taker.remaining, [])
    else if keys[0] !in levels || SkipsLevel(levels[keys[0]], taker, stp) then
      SweepLevels(levels, keys[1..], taker, stp, tradeId)
    else
      var walk := WalkLevel(levels[keys[0]], taker, keys[0], stp, tradeId);
      var rest := SweepLevels(StoreLevel(levels, keys[0], Retain(walk.orders)), keys[1..],
                              taker.(remaining := walk.left), stp, tradeId + |walk.fills|);
      rest.(fills := walk.fills + rest.fills)
  }

  function TakeCrossing(keys: seq<nat>, taker: Order): (taken: seq<nat>)
    ensures taken <= keys
  {
    if keys == [] || !Crosses(taker, keys[0]) then []
    else [keys[0]] + TakeCrossing(keys[1..], taker)
  }

  function VisitedKeys(levels: Levels, taker: Order): seq<nat> {
    TakeCrossing(BestFirst(levels.Keys, taker.side), taker)
  }

  function MatchOpposite(b: Book, taker: Order, stp: bool): Sweep {
    var levels := OppositeLevels(b, taker.side);
    SweepLevels(levels, VisitedKeys(levels, taker), taker, stp, b.trades)
  }

  // ---------------------------------------------------------------- results

  function SumQuantity(fills: seq<Fill>): int {
    if fills == [] then 0 else SumQuantity(Front(fills)) + Last(fills).quantity
  }

  function SumValue(fills: seq<Fill>): real {
    if fills == [] then 0.0
    else SumValue(Front(fills)) + Last(fills).quantity as real * PriceOf(Last(fills).priceKey)
  }

  function Average(fills: seq<Fill>): real {
    if SumQuantity(fills) > 0 then SumValue(fills) / SumQuantity(fills) as real else 0.0
  }

  function ResultOf(fills: seq<Fill>, remaining: int): MatchResult {
    MatchResult(fills, remaining, SumQuantity(fills), Average(fills))
  }

  function NoMatch(order: Order): MatchResult {
    MatchResult([], order.quantity, 0, 0.0)
  }

  /** What adding an order does. `unreported` holds fills debited from the makers but cleared from
      the result; `rests` says whether the order itself joined the book. */
  datatype Outcome = Outcome(book: Book, result: MatchResult, rests: bool, unreported: seq<Fill>)

  function AfterSweep(b: Book, taker: Order, sweep: Sweep): Book {
    WithOpposite(b, taker.side, sweep.levels).(trades := b.trades + |sweep.fills|)
  }

  function MatchMarket(b: Book, cfg: Config, taker: Order): Outcome {
    var sweep := MatchOpposite(b, taker, cfg.selfTradePrevention);
    Outcome(AfterSweep(b, taker, sweep), ResultOf(sweep.fills, sweep.left), false, [])
  }

  predicate HasRoom(own: Levels, key: nat, cfg: Config) {
    key !in own || |own[key]| < cfg.maxDepth
  }

  function Enqueue(own: Levels, key: nat, order: Order): Levels {
    own[key := (if key in own then own[key] else []) + [order]]
  }

  function MatchLimit(b: Book, cfg: Config, taker: Order): Outcome {
    var sweep := MatchOpposite(b, taker, cfg.selfTradePrevention);
    var swept := AfterSweep(b, taker, sweep);
    var own := OwnLevels(b, taker.side);
    var key := KeyOf(taker.price);
    if sweep.left > 0 && taker.tif.GTC? then
      if HasRoom(own, key, cfg) then
        var resting := taker.(remaining := sweep.left);
        Outcome(WithOwn(swept, taker.side, Enqueue(own, key, resting)), ResultOf(sweep.fills, sweep.left), true, [])
      else Outcome(swept, ResultOf(sweep.fills, sweep.left), false, [])
    else if taker.tif.FOK? && sweep.left > 0 then
      Outcome(swept, ResultOf([], taker.quantity), false, sweep.fills)
    else Outcome(swept, ResultOf(sweep.fills, sweep.left), false, [])
  }

  predicate Triggered(b: Book, order: Order) {
    var stop := if order.stopPrice.Some? then order.stopPrice.value else order.price;
    if order.side.Buy? then BestAsk(b).Some? && BestAsk(b).value >= stop
    else BestBid(b).Some? && BestBid(b).value <= stop
  }

  function AddOrder(b: Book, cfg: Config, order: Order): Outcome {
    match order.orderType
    case Market => MatchMarket(b, cfg, order)
    case Limit => MatchLimit(b, cfg, order)
    case StopMarket =>
      if Triggered(b, order) then MatchMarket(b, cfg, order) else Outcome(b, NoMatch(order), false, [])
    case StopLimit =>
      if Triggered(b, order) then MatchLimit(b, cfg, order) else Outcome(b, NoMatch(order), false, [])
  }

  // ---------------------------------------------------------------- cancel

  /** Position of the first order with this id, or the length of the queue. */
  function PositionOf(orders: seq<Order>, id: nat): (pos: nat)
    ensures pos <= |orders|
    ensures pos < |orders| ==> orders[pos].id == id
    ensures forall i | 0 <= i < pos :: orders[i].id != id
  {
    if orders == [] || orders[0].id == id then 0 else 1 + PositionOf(orders[1..], id)
  }

  predicate Holds(orders: seq<Order>, id: nat) {
    PositionOf(orders, id) < |orders|
  }

  function FirstHolding(levels: Levels, keys: seq<nat>, id: nat): (found: Option<nat>)
    requires forall k | k in keys :: k in levels
    ensures found.Some? ==> found.value in keys && Holds(levels[found.value], id)
    ensures found.None? ==> forall k | k in keys :: !Holds(levels[k], id)
  {
    if keys == [] then None
    else if Holds(levels[keys[0]], id) then Some(keys[0])
    else FirstHolding(levels, keys[1..], id)
  }

  function Without(orders: seq<Order>, pos: nat): seq<Order>
    requires pos < |orders|
  {
    orders[..pos] + orders[pos + 1..]
  }

  /** Both sides are searched by ascending key, which is how a buyer would visit them. */
  function CancelIn(levels: Levels, id: nat): (Levels, bool) {
    var found := FirstHolding(levels, BestFirst(levels.Keys, Buy), id);
    if found.None? then (levels, false)
    else
      var key := found.value;
      var left := Without(levels[key], PositionOf(levels[key], id));
      (StoreLevel(levels, key, left), left == [])
  }

  function CancelOrder(b: Book, id: nat, side: Side): (Book, bool) {
    var (levels, emptied) := CancelIn(OwnLevels(b, side), id);
    (WithOwn(b, side, levels), emptied)
  }

  // ---------------------------------------------------------------- invariant

  ghost predicate ValidLevel(orders: seq<Order>, key: nat, side: Side, cfg: Config) {
    && 0 < |orders| <= Max(1, cfg.maxDepth)
    && forall o | o in orders ::
         0 < o.remaining <= o.quantity && o.side == side && KeyOf(o.price) == key
  }

  ghost predicate ValidSide(levels: Levels, side: Side, cfg: Config) {
    forall k | k in levels :: ValidLevel(levels[k], k, side, cfg)
  }

  ghost predicate ValidBook(b: Book, cfg: Config) {
    ValidSide(b.bids, Buy, cfg) && ValidSide(b.asks, Sell, cfg)
  }
}
