/** Whole runs of orders and cancels: the book's invariants, and the per-order ledger of lots. */
module BookRuns {
  import opened Prelude
  import opened OrderMatcher
  import opened PriceTimePriority
  import opened MatchFills
  import opened BookQueue
  import opened BookInvariants

  datatype Command = Add(order: Order) | Cancel(id: nat, side: Side)

  /** Orders arrive as the constructors make them, wholly unfilled. */
  predicate Fresh(cmd: Command) {
    cmd.Add? ==> cmd.order.remaining == cmd.order.quantity
  }

  function Step(b: Book, cfg: Config, cmd: Command): Book {
    match cmd
    case Add(order) => AddOrder(b, cfg, order).book
    case Cancel(id, side) => CancelOrder(b, id, side).0
  }

  function Run(b: Book, cfg: Config, cmds: seq<Command>): Book
    decreases |cmds|
  {
    if cmds == [] then b else Run(Step(b, cfg, cmds[0]), cfg, cmds[1..])
  }

  const EMPTY_BOOK: Book := Book(map[], map[], 0)

  lemma StepKeepsBook(b: Book, cfg: Config, cmd: Command)
    requires ValidBook(b, cfg) && Fresh(cmd)
    ensures ValidBook(Step(b, cfg, cmd), cfg)
  {
    hide ValidBook;
    match cmd
    case Add(order) => AddKeepsBook(b, cfg, order);
    case Cancel(id, side) => CancelKeepsBook(b, cfg, id, side);
  }

  /** MAIN: every reachable book is well formed. */
  lemma {:induction false} RunKeepsBook(b: Book, cfg: Config, cmds: seq<Command>)
    requires ValidBook(b, cfg) && forall c | c in cmds :: Fresh(c)
    ensures ValidBook(Run(b, cfg, cmds), cfg)
    decreases |cmds|
  {
    hide ValidBook, Step;
    if cmds != [] {
      StepKeepsBook(b, cfg, cmds[0]);
      RunKeepsBook(Step(b, cfg, cmds[0]), cfg, cmds[1..]);
    }
  }

  // ---------------------------------------------------------------- bids below asks

  predicate MatchesAtLimit(b: Book, order: Order) {
    order.orderType.Limit? || (order.orderType.StopLimit? && Triggered(b, order))
  }

  ghost predicate CrossesBook(b: Book, cfg: Config, cmd: Command) {
    cmd.Add? && MatchesAtLimit(b, cmd.order) && Locks(b, cfg, cmd.order)
  }

  lemma CancelStaysUncrossed(b: Book, id: nat, side: Side)
    requires Uncrossed(b)
    ensures Uncrossed(CancelOrder(b, id, side).0)
  {
    var own := OwnLevels(b, side);
    hide BestFirst;
    assert CancelIn(own, id).0.Keys <= own.Keys;
  }

  /** MAIN: one step crosses an uncrossed book exactly when it is a locking limit order. */
  lemma StepUncrossedIff(b: Book, cfg: Config, cmd: Command)
    requires ValidBook(b, cfg) && Uncrossed(b) && Fresh(cmd)
    ensures Uncrossed(Step(b, cfg, cmd)) <==> !CrossesBook(b, cfg, cmd)
  {
    hide ValidBook, Uncrossed, Locks, MatchLimit, Triggered;
    match cmd
    case Cancel(id, side) => CancelStaysUncrossed(b, id, side);
    case Add(order) =>
      if MatchesAtLimit(b, order) {
        LimitUncrossedIff(b, cfg, order);
      } else {
        SweepStaysUncrossed(b, order, cfg.selfTradePrevention);
      }
  }

  lemma {:induction false} RunGrows(b: Book, cfg: Config, cmds: seq<Command>, n: nat)
    requires n < |cmds|
    ensures Run(b, cfg, cmds[..n + 1]) == Step(Run(b, cfg, cmds[..n]), cfg, cmds[n])
    decreases n
  {
    hide Step;
    if n > 0 {
      RunGrows(Step(b, cfg, cmds[0]), cfg, cmds[1..], n - 1);
      assert cmds[..n + 1][1..] == cmds[1..][..n] && cmds[..n][1..] == cmds[1..][..n - 1];
    }
  }

  lemma ReachedIsValid(b: Book, cfg: Config, cmds: seq<Command>, n: nat)
    requires ValidBook(b, cfg) && (forall c | c in cmds :: Fresh(c)) && n <= |cmds|
    ensures ValidBook(Run(b, cfg, cmds[..n]), cfg)
  {
    hide ValidBook, Run, Fresh;
    RunKeepsBook(b, cfg, cmds[..n]);
  }

  lemma {:induction false} UncrossedUpTo(b: Book, cfg: Config, cmds: seq<Command>, n: nat)
    requires ValidBook(b, cfg) && Uncrossed(b) && (forall c | c in cmds :: Fresh(c)) && n <= |cmds|
    requires forall i | 0 <= i < n :: !CrossesBook(Run(b, cfg, cmds[..i]), cfg, cmds[i])
    ensures Uncrossed(Run(b, cfg, cmds[..n]))
    decreases n
  {
    hide ValidBook, Uncrossed, CrossesBook, Step, Fresh;
    if n > 0 {
      UncrossedUpTo(b, cfg, cmds, n - 1);
      ReachedIsValid(b, cfg, cmds, n - 1);
      RunGrows(b, cfg, cmds, n - 1);
      StepUncrossedIff(Run(b, cfg, cmds[..n - 1]), cfg, cmds[n - 1]);
    }
  }

  /** MAIN: over every run, bids stay below asks throughout if and only if no limit order on the way locks the book. */
  lemma UncrossedThroughoutIff(b: Book, cfg: Config, cmds: seq<Command>)
    requires ValidBook(b, cfg) && Uncrossed(b) && forall c | c in cmds :: Fresh(c)
    ensures (forall n | 0 <= n <= |cmds| :: Uncrossed(Run(b, cfg, cmds[..n])))
       <==> (forall n | 0 <= n < |cmds| :: !CrossesBook(Run(b, cfg, cmds[..n]), cfg, cmds[n]))
  {
    hide ValidBook, Uncrossed, CrossesBook, Step, Run, Fresh;
    if forall n | 0 <= n < |cmds| :: !CrossesBook(Run(b, cfg, cmds[..n]), cfg, cmds[n]) {
      forall n | 0 <= n <= |cmds|
        ensures Uncrossed(Run(b, cfg, cmds[..n]))
      {
        UncrossedUpTo(b, cfg, cmds, n);
      }
    } else {
      var n :| 0 <= n < |cmds| && CrossesBook(Run(b, cfg, cmds[..n]), cfg, cmds[n]);
      if Uncrossed(Run(b, cfg, cmds[..n])) {
        ReachedIsValid(b, cfg, cmds, n);
        RunGrows(b, cfg, cmds, n);
        StepUncrossedIff(Run(b, cfg, cmds[..n]), cfg, cmds[n]);
      }
    }
  }

  /** MAIN: with self-trade prevention off, no run ever crosses the book. */
  lemma {:induction false} RunStaysUncrossed(b: Book, cfg: Config, cmds: seq<Command>)
    requires !cfg.selfTradePrevention && ValidBook(b, cfg) && Uncrossed(b) && forall c | c in cmds :: Fresh(c)
    ensures Uncrossed(Run(b, cfg, cmds))
    decreases |cmds|
  {
    hide ValidBook, Uncrossed, Step, Liquidity, Crosses;
    if cmds != [] {
      StepUncrossedIff(b, cfg, cmds[0]);
      StepKeepsBook(b, cfg, cmds[0]);
      RunStaysUncrossed(Step(b, cfg, cmds[0]), cfg, cmds[1..]);
    }
  }

  // ---------------------------------------------------------------- the ledger of one order id

  function RestingIn(q: seq<Resting>, id: nat): int {
    if q == [] then 0 else (if q[0].order.id == id then q[0].order.remaining else 0) + RestingIn(q[1..], id)
  }

  /** Lots of this id in the book. */
  function RestingLots(b: Book, id: nat): int {
    RestingIn(Queue(b.bids, Sell), id) + RestingIn(Queue(b.asks, Buy), id)
  }

  function MakerLots(fills: seq<Fill>, id: nat): int {
    if fills == [] then 0 else (if fills[0].makerId == id then fills[0].quantity else 0) + MakerLots(fills[1..], id)
  }

  function TakerLots(fills: seq<Fill>, id: nat): int {
    if fills == [] then 0 else (if fills[0].takerId == id then fills[0].quantity else 0) + TakerLots(fills[1..], id)
  }

  datatype Account = Account(submitted: int, traded: int, discarded: int, unreported: int)

  function Plus(a: Account, b: Account): Account {
    Account(a.submitted + b.submitted, a.traded + b.traded, a.discarded + b.discarded, a.unreported + b.unreported)
  }

  /** What one command books to an id: its quantity when submitted, its lots in the reported fills on
      either side, the residue dropped by an order that does not rest or by a cancel, and the lots
      taken from it by fills that were then cleared from the report. */
  function Booked(b: Book, cfg: Config, cmd: Command, id: nat): Account {
    match cmd
    case Add(order) =>
      var outcome := AddOrder(b, cfg, order);
      Account(if order.id == id then order.quantity else 0,
              MakerLots(outcome.result.fills, id) + TakerLots(outcome.result.fills, id),
              if order.id == id && !outcome.rests then outcome.result.remaining else 0,
              MakerLots(outcome.unreported, id))
    case Cancel(target, side) =>
      var own := OwnLevels(b, side);
      var found := FirstHolding(own, BestFirst(own.Keys, Buy), target);
      var removed :=
        if target == id && found.Some? then own[found.value][PositionOf(own[found.value], target)].remaining else 0;
      Account(0, 0, removed, 0)
  }

  function Ledger(b: Book, cfg: Config, cmds: seq<Command>, id: nat): Account
    decreases |cmds|
  {
    if cmds == [] then Account(0, 0, 0, 0)
    else Plus(Booked(b, cfg, cmds[0], id), Ledger(Step(b, cfg, cmds[0]), cfg, cmds[1..], id))
  }

  lemma {:induction false} RestingAppend(a: seq<Resting>, b: seq<Resting>, id: nat)
    ensures RestingIn(a + b, id) == RestingIn(a, id) + RestingIn(b, id)
  {
    if a == [] {
      assert a + b == b;
    } else {
      assert (a + b)[1..] == a[1..] + b;
      RestingAppend(a[1..], b, id);
    }
  }

  lemma {:induction false} MakerAppend(a: seq<Fill>, b: seq<Fill>, id: nat)
    ensures MakerLots(a + b, id) == MakerLots(a, id) + MakerLots(b, id)
  {
    if a == [] {
      assert a + b == b;
    } else {
      assert (a + b)[1..] == a[1..] + b;
      MakerAppend(a[1..], b, id);
    }
  }

  /** The naive matcher moves lots from the queue to the fills and loses none. */
  lemma {:induction false} GreedyConserves(q: seq<Resting>, levels: Levels, taker: Order, stp: bool, want: int,
                                           tid: nat, id: nat)
    ensures var all := Greedy(q, levels, taker, stp, want, tid);
            RestingIn(q, id) == RestingIn(all.queue, id) + MakerLots(all.fills, id)
  {
    hide Eligible, GreedyHead;
    if q != [] {
      var head := GreedyHead(q[0], levels, taker, stp, want, tid);
      GreedyConserves(q[1..], levels, taker, stp, head.left, tid + |head.fills|, id);
      HeadConserves(q[0], levels, taker, stp, want, tid, id);
      ThenAdds(head, Greedy(q[1..], levels, taker, stp, head.left, tid + |head.fills|), id);
    }
  }

  lemma ThenAdds(first: Allocation, second: Allocation, id: nat)
    ensures var all := Then(first, second);
            RestingIn(all.queue, id) + MakerLots(all.fills, id)
            == RestingIn(first.queue, id) + MakerLots(first.fills, id)
             + RestingIn(second.queue, id) + MakerLots(second.fills, id)
  {
    hide RestingIn, MakerLots;
    RestingAppend(first.queue, second.queue, id);
    MakerAppend(first.fills, second.fills, id);
  }

  lemma HeadConserves(r: Resting, levels: Levels, taker: Order, stp: bool, want: int, tid: nat, id: nat)
    ensures var head := GreedyHead(r, levels, taker, stp, want, tid);
            (if r.order.id == id then r.order.remaining else 0) == RestingIn(head.queue, id) + MakerLots(head.fills, id)
  {
    hide Eligible;
  }

  lemma {:induction false} TakerGetsAll(fills: seq<Fill>, taker: Order, id: nat)
    requires forall f | f in fills :: f.takerId == taker.id
    ensures TakerLots(fills, id) == if taker.id == id then SumQuantity(fills) else 0
  {
    if fills != [] {
      TakerGetsAll(Front(fills), taker, id);
      assert fills == Front(fills) + [Last(fills)];
      TakerAppend(Front(fills), [Last(fills)], id);
      assert Last(fills) in fills;
    }
  }

  lemma {:induction false} TakerAppend(a: seq<Fill>, b: seq<Fill>, id: nat)
    ensures TakerLots(a + b, id) == TakerLots(a, id) + TakerLots(b, id)
  {
    if a == [] {
      assert a + b == b;
    } else {
      assert (a + b)[1..] == a[1..] + b;
      TakerAppend(a[1..], b, id);
    }
  }

  lemma SideConserves(b: Book, cfg: Config, taker: Order, id: nat)
    requires ValidBook(b, cfg)
    ensures var sweep := MatchOpposite(b, taker, cfg.selfTradePrevention);
            RestingIn(Queue(OppositeLevels(b, taker.side), taker.side), id)
            == RestingIn(Queue(sweep.levels, taker.side), id) + MakerLots(sweep.fills, id)
  {
    var stp := cfg.selfTradePrevention;
    var levels := OppositeLevels(b, taker.side);
    ValidIsLive(b, cfg);
    hide ValidBook, Live;
    MatchIsPriceTime(b, taker, stp);
    hide MatchOpposite, Queue, Greedy, RestingIn;
    GreedyConserves(Queue(levels, taker.side), levels, taker, stp, taker.remaining, b.trades, id);
  }

  lemma OneSideMoves(b: Book, side: Side, levels: Levels, trades: nat, id: nat)
    ensures RestingLots(b, id) - RestingLots(WithOpposite(b, side, levels).(trades := trades), id)
         == RestingIn(Queue(OppositeLevels(b, side), side), id) - RestingIn(Queue(levels, side), id)
  {
    hide Queue, RestingIn;
  }

  lemma DemandConserved(b: Book, cfg: Config, taker: Order, id: nat)
    requires ValidBook(b, cfg)
    ensures var sweep := MatchOpposite(b, taker, cfg.selfTradePrevention);
            && SumQuantity(sweep.fills) + sweep.left == taker.remaining
            && TakerLots(sweep.fills, id) == if taker.id == id then SumQuantity(sweep.fills) else 0
  {
    ValidIsLive(b, cfg);
    hide ValidBook, Live, MatchOpposite, SumQuantity, TakerLots;
    FillsAreFair(b, taker, cfg.selfTradePrevention);
    TakerGetsAll(MatchOpposite(b, taker, cfg.selfTradePrevention).fills, taker, id);
  }

  /** A sweep: makers' debits are in the fills, and the taker's demand is filled or left. */
  lemma SweepConserves(b: Book, cfg: Config, taker: Order, id: nat)
    requires ValidBook(b, cfg)
    ensures var sweep := MatchOpposite(b, taker, cfg.selfTradePrevention);
            && RestingLots(b, id) == RestingLots(AfterSweep(b, taker, sweep), id) + MakerLots(sweep.fills, id)
            && SumQuantity(sweep.fills) + sweep.left == taker.remaining
            && TakerLots(sweep.fills, id) == if taker.id == id then SumQuantity(sweep.fills) else 0
  {
    hide ValidBook, MatchOpposite, Queue, RestingIn, RestingLots, MakerLots, TakerLots, SumQuantity;
    var sweep := MatchOpposite(b, taker, cfg.selfTradePrevention);
    SideConserves(b, cfg, taker, id);
    DemandConserved(b, cfg, taker, id);
    OneSideMoves(b, taker.side, sweep.levels, b.trades + |sweep.fills|, id);
  }

  lemma RestingAddsLots(b: Book, side: Side, order: Order, id: nat)
    ensures RestingLots(WithOwn(b, side, Enqueue(OwnLevels(b, side), KeyOf(order.price), order)), id)
         == RestingLots(b, id) + if order.id == id then order.remaining else 0
  {
    hide Queue, Enqueue, KeyOf;
    var before, after := RestingJoinsTheTail(OwnLevels(b, side), order, if side.Buy? then Sell else Buy);
    var joined := [Resting(KeyOf(order.price), order)];
    RestingAppend(before, after, id);
    RestingAppend(before + joined, after, id);
    RestingAppend(before, joined, id);
  }

  /** What an outcome moves, for one id. */
  ghost predicate Balanced(b: Book, order: Order, outcome: Outcome, id: nat) {
    var mine := order.id == id;
    RestingLots(b, id) + (if mine then order.quantity else 0)
    == RestingLots(outcome.book, id)
     + MakerLots(outcome.result.fills, id) + TakerLots(outcome.result.fills, id) + MakerLots(outcome.unreported, id)
     + (if mine && !outcome.rests then outcome.result.remaining else 0)
  }

  lemma MarketBalances(b: Book, cfg: Config, order: Order, id: nat)
    requires ValidBook(b, cfg) && order.remaining == order.quantity
    ensures Balanced(b, order, OrderMatcher.MatchMarket(b, cfg, order), id)
  {
    hide MatchOpposite, RestingLots, ValidBook, AfterSweep, Average;
    SweepConserves(b, cfg, order, id);
  }

  lemma LimitBalances(b: Book, cfg: Config, order: Order, id: nat)
    requires ValidBook(b, cfg) && order.remaining == order.quantity
    ensures Balanced(b, order, OrderMatcher.MatchLimit(b, cfg, order), id)
  {
    hide MatchOpposite, RestingLots, ValidBook, Enqueue, KeyOf, HasRoom, Average;
    var sweep := MatchOpposite(b, order, cfg.selfTradePrevention);
    var swept := AfterSweep(b, order, sweep);
    SweepConserves(b, cfg, order, id);
    RestingAddsLots(swept, order.side, order.(remaining := sweep.left), id);
    assert OwnLevels(swept, order.side) == OwnLevels(b, order.side);
    hide MakerLots, TakerLots, SumQuantity;
    var none: seq<Fill> := [];
    NoFillsNoLots(id);
  }

  lemma NoFillsNoLots(id: nat)
    ensures MakerLots([], id) == 0 && TakerLots([], id) == 0
  {
  }

  /** One order books to every id exactly what it moves. */
  lemma AddBalances(b: Book, cfg: Config, order: Order, id: nat)
    requires ValidBook(b, cfg) && order.remaining == order.quantity
    ensures Balanced(b, order, AddOrder(b, cfg, order), id)
  {
    hide RestingLots, ValidBook, Triggered, MatchLimit, MatchMarket;
    MarketBalances(b, cfg, order, id);
    LimitBalances(b, cfg, order, id);
  }

  lemma CancelBalances(b: Book, cfg: Config, target: nat, side: Side, id: nat)
    ensures RestingLots(b, id)
         == RestingLots(CancelOrder(b, target, side).0, id) + Booked(b, cfg, Cancel(target, side), id).discarded
  {
    var own := OwnLevels(b, side);
    var viewer := if side.Buy? then Sell else Buy;
    hide Queue, BestFirst, StoreLevel, PositionOf, FirstHolding;
    var found := FirstHolding(own, BestFirst(own.Keys, Buy), target);
    if found.Some? {
      CancelTakesLots(own, target, viewer, id);
    }
  }

  lemma CancelTakesLots(own: Levels, target: nat, viewer: Side, id: nat)
    requires FirstHolding(own, BestFirst(own.Keys, Buy), target).Some?
    ensures var key := FirstHolding(own, BestFirst(own.Keys, Buy), target).value;
            var removed := own[key][PositionOf(own[key], target)];
            RestingIn(Queue(own, viewer), id)
            == RestingIn(Queue(CancelIn(own, target).0, viewer), id) + if target == id then removed.remaining else 0
  {
    hide Queue, BestFirst, StoreLevel, PositionOf, FirstHolding, Tag;
    var key := FirstHolding(own, BestFirst(own.Keys, Buy), target).value;
    var orders := own[key];
    var pos := PositionOf(orders, target);
    var before, after := StoreSplitsQueue(own, key, Without(orders, pos), viewer);
    TagSplits(key, orders, pos);
    var front, r, back := Tag(key, orders[..pos]), [Resting(key, orders[pos])], Tag(key, orders[pos + 1..]);
    RestingAppend(before + (front + r + back), after, id);
    RestingAppend(before, front + r + back, id);
    RestingAppend(front + r, back, id);
    RestingAppend(front, r, id);
    RestingAppend(before + (front + back), after, id);
    RestingAppend(before, front + back, id);
    RestingAppend(front, back, id);
  }

  lemma StepBalances(b: Book, cfg: Config, cmd: Command, id: nat)
    requires ValidBook(b, cfg) && Fresh(cmd)
    ensures var booked := Booked(b, cfg, cmd, id);
            RestingLots(b, id) + booked.submitted
            == RestingLots(Step(b, cfg, cmd), id) + booked.traded + booked.discarded + booked.unreported
  {
    hide RestingLots, ValidBook, AddOrder, CancelOrder;
    match cmd
    case Add(order) => AddBalances(b, cfg, order, id);
    case Cancel(target, side) => CancelBalances(b, cfg, target, side, id);
  }

  /** MAIN: over any run and for every id, the lots submitted under it are the lots traded in reported
      fills, resting, discarded, or debited by fills that were cleared from a report. */
  lemma {:induction false} LedgerBalances(b: Book, cfg: Config, cmds: seq<Command>, id: nat)
    requires ValidBook(b, cfg) && forall c | c in cmds :: Fresh(c)
    ensures var ledger := Ledger(b, cfg, cmds, id);
            RestingLots(b, id) + ledger.submitted
            == RestingLots(Run(b, cfg, cmds), id) + ledger.traded + ledger.discarded + ledger.unreported
    decreases |cmds|
  {
    hide RestingLots, ValidBook, Step, Booked, Fresh;
    if cmds != [] {
      assert Fresh(cmds[0]);
      StepBalances(b, cfg, cmds[0], id);
      StepKeepsBook(b, cfg, cmds[0]);
      LedgerBalances(Step(b, cfg, cmds[0]), cfg, cmds[1..], id);
    }
  }
}
