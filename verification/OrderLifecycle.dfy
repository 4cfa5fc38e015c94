/** Order placement and lifecycle of execution/order_manager.py. Orders are numbered in creation order,
    which stands for their random ids; times are the millisecond readings the code compares. */
module OrderLifecycle {
  import opened Prelude
  import opened Idempotency

  datatype Side = Buy | Sell

  datatype Status = Pending | Submitted | Open | PartiallyFilled | Filled | Cancelled | Rejected | Expired

  datatype Execution = Execution(quantity: real, price: real, fee: real)

  datatype Order = Order(
    clientId: string,
    venue: string,
    symbol: string,
    side: Side,
    quantity: real,
    status: Status,
    createdAt: int,
    exchangeId: Option<string>,
    fills: seq<Execution>,
    cumulative: real,
    averagePrice: real,
    totalFee: real)

  const SELF_TRADE_WINDOW_MS := 60000
  const FILL_TOLERANCE: real := 0.00000001

  datatype Manager = Manager(orders: seq<Order>, byClient: map<string, nat>, byExchange: map<(string, string), nat>,
                             records: seq<Record<nat>>)

  const NEW_MANAGER := Manager([], map[], map[], [])

  predicate Active(o: Order) {
    o.status.Pending? || o.status.Submitted? || o.status.Open? || o.status.PartiallyFilled?
  }

  /** Orders that could trade against each other. */
  predicate Opposing(a: Order, b: Order) {
    a.venue == b.venue && a.symbol == b.symbol && a.side != b.side
  }

  // ---------------------------------------------------------------- operations

  /** A placement request with its resolved venue, client id and clock readings. */
  datatype Request = Request(
    breakerOpen: bool,
    clientId: string,
    venue: string,
    symbol: string,
    side: Side,
    quantity: real,
    cleanedAt: int,
    checkedAt: int,
    recordedAt: int,
    screenedAt: int,
    createdAt: int)

  datatype Reply = BreakerOpen | AlreadyPlaced(order: nat) | SelfTrade(order: nat) | Created(order: nat)

  function NewOrder(r: Request): Order {
    Order(r.clientId, r.venue, r.symbol, r.side, r.quantity, Pending, r.createdAt, None, [], 0.0, 0.0, 0.0)
  }

  predicate Conflicts(o: Order, r: Request) {
    Active(o) && Opposing(o, NewOrder(r)) && r.screenedAt - o.createdAt < SELF_TRADE_WINDOW_MS
  }

  /** The oldest conflicting order, or the number of orders. */
  function FirstConflict(orders: seq<Order>, r: Request): (i: nat)
    ensures i <= |orders|
    ensures i < |orders| ==> Conflicts(orders[i], r)
    ensures forall j | 0 <= j < i :: !Conflicts(orders[j], r)
  {
    if orders == [] || Conflicts(orders[0], r) then 0 else 1 + FirstConflict(orders[1..], r)
  }

  function StoreResult(records: seq<Record<nat>>, key: Key, result: nat): seq<Record<nat>> {
    var i := Find(records, key);
    if i < |records| then records[i := records[i].(result := Some(result))] else records
  }

  function CheckOf(r: Request): Call {
    Call(r.clientId, r.cleanedAt, r.checkedAt, r.recordedAt)
  }

  function Place(m: Manager, limits: Limits, r: Request): (Manager, Reply) {
    if r.breakerOpen then (m, BreakerOpen)
    else
      var answer := CheckAndSet(m.records, limits, CheckOf(r));
      var checked := m.(records := answer.records);
      if answer.duplicate && r.clientId in m.byClient then (checked, AlreadyPlaced(m.byClient[r.clientId]))
      else
        var i := FirstConflict(m.orders, r);
        if i < |m.orders| then (checked, SelfTrade(i))
        else
          var id := |m.orders|;
          (Manager(m.orders + [NewOrder(r)], m.byClient[r.clientId := id], m.byExchange,
                   StoreResult(answer.records, r.clientId, id)),
           Created(id))
  }

  function Confirmed(o: Order, exchangeId: string): Order {
    o.(exchangeId := Some(exchangeId), status := Submitted)
  }

  function Value(fills: seq<Execution>): real {
    if fills == [] then 0.0 else Value(Front(fills)) + Last(fills).quantity * Last(fills).price
  }

  function Quantity(fills: seq<Execution>): real {
    if fills == [] then 0.0 else Quantity(Front(fills)) + Last(fills).quantity
  }

  function Fees(fills: seq<Execution>): real {
    if fills == [] then 0.0 else Fees(Front(fills)) + Last(fills).fee
  }

  function FillStatus(o: Order, cumulative: real): Status {
    if AbsReal(cumulative - o.quantity) < FILL_TOLERANCE then Filled
    else if cumulative > 0.0 then PartiallyFilled
    else o.status
  }

  function WithFill(o: Order, f: Execution): Order {
    var cumulative := o.cumulative + f.quantity;
    var fills := o.fills + [f];
    o.(fills := fills,
       cumulative := cumulative,
       totalFee := o.totalFee + f.fee,
       averagePrice := if cumulative > 0.0 then Value(fills) / cumulative else 0.0,
       status := FillStatus(o, cumulative))
  }

  datatype Event =
    | PlaceOrder(request: Request)
    | Confirm(clientId: string, exchangeId: string)
    | Execute(clientId: string, execution: Execution)
    | Cancel(clientId: string)

  /** The order an event on a known client id turns its latest order into. */
  function Changed(o: Order, e: Event): Order
    requires !e.PlaceOrder?
  {
    match e
    case Confirm(_, exchangeId) => Confirmed(o, exchangeId)
    case Execute(_, execution) => WithFill(o, execution)
    case Cancel(_) => if Active(o) then o.(status := Cancelled) else o
  }

  ghost predicate Indexed(m: Manager) {
    && (forall c | c in m.byClient :: m.byClient[c] < |m.orders| && m.orders[m.byClient[c]].clientId == c)
    && (forall x | x in m.byExchange :: m.byExchange[x] < |m.orders| && m.orders[m.byExchange[x]].venue == x.0)
    && (forall i | 0 <= i < |m.orders| :: m.orders[i].clientId in m.byClient && i <= m.byClient[m.orders[i].clientId])
  }

  function Next(m: Manager, limits: Limits, e: Event): Manager
    requires Indexed(m)
  {
    if e.PlaceOrder? then Place(m, limits, e.request).0
    else if e.clientId !in m.byClient then m
    else
      var i := m.byClient[e.clientId];
      var changed := m.(orders := m.orders[i := Changed(m.orders[i], e)]);
      if e.Confirm? then changed.(byExchange := m.byExchange[(m.orders[i].venue, e.exchangeId) := i]) else changed
  }

  lemma PlaceIndexed(m: Manager, limits: Limits, r: Request)
    requires Indexed(m)
    ensures Indexed(Place(m, limits, r).0)
  {
    hide CheckAndSet, StoreResult, FirstConflict;
  }

  /** The indexes always name the latest order of each client id, and every order is either that or was
      superseded by a later order of the same id. */
  lemma NextIndexed(m: Manager, limits: Limits, e: Event)
    requires Indexed(m)
    ensures Indexed(Next(m, limits, e))
  {
    hide Place, Changed, Indexed;
    if e.PlaceOrder? {
      PlaceIndexed(m, limits, e.request);
    } else if e.clientId in m.byClient {
      KnownClientIndexed(m, e.clientId);
      var i := m.byClient[e.clientId];
      ChangeKeepsIdentity(m.orders[i], e);
      ChangeIndexed(m, i, Changed(m.orders[i], e));
      if e.Confirm? {
        ConfirmIndexed(m.(orders := m.orders[i := Changed(m.orders[i], e)]), i, (m.orders[i].venue, e.exchangeId));
      }
    }
  }

  lemma KnownClientIndexed(m: Manager, clientId: string)
    requires Indexed(m) && clientId in m.byClient
    ensures m.byClient[clientId] < |m.orders|
  {
  }

  /** Replacing an order by one of the same client and venue keeps the indexes. */
  lemma ChangeIndexed(m: Manager, i: nat, o: Order)
    requires Indexed(m) && i < |m.orders| && o.clientId == m.orders[i].clientId && o.venue == m.orders[i].venue
    ensures Indexed(m.(orders := m.orders[i := o]))
  {
  }

  /** So does pointing an exchange id of its venue at an order. */
  lemma ConfirmIndexed(m: Manager, i: nat, key: (string, string))
    requires Indexed(m) && i < |m.orders| && m.orders[i].venue == key.0
    ensures Indexed(m.(byExchange := m.byExchange[key := i]))
  {
  }

  lemma ChangeKeepsIdentity(o: Order, e: Event)
    requires !e.PlaceOrder?
    ensures var n := Changed(o, e);
            && n.clientId == o.clientId && n.venue == o.venue && n.symbol == o.symbol && n.side == o.side
            && n.quantity == o.quantity && n.createdAt == o.createdAt
  {
  }

  // ---------------------------------------------------------------- opposing orders

  /** Active opposing orders were created at least the window apart. */
  ghost predicate Safe(orders: seq<Order>) {
    forall i, j | 0 <= i < j < |orders| && Active(orders[i]) && Active(orders[j]) && Opposing(orders[i], orders[j]) ::
      orders[j].createdAt - orders[i].createdAt >= SELF_TRADE_WINDOW_MS
  }

  predicate Within(a: Order, b: Order) {
    Opposing(a, b) && -SELF_TRADE_WINDOW_MS < a.createdAt - b.createdAt < SELF_TRADE_WINDOW_MS
  }

  ghost predicate InCreationOrder(orders: seq<Order>) {
    forall i, j | 0 <= i < j < |orders| :: orders[i].createdAt <= orders[j].createdAt
  }

  /** An event that brings an inactive order back to life next to a recent active opposing one. */
  ghost predicate Revives(m: Manager, e: Event)
    requires Indexed(m)
  {
    && !e.PlaceOrder? && e.clientId in m.byClient
    && var i := m.byClient[e.clientId];
    && !Active(m.orders[i]) && Active(Changed(m.orders[i], e))
    && exists j | 0 <= j < |m.orders| && j != i :: Active(m.orders[j]) && Within(m.orders[j], m.orders[i])
  }

  lemma PlaceSafe(m: Manager, limits: Limits, r: Request)
    requires Safe(m.orders) && r.screenedAt <= r.createdAt
    ensures Safe(Place(m, limits, r).0.orders)
  {
    hide CheckAndSet, StoreResult, Active, Opposing;
  }

  lemma RevivedIsUnsafe(orders: seq<Order>, i: nat, j: nat)
    requires i < |orders| && j < |orders| && i != j && InCreationOrder(orders)
    requires Active(orders[i]) && Active(orders[j]) && Within(orders[j], orders[i])
    ensures !Safe(orders)
  {
    hide Active;
    var a, b := Min(i, j), Max(i, j);
    assert Active(orders[a]) && Active(orders[b]) && Opposing(orders[a], orders[b]);
  }

  lemma ReplacedIsSafe(orders: seq<Order>, i: nat, o: Order)
    requires i < |orders| && InCreationOrder(orders) && Safe(orders)
    requires o.venue == orders[i].venue && o.symbol == orders[i].symbol && o.side == orders[i].side
    requires o.createdAt == orders[i].createdAt
    requires Active(o) && !Active(orders[i]) ==>
               forall j | 0 <= j < |orders| && j != i :: !(Active(orders[j]) && Within(orders[j], orders[i]))
    ensures Safe(orders[i := o])
  {
    hide Active;
    var after := orders[i := o];
    forall a, b | 0 <= a < b < |after| && Active(after[a]) && Active(after[b]) && Opposing(after[a], after[b])
      ensures after[b].createdAt - after[a].createdAt >= SELF_TRADE_WINDOW_MS
    {
      assert Opposing(orders[a], orders[b]);
      if (a == i || b == i) && !Active(orders[i]) {
        var j := if a == i then b else a;
        assert !Within(orders[j], orders[i]);
      }
    }
  }

  /** MAIN: on a safe table, a confirmation, fill or cancellation leaves it safe exactly when it does not
      revive an inactive order within the window of an active opposing one. */
  lemma ChangeSafeIff(m: Manager, e: Event)
    requires Indexed(m) && InCreationOrder(m.orders) && Safe(m.orders) && !e.PlaceOrder? && e.clientId in m.byClient
    ensures var i := m.byClient[e.clientId];
            Safe(m.orders[i := Changed(m.orders[i], e)]) <==> !Revives(m, e)
  {
    var i := m.byClient[e.clientId];
    var o := Changed(m.orders[i], e);
    ChangeKeepsIdentity(m.orders[i], e);
    hide Changed, Active, Safe;
    if Revives(m, e) {
      var j :| 0 <= j < |m.orders| && j != i && Active(m.orders[j]) && Within(m.orders[j], m.orders[i]);
      RevivedIsUnsafe(m.orders[i := o], i, j);
    } else {
      ReplacedIsSafe(m.orders, i, o);
    }
  }

  // ---------------------------------------------------------------- fills

  /** The totals of an order are the folds over its fills. */
  ghost predicate Folded(o: Order) {
    && o.cumulative == Quantity(o.fills)
    && o.totalFee == Fees(o.fills)
    && o.averagePrice == if Quantity(o.fills) > 0.0 then Value(o.fills) / Quantity(o.fills) else 0.0
  }

  lemma ChangeKeepsFolds(o: Order, e: Event)
    requires Folded(o) && !e.PlaceOrder?
    ensures Folded(Changed(o, e))
  {
    if e.Execute? {
      assert Front(o.fills + [e.execution]) == o.fills;
    }
  }

  ghost predicate AllFolded(orders: seq<Order>) {
    forall i | 0 <= i < |orders| :: Folded(orders[i])
  }

  lemma NextKeepsFolds(m: Manager, limits: Limits, e: Event)
    requires Indexed(m) && AllFolded(m.orders)
    ensures AllFolded(Next(m, limits, e).orders)
  {
    hide CheckAndSet, StoreResult, FirstConflict, Changed;
    if e.PlaceOrder? {
      assert Folded(NewOrder(e.request));
    } else if e.clientId in m.byClient {
      hide Folded;
      ChangeKeepsFolds(m.orders[m.byClient[e.clientId]], e);
    }
  }

  // ---------------------------------------------------------------- runs

  function After(limits: Limits, events: seq<Event>): (m: Manager)
    ensures Indexed(m)
  {
    if events == [] then NEW_MANAGER
    else
      var before := After(limits, Front(events));
      NextIndexed(before, limits, Last(events));
      Next(before, limits, Last(events))
  }

  /** The readings of a run never run backwards. */
  function ClockAfter(events: seq<Event>, epoch: int): int {
    if events == [] then epoch
    else if Last(events).PlaceOrder? && !Last(events).request.breakerOpen then Last(events).request.createdAt
    else ClockAfter(Front(events), epoch)
  }

  predicate OrderlyRequest(r: Request, now: int) {
    now <= r.cleanedAt <= r.checkedAt <= r.recordedAt <= r.screenedAt <= r.createdAt
  }

  ghost predicate Orderly(events: seq<Event>, epoch: int) {
    events == [] ||
    (&& Orderly(Front(events), epoch)
     && (Last(events).PlaceOrder? && !Last(events).request.breakerOpen ==>
           OrderlyRequest(Last(events).request, ClockAfter(Front(events), epoch))))
  }

  /** Confirmations and fills arrive only for orders that are still active. */
  ghost predicate Timely(limits: Limits, events: seq<Event>) {
    events == [] ||
    (&& Timely(limits, Front(events))
     && var m, e := After(limits, Front(events)), Last(events);
       (e.Confirm? || e.Execute?) && e.clientId in m.byClient ==> Active(m.orders[m.byClient[e.clientId]]))
  }

  ghost predicate CreatedBy(orders: seq<Order>, now: int) {
    forall i | 0 <= i < |orders| :: orders[i].createdAt <= now
  }

  lemma PlaceInOrder(m: Manager, limits: Limits, r: Request, now: int)
    requires InCreationOrder(m.orders) && CreatedBy(m.orders, now) && (!r.breakerOpen ==> OrderlyRequest(r, now))
    ensures InCreationOrder(Place(m, limits, r).0.orders)
    ensures CreatedBy(Place(m, limits, r).0.orders, if r.breakerOpen then now else r.createdAt)
  {
    hide CheckAndSet, StoreResult, FirstConflict;
  }

  lemma {:induction false} RunInOrder(limits: Limits, events: seq<Event>, epoch: int)
    requires Orderly(events, epoch)
    ensures InCreationOrder(After(limits, events).orders)
    ensures CreatedBy(After(limits, events).orders, ClockAfter(events, epoch))
  {
    if events != [] {
      RunInOrder(limits, Front(events), epoch);
      var m, e := After(limits, Front(events)), Last(events);
      hide Place, Changed, Indexed, InCreationOrder, CreatedBy, OrderlyRequest;
      if e.PlaceOrder? {
        PlaceInOrder(m, limits, e.request, ClockAfter(Front(events), epoch));
      } else if e.clientId in m.byClient {
        KnownClientIndexed(m, e.clientId);
        var i := m.byClient[e.clientId];
        ChangeKeepsIdentity(m.orders[i], e);
        ReplaceInOrder(m.orders, i, Changed(m.orders[i], e), ClockAfter(events, epoch));
      }
    } else {
      NothingInOrder(ClockAfter(events, epoch));
    }
  }

  lemma ReplaceInOrder(orders: seq<Order>, i: nat, o: Order, now: int)
    requires i < |orders| && o.createdAt == orders[i].createdAt && InCreationOrder(orders) && CreatedBy(orders, now)
    ensures InCreationOrder(orders[i := o]) && CreatedBy(orders[i := o], now)
  {
  }

  lemma NothingInOrder(now: int)
    ensures InCreationOrder([]) && CreatedBy([], now)
  {
  }

  /** MAIN: over every run in which confirmations and fills are timely, any two simultaneously active orders
      on opposite sides of one venue and symbol were created at least the window apart. */
  lemma {:induction false} OpposingOrdersApart(limits: Limits, events: seq<Event>, epoch: int)
    requires Orderly(events, epoch) && Timely(limits, events)
    ensures Safe(After(limits, events).orders)
  {
    if events != [] {
      OpposingOrdersApart(limits, Front(events), epoch);
      RunInOrder(limits, Front(events), epoch);
      var m, e := After(limits, Front(events)), Last(events);
      hide Place, Changed, Safe, InCreationOrder, ClockAfter;
      if e.PlaceOrder? {
        PlaceSafeOrRejected(m, limits, e.request);
      } else if e.clientId in m.byClient {
        CancelNeverRevives(m, e);
        ChangeSafeIff(m, e);
      }
    }
  }

  lemma PlaceSafeOrRejected(m: Manager, limits: Limits, r: Request)
    requires Safe(m.orders) && (r.breakerOpen || r.screenedAt <= r.createdAt)
    ensures Safe(Place(m, limits, r).0.orders)
  {
    if r.breakerOpen {
      hide Safe;
    } else {
      PlaceSafe(m, limits, r);
    }
  }

  lemma {:induction false} OrderlyPrefix(events: seq<Event>, epoch: int, n: nat)
    requires Orderly(events, epoch) && n <= |events|
    ensures Orderly(events[..n], epoch)
    decreases |events|
  {
    hide ClockAfter;
    if n == |events| {
      assert events[..n] == events;
    } else {
      OrderlyPrefix(Front(events), epoch, n);
      assert Front(events)[..n] == events[..n];
    }
  }

  /** From a safe table, one more event of an orderly run is safe exactly when it does not revive. */
  lemma StepSafeIff(limits: Limits, events: seq<Event>, epoch: int, n: nat)
    requires Orderly(events, epoch) && n < |events| && Safe(After(limits, events[..n]).orders)
    ensures Safe(After(limits, events[..n + 1]).orders) <==> !Revives(After(limits, events[..n]), events[n])
  {
    OrderlyPrefix(events, epoch, n + 1);
    assert events[..n + 1] == events[..n] + [events[n]] && Front(events[..n + 1]) == events[..n];
    AfterLast(limits, events[..n], events[n]);
    RunInOrder(limits, events[..n], epoch);
    hide After, Place, Changed, Safe, InCreationOrder, ClockAfter;
    var m, e := After(limits, events[..n]), events[n];
    if e.PlaceOrder? {
      PlaceSafeOrRejected(m, limits, e.request);
    } else if e.clientId in m.byClient {
      ChangeSafeIff(m, e);
    }
  }

  /** MAIN: over every run, active opposing orders stay a window apart throughout if and only if no confirmation or
      fill on the way revives an inactive order within the window of an active opposing one. */
  lemma SafeThroughoutIff(limits: Limits, events: seq<Event>, epoch: int)
    requires Orderly(events, epoch)
    ensures (forall n | 0 <= n <= |events| :: Safe(After(limits, events[..n]).orders))
       <==> (forall n | 0 <= n < |events| :: !Revives(After(limits, events[..n]), events[n]))
  {
    hide After, Safe, Revives;
    if forall n | 0 <= n < |events| :: !Revives(After(limits, events[..n]), events[n]) {
      forall n | 0 <= n <= |events|
        ensures Safe(After(limits, events[..n]).orders)
      {
        SafeUpTo(limits, events, epoch, n);
      }
    } else {
      var n :| 0 <= n < |events| && Revives(After(limits, events[..n]), events[n]);
      if Safe(After(limits, events[..n]).orders) {
        StepSafeIff(limits, events, epoch, n);
      }
    }
  }

  lemma {:induction false} SafeUpTo(limits: Limits, events: seq<Event>, epoch: int, n: nat)
    requires Orderly(events, epoch) && n <= |events|
    requires forall i | 0 <= i < |events| :: !Revives(After(limits, events[..i]), events[i])
    ensures Safe(After(limits, events[..n]).orders)
    decreases n
  {
    hide Revives, Safe;
    if n == 0 {
      StartsNew(limits);
      assert events[..0] == [];
      NothingUnsafe();
    } else {
      SafeUpTo(limits, events, epoch, n - 1);
      StepSafeIff(limits, events, epoch, n - 1);
    }
  }

  lemma NothingUnsafe()
    ensures Safe([])
  {
  }

  lemma CancelNeverRevives(m: Manager, e: Event)
    requires Indexed(m) && !e.PlaceOrder? && e.clientId in m.byClient
    requires e.Cancel? || Active(m.orders[m.byClient[e.clientId]])
    ensures !Revives(m, e)
  {
  }

  /** MAIN: over every run, each order's cumulative quantity, average price and fee are the folds over the
      fills recorded for it. */
  lemma {:induction false} TotalsAreFolds(limits: Limits, events: seq<Event>)
    ensures AllFolded(After(limits, events).orders)
  {
    if events != [] {
      TotalsAreFolds(limits, Front(events));
      hide AllFolded, Next;
      NextKeepsFolds(After(limits, Front(events)), limits, Last(events));
    }
  }

  function SampleRequest(clientId: string, side: Side): Request {
    Request(false, clientId, "binance", "BTC/USDT", side, 1.0, 0, 0, 0, 0, 0)
  }

  lemma FirstPlacement(m: Manager, limits: Limits, r: Request)
    requires !r.breakerOpen && r.clientId !in m.byClient
    requires forall i | 0 <= i < |m.orders| :: !Conflicts(m.orders[i], r)
    ensures var n := Place(m, limits, r).0;
            n.orders == m.orders + [NewOrder(r)] && n.byClient == m.byClient[r.clientId := |m.orders|]
  {
    hide CheckAndSet, StoreResult, Conflicts;
  }

  lemma AfterLast(limits: Limits, events: seq<Event>, e: Event)
    ensures After(limits, events + [e]) == Next(After(limits, events), limits, e)
  {
    assert Front(events + [e]) == events;
  }

  function SoldThenCancelled(): seq<Event> {
    [] + [PlaceOrder(SampleRequest("sell", Sell))] + [Cancel("sell")]
  }

  lemma AfterSoldThenCancelled(limits: Limits)
    ensures var m := After(limits, SoldThenCancelled());
            && m.orders == [NewOrder(SampleRequest("sell", Sell)).(status := Cancelled)]
            && m.byClient == map["sell" := 0]
  {
    hide Place, After;
    StartsNew(limits);
    AfterLast(limits, [], PlaceOrder(SampleRequest("sell", Sell)));
    AfterLast(limits, [] + [PlaceOrder(SampleRequest("sell", Sell))], Cancel("sell"));
    FirstPlacement(NEW_MANAGER, limits, SampleRequest("sell", Sell));
  }

  /** Without timeliness it fails: a confirmation that arrives after its order was cancelled revives it
      beside an opposing order placed in the same millisecond. */
  lemma LateConfirmRevives(limits: Limits)
    ensures var run := SoldThenCancelled() + [PlaceOrder(SampleRequest("buy", Buy))] + [Confirm("sell", "x")];
            !Safe(After(limits, run).orders)
  {
    hide Place, After, Safe, SoldThenCancelled, Indexed;
    var placed := PlaceOrder(SampleRequest("buy", Buy));
    AfterBuyToo(limits);
    AfterLast(limits, SoldThenCancelled() + [placed], Confirm("sell", "x"));
    BothActive(After(limits, SoldThenCancelled() + [placed] + [Confirm("sell", "x")]).orders);
  }

  lemma AfterBuyToo(limits: Limits)
    ensures var m := After(limits, SoldThenCancelled() + [PlaceOrder(SampleRequest("buy", Buy))]);
            && m.orders == [NewOrder(SampleRequest("sell", Sell)).(status := Cancelled),
                            NewOrder(SampleRequest("buy", Buy))]
            && m.byClient == map["sell" := 0, "buy" := 1]
  {
    hide Place, After, SoldThenCancelled, Indexed;
    AfterSoldThenCancelled(limits);
    AfterLast(limits, SoldThenCancelled(), PlaceOrder(SampleRequest("buy", Buy)));
    FirstPlacement(After(limits, SoldThenCancelled()), limits, SampleRequest("buy", Buy));
  }

  lemma StartsNew(limits: Limits)
    ensures After(limits, []) == NEW_MANAGER
  {
  }

  lemma BothActive(orders: seq<Order>)
    requires |orders| == 2 && Active(orders[0]) && Active(orders[1]) && Opposing(orders[0], orders[1])
    requires orders[0].createdAt == orders[1].createdAt
    ensures !Safe(orders)
  {
  }
}
