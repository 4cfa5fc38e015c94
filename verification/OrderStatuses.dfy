/** What each operation of the order manager does to an order's status, and when a filled order is filled. */
module OrderStatuses {
  import opened Prelude
  import opened Idempotency
  import opened OrderLifecycle

  /** Equal quantities, as far as the manager can tell. */
  predicate Near(a: real, b: real) {
    -0.00000001 < a - b < 0.00000001
  }

  predicate Working(status: Status) {
    match status
    case Pending | Submitted | Open | PartiallyFilled => true
    case Filled | Cancelled | Rejected | Expired => false
  }

  lemma {:induction false} QuantityGrows(fills: seq<Execution>, f: Execution)
    ensures Quantity(fills + [f]) == Quantity(fills) + f.quantity
    ensures Value(fills + [f]) == Value(fills) + f.quantity * f.price
    ensures Fees(fills + [f]) == Fees(fills) + f.fee
  {
    assert Front(fills + [f]) == fills;
  }

  /** Only the latest order of this client id may differ, and neither may its identity. */
  ghost predicate OnlyChanges(before: Manager, after: Manager, i: nat)
    requires i < |before.orders|
  {
    && |after.orders| == |before.orders|
    && (forall j | 0 <= j < |before.orders| && j != i :: after.orders[j] == before.orders[j])
    && after.byClient == before.byClient && after.records == before.records
    && var o, n := before.orders[i], after.orders[i];
       && n.clientId == o.clientId && n.venue == o.venue && n.symbol == o.symbol && n.side == o.side
       && n.quantity == o.quantity && n.createdAt == o.createdAt
  }

  // ---------------------------------------------------------------- fills

  /** MAIN: on every run, a fill of a known client id is appended to its latest order, whose totals then are those of
      its fills; the order becomes Filled exactly when the sum of its fills is its quantity, up to the tolerance;
      otherwise it is partially filled, so active, when the sum is positive, and keeps its status when it is not. */
  lemma FillMeans(limits: Limits, events: seq<Event>, clientId: string, f: Execution)
    requires clientId in After(limits, events).byClient
    ensures var before := After(limits, events);
            var after, i := After(limits, events + [Execute(clientId, f)]), before.byClient[clientId];
            && i < |before.orders| && OnlyChanges(before, after, i)
            && var o, n := before.orders[i], after.orders[i];
               var sum := Quantity(n.fills);
               && n.fills == o.fills + [f] && n.exchangeId == o.exchangeId && Folded(n)
               && (Near(sum, o.quantity) ==> n.status.Filled?)
               && (!Near(sum, o.quantity) && sum > 0.0 ==> n.status.PartiallyFilled? && Working(n.status))
               && (!Near(sum, o.quantity) && sum <= 0.0 ==> n.status == o.status)
  {
    AfterLast(limits, events, Execute(clientId, f));
    TotalsAreFolds(limits, events);
    TotalsAreFolds(limits, events + [Execute(clientId, f)]);
    var before := After(limits, events);
    KnownClientIndexed(before, clientId);
    ChangeKeepsIdentity(before.orders[before.byClient[clientId]], Execute(clientId, f));
    hide After, Quantity, Value, Fees, Place;
  }

  ghost predicate FilledMeans(orders: seq<Order>) {
    forall i | 0 <= i < |orders| && orders[i].status.Filled? :: Near(Quantity(orders[i].fills), orders[i].quantity)
  }

  /** A fill that takes a filled order's total back to zero or below, other than to the order's quantity. */
  ghost predicate Unfills(m: Manager, e: Event)
    requires Indexed(m)
  {
    && e.Execute? && e.clientId in m.byClient
    && var o := m.orders[m.byClient[e.clientId]];
       var sum := Quantity(o.fills) + e.execution.quantity;
       o.status.Filled? && sum <= 0.0 && !Near(sum, o.quantity)
  }

  lemma ChangeStatus(o: Order, e: Event)
    requires !e.PlaceOrder? && Folded(o)
    ensures var n := Changed(o, e);
            match e
            case Confirm(_, x) => n.status.Submitted? && n.fills == o.fills && n.exchangeId == Some(x)
            case Execute(_, f) =>
              && n.fills == o.fills + [f]
              && n.status == if Near(Quantity(o.fills) + f.quantity, o.quantity) then Filled
                             else if Quantity(o.fills) + f.quantity > 0.0 then PartiallyFilled else o.status
            case Cancel(_) =>
              n.fills == o.fills && n.status == if Working(o.status) then Cancelled else o.status
  {
    hide Value, Fees;
  }

  lemma ChangeFilledIff(m: Manager, e: Event)
    requires Indexed(m) && FilledMeans(m.orders) && !e.PlaceOrder? && e.clientId in m.byClient
    requires AllFolded(m.orders)
    ensures var i := m.byClient[e.clientId];
            FilledMeans(m.orders[i := Changed(m.orders[i], e)]) <==> !Unfills(m, e)
  {
    var i := m.byClient[e.clientId];
    var o, n := m.orders[i], Changed(m.orders[i], e);
    assert Folded(o);
    ChangeStatus(o, e);
    ChangeKeepsIdentity(o, e);
    if e.Execute? {
      QuantityGrows(o.fills, e.execution);
    }
    hide Changed, Quantity, Folded;
    ReplacedMeans(m.orders, i, n);
  }

  lemma ReplacedMeans(orders: seq<Order>, i: nat, n: Order)
    requires i < |orders| && FilledMeans(orders)
    ensures FilledMeans(orders[i := n]) <==> (n.status.Filled? ==> Near(Quantity(n.fills), n.quantity))
  {
    hide Quantity;
    assert orders[i := n][i] == n;
  }

  lemma PlaceFilled(m: Manager, limits: Limits, r: Request)
    requires Indexed(m) && FilledMeans(m.orders)
    ensures FilledMeans(Place(m, limits, r).0.orders)
  {
    hide CheckAndSet, StoreResult, FirstConflict, Quantity, Near;
  }

  lemma StepFilledIff(limits: Limits, events: seq<Event>, n: nat)
    requires n < |events| && FilledMeans(After(limits, events[..n]).orders)
    ensures FilledMeans(After(limits, events[..n + 1]).orders) <==> !Unfills(After(limits, events[..n]), events[n])
  {
    var m, e := After(limits, events[..n]), events[n];
    assert events[..n + 1] == events[..n] + [e];
    AfterLast(limits, events[..n], e);
    TotalsAreFolds(limits, events[..n]);
    hide After, Place, Changed, FilledMeans, Quantity;
    if e.PlaceOrder? {
      PlaceFilled(m, limits, e.request);
    } else if e.clientId in m.byClient {
      ChangeFilledIff(m, e);
    }
  }

  lemma {:induction false} FilledUpTo(limits: Limits, events: seq<Event>, n: nat)
    requires n <= |events|
    requires forall i | 0 <= i < |events| :: !Unfills(After(limits, events[..i]), events[i])
    ensures FilledMeans(After(limits, events[..n]).orders)
    decreases n
  {
    hide Unfills, FilledMeans;
    if n == 0 {
      StartsNew(limits);
      assert events[..0] == [];
      NothingFilled();
    } else {
      FilledUpTo(limits, events, n - 1);
      StepFilledIff(limits, events, n - 1);
    }
  }

  lemma NothingFilled()
    ensures FilledMeans([])
  {
  }

  /** MAIN: over every run, each Filled order's fills add up to its quantity, up to the tolerance, throughout, if and
      only if no fill on the way takes a filled order's total back to zero or below. */
  lemma FilledThroughoutIff(limits: Limits, events: seq<Event>)
    ensures (forall n | 0 <= n <= |events| :: FilledMeans(After(limits, events[..n]).orders))
       <==> (forall n | 0 <= n < |events| :: !Unfills(After(limits, events[..n]), events[n]))
  {
    hide After, FilledMeans, Unfills;
    if forall n | 0 <= n < |events| :: !Unfills(After(limits, events[..n]), events[n]) {
      forall n | 0 <= n <= |events|
        ensures FilledMeans(After(limits, events[..n]).orders)
      {
        FilledUpTo(limits, events, n);
      }
    } else {
      var n :| 0 <= n < |events| && Unfills(After(limits, events[..n]), events[n]);
      if FilledMeans(After(limits, events[..n]).orders) {
        StepFilledIff(limits, events, n);
      }
    }
  }

  /** Fills of a quantity that is not negative never do that, when no order asks for a negative quantity. */
  lemma PositiveFillsNeverUnfill(m: Manager, e: Event)
    requires Indexed(m) && FilledMeans(m.orders)
    requires e.Execute? && e.execution.quantity >= 0.0
    requires forall o | o in m.orders :: o.quantity >= 0.0
    ensures !Unfills(m, e)
  {
    hide Quantity;
    if e.clientId in m.byClient {
      assert m.orders[m.byClient[e.clientId]] in m.orders;
    }
  }

  /** A fill of ten undone by a correction leaves the order Filled with nothing filled. */
  lemma CorrectionUnfills(o: Order)
    requires Folded(o) && o.fills == [] && o.quantity == 10.0
    ensures var n := WithFill(WithFill(o, Execution(10.0, 1.0, 0.0)), Execution(-10.0, 1.0, 0.0));
            n.status.Filled? && Quantity(n.fills) == 0.0
  {
    QuantityGrows([], Execution(10.0, 1.0, 0.0));
    QuantityGrows([] + [Execution(10.0, 1.0, 0.0)], Execution(-10.0, 1.0, 0.0));
    assert [] + [Execution(10.0, 1.0, 0.0)] == [Execution(10.0, 1.0, 0.0)];
    hide Value, Fees;
  }

  // ---------------------------------------------------------------- confirmations and cancellations

  /** A confirmation submits the latest order of the id, whatever its status, and files it under its exchange id. */
  lemma ConfirmMeans(limits: Limits, events: seq<Event>, clientId: string, exchangeId: string)
    ensures var before, after := After(limits, events), After(limits, events + [Confirm(clientId, exchangeId)]);
            if clientId !in before.byClient then after == before
            else
              var i := before.byClient[clientId];
              && i < |before.orders| && OnlyChanges(before, after, i)
              && var o, n := before.orders[i], after.orders[i];
                 && n.status.Submitted? && n.exchangeId == Some(exchangeId) && n.fills == o.fills
                 && after.byExchange == before.byExchange[(o.venue, exchangeId) := i]
  {
    AfterLast(limits, events, Confirm(clientId, exchangeId));
    hide After, Place, Indexed;
    var before := After(limits, events);
    if clientId in before.byClient {
      KnownClientIndexed(before, clientId);
    }
  }

  /** A cancellation cancels the latest order of the id exactly when it is working. */
  lemma CancelMeans(limits: Limits, events: seq<Event>, clientId: string)
    ensures var before, after := After(limits, events), After(limits, events + [Cancel(clientId)]);
            if clientId !in before.byClient then after == before
            else
              var i := before.byClient[clientId];
              && i < |before.orders| && OnlyChanges(before, after, i) && after.byExchange == before.byExchange
              && var o, n := before.orders[i], after.orders[i];
                 && n.status == (if Working(o.status) then Cancelled else o.status)
                 && n.fills == o.fills && n.exchangeId == o.exchangeId
  {
    AfterLast(limits, events, Cancel(clientId));
    hide After, Place, Indexed;
    var before := After(limits, events);
    if clientId in before.byClient {
      KnownClientIndexed(before, clientId);
    }
  }

  // ---------------------------------------------------------------- placement

  /** A working order on the other side of the same venue and symbol, less than a minute old at the screening. */
  predicate Clashes(o: Order, r: Request) {
    && o.venue == r.venue && o.symbol == r.symbol && o.side != r.side
    && Working(o.status) && r.screenedAt < o.createdAt + 60000
  }

  /** MAIN: on every run, an order is created exactly when the breaker is closed, the request is not an idempotent retry
      of a known client id, and no order clashes with it; a clash is answered with the first such order, a retry
      with the latest order of its id. A created order is pending, without fills, and the latest of its id; otherwise
      no order and no index changes. */
  lemma PlacementMeans(limits: Limits, events: seq<Event>, r: Request)
    ensures var before := After(limits, events);
            var after := After(limits, events + [PlaceOrder(r)]);
            var reply, id := Place(before, limits, r).1, |before.orders|;
            var retry := CheckAndSet(before.records, limits, CheckOf(r)).duplicate && r.clientId in before.byClient;
            var clash := exists o | o in before.orders :: Clashes(o, r);
            && (reply.BreakerOpen? <==> r.breakerOpen)
            && (reply.AlreadyPlaced? <==> !r.breakerOpen && retry)
            && (reply.SelfTrade? <==> !r.breakerOpen && !retry && clash)
            && (reply.Created? <==> !r.breakerOpen && !retry && !clash)
            && (reply.AlreadyPlaced? ==> reply.order == before.byClient[r.clientId])
            && (reply.SelfTrade? ==> reply.order < id && Clashes(before.orders[reply.order], r)
                                     && forall j | 0 <= j < reply.order :: !Clashes(before.orders[j], r))
            && after.byExchange == before.byExchange
            && if !reply.Created? then after.orders == before.orders && after.byClient == before.byClient
               else reply.order == id && after.byClient == before.byClient[r.clientId := id]
                    && |after.orders| == id + 1 && after.orders[..id] == before.orders
                    && var o := after.orders[id];
                       && o.clientId == r.clientId && o.venue == r.venue && o.symbol == r.symbol && o.side == r.side
                       && o.quantity == r.quantity && o.createdAt == r.createdAt && o.status.Pending?
                       && o.fills == [] && Folded(o) && o.exchangeId.None?
  {
    AfterLast(limits, events, PlaceOrder(r));
    var before := After(limits, events);
    ClashIff(before.orders, r);
    hide After, CheckAndSet, StoreResult, FirstConflict, Conflicts, Clashes;
  }

  lemma ClashIff(orders: seq<Order>, r: Request)
    ensures FirstConflict(orders, r) < |orders| <==> exists o | o in orders :: Clashes(o, r)
    ensures forall o: Order :: Conflicts(o, r) <==> Clashes(o, r)
  {
    var i := FirstConflict(orders, r);
    if i < |orders| {
      assert orders[i] in orders;
    }
  }

  /** A created order is stored as the result of its client id's record, the first with that key, and with no other. */
  lemma CreatedIsRecorded(limits: Limits, events: seq<Event>, r: Request)
    requires Place(After(limits, events), limits, r).1.Created?
    ensures var before, after := After(limits, events), After(limits, events + [PlaceOrder(r)]);
            var checked := CheckAndSet(before.records, limits, CheckOf(r)).records;
            && |after.records| == |checked|
            && forall j | 0 <= j < |checked| ::
                 after.records[j]
                 == if checked[j].key == r.clientId && forall i | 0 <= i < j :: checked[i].key != r.clientId
                    then checked[j].(result := Some(|before.orders|)) else checked[j]
  {
    AfterLast(limits, events, PlaceOrder(r));
    hide After, CheckAndSet, FirstConflict, Find;
  }
}
