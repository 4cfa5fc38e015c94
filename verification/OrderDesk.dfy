/** The mutable order manager of execution/order_manager.py. Its asyncio lock makes each method atomic. */
module OrderDesk {
  import opened Prelude
  import opened Idempotency
  import opened IdempotencyTable
  import opened OrderLifecycle

  class OrderManager {
    var orders: seq<Order>
    var byClient: map<string, nat>
    var byExchange: map<(string, string), nat>
    const idempotency: IdempotencyManager<nat>

    ghost function State(): Manager
      reads this, idempotency
    {
      Manager(orders, byClient, byExchange, idempotency.records)
    }

    constructor (limits: Limits)
      ensures State() == NEW_MANAGER && idempotency.limits == limits && fresh(idempotency)
    {
      orders, byClient, byExchange := [], map[], map[];
      idempotency := new IdempotencyManager<nat>(limits);
    }

    method PlaceOrder(r: Request) returns (reply: Reply)
      requires Indexed(State())
      modifies this, idempotency
      ensures (State(), reply) == Place(old(State()), idempotency.limits, r)
      ensures Indexed(State())
    {
      PlaceIndexed(State(), idempotency.limits, r);
      hide Indexed, Idempotency.CheckAndSet, FirstConflict, Find;
      if r.breakerOpen {
        return BreakerOpen;
      }
      var duplicate := idempotency.CheckAndSet(r.clientId, r.cleanedAt, r.checkedAt, r.recordedAt);
      if duplicate && r.clientId in byClient {
        return AlreadyPlaced(byClient[r.clientId]);
      }
      var conflict := CheckSelfTrade(r);
      if conflict < |orders| {
        return SelfTrade(conflict);
      }
      reply := Store(r);
    }

    method Store(r: Request) returns (reply: Reply)
      modifies this, idempotency
      ensures orders == old(orders) + [NewOrder(r)] && byClient == old(byClient)[r.clientId := |old(orders)|]
      ensures byExchange == old(byExchange) && reply == Created(|old(orders)|)
      ensures idempotency.records == StoreResult(old(idempotency.records), r.clientId, |old(orders)|)
    {
      var id := |orders|;
      orders := orders + [NewOrder(r)];
      byClient := byClient[r.clientId := id];
      idempotency.SetResult(r.clientId, id);
      reply := Created(id);
    }

    /** Scan the active orders of the venue and symbol for a recent one on the other side. */
    method CheckSelfTrade(r: Request) returns (conflict: nat)
      ensures conflict == FirstConflict(orders, r)
    {
      conflict := 0;
      assert orders[0..] == orders;
      while conflict < |orders|
        invariant 0 <= conflict <= |orders|
        invariant FirstConflict(orders, r) == conflict + FirstConflict(orders[conflict..], r)
      {
        assert orders[conflict..][1..] == orders[conflict + 1..];
        if Conflicts(orders[conflict], r) {
          return;
        }
        conflict := conflict + 1;
      }
    }

    method ConfirmSubmission(clientId: string, exchangeId: string) returns (found: bool)
      requires Indexed(State())
      modifies this
      ensures State() == Next(old(State()), idempotency.limits, Confirm(clientId, exchangeId))
      ensures found <==> clientId in old(byClient)
    {
      found := clientId in byClient;
      if found {
        var i := byClient[clientId];
        orders := orders[i := orders[i].(exchangeId := Some(exchangeId), status := Submitted)];
        byExchange := byExchange[(orders[i].venue, exchangeId) := i];
      }
    }

    method RecordFill(clientId: string, quantity: real, price: real, fee: real) returns (found: bool)
      requires Indexed(State())
      modifies this
      ensures State() == Next(old(State()), idempotency.limits, Execute(clientId, Execution(quantity, price, fee)))
      ensures found <==> clientId in old(byClient)
    {
      found := clientId in byClient;
      if found {
        var i := byClient[clientId];
        var o := orders[i];
        o := o.(fills := o.fills + [Execution(quantity, price, fee)]);
        o := o.(cumulative := o.cumulative + quantity, totalFee := o.totalFee + fee);
        var total := TotalValue(o.fills);
        o := o.(averagePrice := if o.cumulative > 0.0 then total / o.cumulative else 0.0);
        if AbsReal(o.cumulative - o.quantity) < FILL_TOLERANCE {
          o := o.(status := Filled);
        } else if o.cumulative > 0.0 {
          o := o.(status := PartiallyFilled);
        }
        orders := orders[i := o];
      }
    }

    method TotalValue(fills: seq<Execution>) returns (total: real)
      ensures total == Value(fills)
    {
      total := 0.0;
      var i := 0;
      while i < |fills|
        invariant 0 <= i <= |fills| && total == Value(fills[..i])
      {
        assert Front(fills[..i + 1]) == fills[..i];
        total := total + fills[i].quantity * fills[i].price;
        i := i + 1;
      }
      assert fills[..i] == fills;
    }

    method CancelOrder(clientId: string) returns (cancelled: bool)
      requires Indexed(State())
      modifies this
      ensures State() == Next(old(State()), idempotency.limits, Cancel(clientId))
      ensures cancelled <==> clientId in old(byClient) && Active(old(orders)[old(byClient)[clientId]])
    {
      cancelled := clientId in byClient && Active(orders[byClient[clientId]]);
      if cancelled {
        var i := byClient[clientId];
        orders := orders[i := orders[i].(status := Cancelled)];
      }
    }
  }
}
