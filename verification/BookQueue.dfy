/** How resting and cancelling move a side's price-time queue, and which levels a sweep leaves. */
module BookQueue {
  import opened Prelude
  import opened OrderMatcher
  import opened PriceTimePriority

  lemma {:induction false} TagAppend(key: nat, a: seq<Order>, b: seq<Order>)
    ensures Tag(key, a + b) == Tag(key, a) + Tag(key, b)
  {
    if a == [] {
      assert a + b == b;
    } else {
      assert (a + b)[1..] == a[1..] + b;
      TagAppend(key, a[1..], b);
    }
  }

  function Part(levels: Levels, key: nat): seq<Resting> {
    if key in levels then Tag(key, levels[key]) else []
  }

  ghost predicate Better(q: seq<Resting>, side: Side, key: nat) {
    forall r | r in q :: r.key != key && NoWorse(side, r.key, key)
  }

  ghost predicate Worse(q: seq<Resting>, side: Side, key: nat) {
    forall r | r in q :: r.key != key && NoWorse(side, key, r.key)
  }

  lemma QueueSplits(levels: Levels, keys: seq<nat>, i: nat, side: Side)
    requires i < |keys| && VisitOrder(keys, side)
    ensures Flatten(levels, keys) == Flatten(levels, keys[..i]) + Part(levels, keys[i]) + Flatten(levels, keys[i + 1..])
    ensures Better(Flatten(levels, keys[..i]), side, keys[i])
    ensures Worse(Flatten(levels, keys[i + 1..]), side, keys[i])
  {
    var left, right := keys[..i], keys[i + 1..];
    assert keys == left + keys[i..] && keys[i..] == [keys[i]] + right && keys[i..][1..] == right;
    FlattenAppend(levels, left, keys[i..]);
    assert Flatten(levels, keys[i..]) == Part(levels, keys[i]) + Flatten(levels, right);
    FlattenKeys(levels, left);
    FlattenKeys(levels, right);
  }

  /** Replacing one level replaces one contiguous stretch of the queue: the better-priced orders before
      it and the worse-priced ones behind it keep their places. */
  lemma StoreSplitsQueue(levels: Levels, key: nat, orders: seq<Order>, side: Side)
    returns (before: seq<Resting>, after: seq<Resting>)
    ensures Queue(levels, side) == before + Part(levels, key) + after
    ensures Queue(StoreLevel(levels, key, orders), side) == before + Tag(key, orders) + after
    ensures Better(before, side, key) && Worse(after, side, key)
  {
    hide BestFirst, Flatten, Tag;
    var stored := StoreLevel(levels, key, orders);
    var all := levels.Keys + {key};
    var keys := BestFirst(all, side);
    assert key in keys;
    var i :| 0 <= i < |keys| && keys[i] == key;
    FlattenCompacts(levels, levels.Keys, all, side);
    FlattenCompacts(stored, stored.Keys, all, side);
    QueueSplits(levels, keys, i, side);
    QueueSplits(stored, keys, i, side);
    SameElsewhere(levels, stored, keys[..i], key);
    SameElsewhere(levels, stored, keys[i + 1..], key);
    TagOfNothing(key);
    before, after := Flatten(levels, keys[..i]), Flatten(levels, keys[i + 1..]);
  }

  lemma TagOfNothing(key: nat)
    ensures Tag(key, []) == []
  {
  }

  lemma SameElsewhere(levels: Levels, stored: Levels, keys: seq<nat>, key: nat)
    requires key !in keys && forall k | k != key :: SameAt(levels, stored, k)
    ensures Flatten(levels, keys) == Flatten(stored, keys)
  {
    FlattenAgrees(levels, stored, keys);
  }

  /** MAIN: an order that rests joins its own side behind everyone at its price or a better one and
      before everyone at a worse one; nobody else moves. */
  lemma RestingJoinsTheTail(own: Levels, order: Order, viewer: Side)
    returns (before: seq<Resting>, after: seq<Resting>)
    ensures var key := KeyOf(order.price);
            && Queue(own, viewer) == before + after
            && Queue(Enqueue(own, key, order), viewer) == before + [Resting(key, order)] + after
            && (forall r | r in before :: NoWorse(viewer, r.key, key))
            && (forall r | r in after :: r.key != key && NoWorse(viewer, key, r.key))
  {
    hide KeyOf, Queue;
    var key := KeyOf(order.price);
    var level := if key in own then own[key] else [];
    assert Enqueue(own, key, order) == StoreLevel(own, key, level + [order]);
    var first;
    first, after := StoreSplitsQueue(own, key, level + [order], viewer);
    TagAppend(key, level, [order]);
    TagKeys(key, level);
    TagKeys(key, [order]);
    assert Tag(key, [order]) == [Resting(key, order)];
    before := first + Part(own, key);
    assert first + (Part(own, key) + [Resting(key, order)]) + after == before + [Resting(key, order)] + after;
  }

  lemma TagSplits(key: nat, orders: seq<Order>, pos: nat)
    requires pos < |orders|
    ensures Tag(key, orders) == Tag(key, orders[..pos]) + [Resting(key, orders[pos])] + Tag(key, orders[pos + 1..])
    ensures Tag(key, Without(orders, pos)) == Tag(key, orders[..pos]) + Tag(key, orders[pos + 1..])
    ensures |Tag(key, orders[..pos])| == pos
    ensures forall r | r in Tag(key, orders[..pos]) + Tag(key, orders[pos + 1..]) :: r.key == key
  {
    var front, back := orders[..pos], orders[pos + 1..];
    assert orders == front + ([orders[pos]] + back);
    TagAppend(key, front, [orders[pos]] + back);
    TagAppend(key, [orders[pos]], back);
    TagAppend(key, front, back);
    TagKeys(key, front);
    TagKeys(key, back);
    TagKeys(key, [orders[pos]]);
    assert Tag(key, [orders[pos]]) == [Resting(key, orders[pos])];
  }

  /** MAIN: a cancel that finds the id removes exactly one order of that id, leaving every other order
      in place, and reports success only if that order was alone at its price. */
  lemma CancelRemovesOne(levels: Levels, id: nat, viewer: Side) returns (i: nat)
    requires exists k | k in levels :: Holds(levels[k], id)
    ensures var q := Queue(levels, viewer);
            && i < |q| && q[i].order.id == id
            && Queue(CancelIn(levels, id).0, viewer) == q[..i] + q[i + 1..]
            && (CancelIn(levels, id).1 <==> AloneAt(q, i))
  {
    hide BestFirst, Queue, Tag, FirstHolding, PositionOf, StoreLevel, Better, Worse;
    var key := FirstHolding(levels, BestFirst(levels.Keys, Buy), id).value;
    var orders := levels[key];
    var pos := PositionOf(orders, id);
    var left := Without(orders, pos);
    assert CancelIn(levels, id) == (StoreLevel(levels, key, left), left == []);
    var before, after := StoreSplitsQueue(levels, key, left, viewer);
    TagSplits(key, orders, pos);
    i := |before| + pos;
    CancelledStretch(before, Tag(key, orders[..pos]), Resting(key, orders[pos]), Tag(key, orders[pos + 1..]), after,
                     viewer);
    TagKeys(key, left);
  }

  /** No other order in the queue has this one's price. */
  ghost predicate AloneAt(q: seq<Resting>, i: nat)
    requires i < |q|
  {
    forall j | 0 <= j < |q| && j != i :: q[j].key != q[i].key
  }

  lemma CancelledStretch(before: seq<Resting>, front: seq<Resting>, r: Resting, back: seq<Resting>, after: seq<Resting>,
                         side: Side)
    requires Better(before, side, r.key) && Worse(after, side, r.key)
    requires forall x | x in front + back :: x.key == r.key
    ensures var q := before + (front + [r] + back) + after;
            var i := |before| + |front|;
            && q[i] == r && q[..i] + q[i + 1..] == before + (front + back) + after
            && (front + back == [] <==> AloneAt(q, i))
  {
    hide AloneAt, Better, Worse;
    var q := before + (front + [r] + back) + after;
    var i := |before| + |front|;
    assert q[..i] == before + front && q[i + 1..] == back + after;
    assert q == (before + front) + [r] + (back + after);
    if front + back == [] {
      assert q == before + [r] + after;
      AloneAtItsPrice(before, r, after, side);
    } else {
      Accompanied(before + front, r, back + after, if front != [] then |before| else i + 1);
    }
  }

  lemma Accompanied(left: seq<Resting>, r: Resting, right: seq<Resting>, j: nat)
    requires j < |left| + 1 + |right| && j != |left| && (left + [r] + right)[j].key == r.key
    ensures !AloneAt(left + [r] + right, |left|)
  {
  }

  lemma AloneAtItsPrice(before: seq<Resting>, r: Resting, after: seq<Resting>, side: Side)
    requires Better(before, side, r.key) && Worse(after, side, r.key)
    ensures AloneAt(before + [r] + after, |before|)
  {
    var q := before + [r] + after;
    forall j | 0 <= j < |q| && j != |before|
      ensures q[j].key != r.key
    {
      assert if j < |before| then q[j] == before[j] && q[j] in before
             else q[j] == after[j - |before| - 1] && q[j] in after;
    }
  }

  lemma CancelOfUnknown(levels: Levels, id: nat)
    requires forall k | k in levels :: !Holds(levels[k], id)
    ensures CancelIn(levels, id) == (levels, false)
  {
    hide BestFirst;
    var found := FirstHolding(levels, BestFirst(levels.Keys, Buy), id);
  }
}
