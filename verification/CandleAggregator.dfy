/** The pure-Python candle aggregator of data_ingestion/tick_processor.py: buckets are counted from the
    second of the first tick. */
module CandleAggregation {
  import opened Prelude
  import opened RealProducts
  import opened Arithmetic
  import C = Candles

  datatype Tick = Tick(timestampUs: int, price: real, volume: real)

  /** A candle as this aggregator keeps it, without a notional. */
  datatype Bar = Bar(bucket: int, open: real, high: real, low: real, close: real, volume: real, trades: nat)

  function Plain(b: C.Bar): Bar {
    Bar(b.bucket, b.open, b.high, b.low, b.close, b.volume, b.trades)
  }

  /** Floor division, which for a positive divisor is Dafny's own. */
  function BucketFrom(anchor: int, timeframe: int, second: int): int
    requires timeframe > 0
  {
    anchor + ((second - anchor) / timeframe) * timeframe
  }

  function SecondOf(t: Tick): int {
    t.timestampUs / 1_000_000
  }

  class CandleAggregator {
    const timeframe: int
    var current: Option<Bar>
    var anchor: Option<int>

    constructor (timeframe: int)
      requires timeframe > 0
      ensures this.timeframe == timeframe && current == None && anchor == None
    {
      this.timeframe := timeframe;
      current, anchor := None, None;
    }

    method CurrentBucket(t: Tick) returns (bucket: int)
      requires timeframe > 0
      modifies this`anchor
      ensures anchor == Some(if old(anchor).Some? then old(anchor).value else SecondOf(t))
      ensures bucket == BucketFrom(anchor.value, timeframe, SecondOf(t))
    {
      var second := t.timestampUs / 1_000_000;
      if anchor.None? {
        anchor := Some(second);
        return second;
      }
      var offset := second - anchor.value;
      bucket := anchor.value + (offset / timeframe) * timeframe;
    }

    method AddTick(t: Tick) returns (completed: Option<Bar>)
      requires timeframe > 0
      modifies this`anchor, this`current
      ensures State(anchor, current) == Add(State(old(anchor), old(current)), timeframe, t).0
      ensures completed == Add(State(old(anchor), old(current)), timeframe, t).1
    {
      hide BucketFrom;
      var bucket := CurrentBucket(t);
      completed := None;
      if current.None? {
        current := Some(Bar(bucket, t.price, t.price, t.price, t.price, t.volume, 1));
      } else if current.value.bucket != bucket {
        completed := current;
        current := Some(Bar(bucket, t.price, t.price, t.price, t.price, t.volume, 1));
      } else {
        var b := current.value;
        b := b.(high := MaxReal(b.high, t.price), low := MinReal(b.low, t.price), close := t.price);
        b := b.(volume := b.volume + t.volume, trades := b.trades + 1);
        current := Some(b);
      }
    }
  }

  datatype State = State(anchor: Option<int>, current: Option<Bar>)

  function AnchorAfter(s: State, t: Tick): int {
    if s.anchor.Some? then s.anchor.value else SecondOf(t)
  }

  function Add(s: State, timeframe: int, t: Tick): (State, Option<Bar>)
    requires timeframe > 0
  {
    var anchor := AnchorAfter(s, t);
    var bucket := BucketFrom(anchor, timeframe, SecondOf(t));
    var started := Bar(bucket, t.price, t.price, t.price, t.price, t.volume, 1);
    if s.current.None? then (State(Some(anchor), Some(started)), None)
    else if s.current.value.bucket != bucket then (State(Some(anchor), Some(started)), s.current)
    else
      var b := s.current.value;
      (State(Some(anchor), Some(b.(high := MaxReal(b.high, t.price), low := MinReal(b.low, t.price), close := t.price,
                                   volume := b.volume + t.volume, trades := b.trades + 1))),
       None)
  }

  /** A run: the candles completed and the state left. */
  function AddAll(timeframe: int, ticks: seq<Tick>): (seq<Bar>, State)
    requires timeframe > 0
  {
    if ticks == [] then ([], State(None, None))
    else
      var (done, s) := AddAll(timeframe, Front(ticks));
      var (next, completed) := Add(s, timeframe, Last(ticks));
      (if completed.Some? then done + [completed.value] else done, next)
  }

  function Bucketed(anchor: int, timeframe: int, t: Tick): C.Tick
    requires timeframe > 0
  {
    C.Tick(BucketFrom(anchor, timeframe, SecondOf(t)), t.price, t.volume)
  }

  function AllBucketed(anchor: int, timeframe: int, ticks: seq<Tick>): (bs: seq<C.Tick>)
    requires timeframe > 0
    ensures |bs| == |ticks|
  {
    if ticks == [] then []
    else AllBucketed(anchor, timeframe, Front(ticks)) + [Bucketed(anchor, timeframe, Last(ticks))]
  }

  function PlainAll(bars: seq<C.Bar>): seq<Bar> {
    if bars == [] then [] else PlainAll(Front(bars)) + [Plain(Last(bars))]
  }

  ghost predicate Mirrors(done: seq<Bar>, s: State, anchor: int, stream: C.Stream) {
    && s.anchor == Some(anchor)
    && done == PlainAll(stream.done)
    && s.current == if stream.current.Some? then Some(Plain(stream.current.value)) else None
  }

  lemma AddMirrors(done: seq<Bar>, s: State, anchor: int, stream: C.Stream, timeframe: int, t: Tick)
    requires timeframe > 0 && Mirrors(done, s, anchor, stream)
    ensures var (next, completed) := Add(s, timeframe, t);
            Mirrors(if completed.Some? then done + [completed.value] else done, next, anchor,
                    C.Feed(stream, Bucketed(anchor, timeframe, t)))
  {
    hide BucketFrom, Times;
    if stream.current.Some? {
      assert Front(stream.done + [stream.current.value]) == stream.done;
    }
  }

  /** The aggregator is the generic stream, with buckets counted from the first tick's second. */
  lemma {:induction false} AggregatorIsStream(timeframe: int, ticks: seq<Tick>)
    requires timeframe > 0 && ticks != []
    ensures var anchor := SecondOf(ticks[0]);
            var (done, s) := AddAll(timeframe, ticks);
            Mirrors(done, s, anchor, C.FeedAll(C.IDLE, AllBucketed(anchor, timeframe, ticks)))
  {
    hide BucketFrom, Add, C.Feed, Mirrors;
    var anchor := SecondOf(ticks[0]);
    var before, t := Front(ticks), Last(ticks);
    var bs := AllBucketed(anchor, timeframe, before);
    var b := Bucketed(anchor, timeframe, t);
    assert Front(bs + [b]) == bs;
    if before == [] {
      assert t == ticks[0] && bs == [];
      FirstMirrors(timeframe, t);
    } else {
      assert before[0] == ticks[0];
      AggregatorIsStream(timeframe, before);
      var (done, s) := AddAll(timeframe, before);
      AddMirrors(done, s, anchor, C.FeedAll(C.IDLE, bs), timeframe, t);
    }
  }

  lemma FirstMirrors(timeframe: int, t: Tick)
    requires timeframe > 0
    ensures var (next, completed) := Add(State(None, None), timeframe, t);
            Mirrors(if completed.Some? then [] + [completed.value] else [], next, SecondOf(t),
                    C.Feed(C.IDLE, Bucketed(SecondOf(t), timeframe, t)))
  {
    hide BucketFrom, Times;
  }

  lemma BucketsMonotone(anchor: int, timeframe: int, a: int, b: int)
    requires timeframe > 0 && a <= b
    ensures BucketFrom(anchor, timeframe, a) <= BucketFrom(anchor, timeframe, b)
  {
    FloorMonotone(a - anchor, b - anchor, timeframe);
    ProductMonotone((a - anchor) / timeframe, (b - anchor) / timeframe, timeframe);
  }

  lemma {:induction false} BucketedInOrder(anchor: int, timeframe: int, ticks: seq<Tick>)
    requires timeframe > 0 && forall i, j | 0 <= i < j < |ticks| :: ticks[i].timestampUs <= ticks[j].timestampUs
    ensures C.InOrder(AllBucketed(anchor, timeframe, ticks))
    ensures forall i | 0 <= i < |ticks| ::
              AllBucketed(anchor, timeframe, ticks)[i].bucket == BucketFrom(anchor, timeframe, SecondOf(ticks[i]))
  {
    hide BucketFrom;
    if ticks != [] {
      BucketedInOrder(anchor, timeframe, Front(ticks));
      forall i | 0 <= i < |ticks|
        ensures BucketFrom(anchor, timeframe, SecondOf(ticks[i]))
             <= BucketFrom(anchor, timeframe, SecondOf(Last(ticks)))
      {
        FloorMonotone(ticks[i].timestampUs, Last(ticks).timestampUs, 1_000_000);
        BucketsMonotone(anchor, timeframe, SecondOf(ticks[i]), SecondOf(Last(ticks)));
      }
    }
  }

  /** MAIN: for ticks in time order, the completed candles and the open one are the batch group-by on buckets
      counted from the first tick's second. */
  lemma AggregatorIsGroupBy(timeframe: int, ticks: seq<Tick>)
    requires timeframe > 0 && ticks != []
    requires forall i, j | 0 <= i < j < |ticks| :: ticks[i].timestampUs <= ticks[j].timestampUs
    ensures var anchor := SecondOf(ticks[0]);
            var own := AllBucketed(anchor, timeframe, ticks);
            var stream := C.FeedAll(C.IDLE, own);
            var (done, s) := AddAll(timeframe, ticks);
            C.Groups(C.Bars(stream), own) && Mirrors(done, s, anchor, stream)
  {
    BucketedInOrder(SecondOf(ticks[0]), timeframe, ticks);
    AggregatorIsStream(timeframe, ticks);
    hide C.Groups, Mirrors, AddAll, AllBucketed, SecondOf, C.FeedAll;
    C.StreamIsGroupBy(AllBucketed(SecondOf(ticks[0]), timeframe, ticks));
  }

  function Volume(ticks: seq<Tick>): real {
    if ticks == [] then 0.0 else Volume(Front(ticks)) + Last(ticks).volume
  }

  function TotalVolume(bars: seq<Bar>): real {
    if bars == [] then 0.0 else TotalVolume(Front(bars)) + Last(bars).volume
  }

  function TotalTrades(bars: seq<Bar>): nat {
    if bars == [] then 0 else TotalTrades(Front(bars)) + Last(bars).trades
  }

  predicate PricesOrdered(b: Bar) {
    b.low <= b.open <= b.high && b.low <= b.close <= b.high
  }

  /** The completed candles and the open one. */
  function Bars(done: seq<Bar>, s: State): seq<Bar> {
    if s.current.Some? then done + [s.current.value] else done
  }

  lemma TotalsGrow(bars: seq<Bar>, b: Bar)
    ensures TotalVolume(bars + [b]) == TotalVolume(bars) + b.volume
    ensures TotalTrades(bars + [b]) == TotalTrades(bars) + b.trades
  {
    assert Front(bars + [b]) == bars;
  }

  lemma AddConserves(done: seq<Bar>, s: State, timeframe: int, t: Tick)
    requires timeframe > 0
    ensures var (next, completed) := Add(s, timeframe, t);
            var after := Bars(if completed.Some? then done + [completed.value] else done, next);
            && TotalVolume(after) == TotalVolume(Bars(done, s)) + t.volume
            && TotalTrades(after) == TotalTrades(Bars(done, s)) + 1
            && ((forall b | b in Bars(done, s) :: PricesOrdered(b)) ==> forall b | b in after :: PricesOrdered(b))
  {
    hide BucketFrom, TotalVolume, TotalTrades;
    var (next, completed) := Add(s, timeframe, t);
    if s.current.Some? {
      TotalsGrow(done, s.current.value);
      assert s.current.value in Bars(done, s);
    }
    TotalsGrow(if completed.Some? then done + [completed.value] else done, next.current.value);
  }

  /** MAIN: in whatever order ticks arrive, the completed candles and the open one together have exactly the ticks'
      volume and count, and each has its open and close between its low and high. */
  lemma {:induction false} AggregatorConserves(timeframe: int, ticks: seq<Tick>)
    requires timeframe > 0
    ensures var (done, s) := AddAll(timeframe, ticks);
            && TotalVolume(Bars(done, s)) == Volume(ticks)
            && TotalTrades(Bars(done, s)) == |ticks|
            && forall b | b in Bars(done, s) :: PricesOrdered(b)
    decreases |ticks|
  {
    hide Add, Bars, TotalVolume, TotalTrades, PricesOrdered;
    if ticks == [] {
      NothingYet();
    } else {
      AggregatorConserves(timeframe, Front(ticks));
      var (done, s) := AddAll(timeframe, Front(ticks));
      AddConserves(done, s, timeframe, Last(ticks));
    }
  }

  lemma NothingYet()
    ensures Bars([], State(None, None)) == [] && TotalVolume([]) == 0.0 && TotalTrades([]) == 0
  {
  }

  /** MAIN: every bucket starts a whole number of timeframes from the anchor, and every tick lies in its own
      bucket's interval, before the anchor as well as after it. */
  lemma BucketHoldsSecond(anchor: int, timeframe: int, second: int)
    requires timeframe > 0
    ensures var b := BucketFrom(anchor, timeframe, second);
            (b - anchor) % timeframe == 0 && b <= second < b + timeframe
  {
    var q := (second - anchor) / timeframe;
    assert second - anchor == q * timeframe + (second - anchor) % timeframe;
    MultipleLeavesNothing(q, timeframe);
  }

  /** In microseconds, so for every tick: its bucket is that of the second that holds it. */
  lemma BucketHoldsTick(anchor: int, timeframe: int, t: Tick)
    requires timeframe > 0
    ensures var b := BucketFrom(anchor, timeframe, SecondOf(t));
            b * 1_000_000 <= t.timestampUs < (b + timeframe) * 1_000_000
  {
    BucketHoldsSecond(anchor, timeframe, SecondOf(t));
    hide BucketFrom;
  }
}
