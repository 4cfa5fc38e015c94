/** The Rust tick parser: one candle accumulator per exchange and symbol, fed directly or through the ring
    buffer. Exchange and symbol are kept apart, where the source joins them with a colon. */
module TickParsing {
  import opened Prelude
  import opened RealProducts
  import opened Arithmetic
  import opened TickQueue
  import C = Candles

  type Market = (string, string)

  datatype Accumulator = Accumulator(
    startTimeNs: int,
    endTimeNs: int,
    open: real,
    high: real,
    low: real,
    close: real,
    volume: real,
    numTrades: nat,
    vwapAccum: real,
    volumeAccum: real)

  datatype Candle = Candle(
    market: Market,
    startTimeNs: int,
    endTimeNs: int,
    open: real,
    high: real,
    low: real,
    close: real,
    volume: real,
    numTrades: nat,
    vwap: real)

  /** Division of machine integers rounds towards zero. */
  function Truncated(a: int, b: int): int
    requires b > 0
  {
    if a >= 0 then Quotient(a, b) else -Quotient(-a, b)
  }

  function Quotient(a: nat, b: int): (q: int)
    requires b > 0
    ensures q >= 0
  {
    a / b
  }

  function BucketFor(timeframe: int, timestamp: int): int
    requires timeframe > 0
  {
    Truncated(timestamp, timeframe) * timeframe
  }

  function NewAccumulator(start: int, duration: int, price: real, volume: real): Accumulator {
    Accumulator(start, start + duration, price, price, price, price, volume, 1, Times(price, volume), volume)
  }

  function Update(a: Accumulator, price: real, volume: real): Accumulator {
    a.(high := MaxReal(a.high, price), low := MinReal(a.low, price), close := price, volume := a.volume + volume,
       numTrades := a.numTrades + 1, vwapAccum := a.vwapAccum + Times(price, volume),
       volumeAccum := a.volumeAccum + volume)
  }

  function Finalize(a: Accumulator, market: Market): Candle {
    Candle(market, a.startTimeNs, a.endTimeNs, a.open, a.high, a.low, a.close, a.volume, a.numTrades,
           if a.volumeAccum > 0.0 then a.vwapAccum / a.volumeAccum else 0.0)
  }

  datatype Parsed = Parsed(accumulators: map<Market, Accumulator>, candles: seq<Candle>)

  function AddTick(accumulators: map<Market, Accumulator>, timeframe: int, t: RawTick): Parsed
    requires timeframe > 0
  {
    var market := (t.exchange, t.symbol);
    var start := BucketFor(timeframe, t.timestampNs);
    if market !in accumulators then
      Parsed(accumulators[market := NewAccumulator(start, timeframe, t.price, t.volume)], [])
    else
      var a := accumulators[market];
      if a.startTimeNs == start then Parsed(accumulators[market := Update(a, t.price, t.volume)], [])
      else Parsed(accumulators[market := NewAccumulator(start, timeframe, t.price, t.volume)], [Finalize(a, market)])
  }

  function AddAll(accumulators: map<Market, Accumulator>, timeframe: int, ticks: seq<RawTick>): Parsed
    requires timeframe > 0
  {
    if ticks == [] then Parsed(accumulators, [])
    else
      var before := AddAll(accumulators, timeframe, Front(ticks));
      var last := AddTick(before.accumulators, timeframe, Last(ticks));
      Parsed(last.accumulators, before.candles + last.candles)
  }

  lemma {:induction false} AddAllAppend(accumulators: map<Market, Accumulator>, timeframe: int, a: seq<RawTick>,
                                        b: seq<RawTick>)
    requires timeframe > 0
    ensures var first := AddAll(accumulators, timeframe, a);
            var second := AddAll(first.accumulators, timeframe, b);
            AddAll(accumulators, timeframe, a + b) == Parsed(second.accumulators, first.candles + second.candles)
  {
    hide AddTick;
    if b == [] {
      assert a + b == a;
      assert AddAll(accumulators, timeframe, a).candles + [] == AddAll(accumulators, timeframe, a).candles;
    } else {
      assert Front(a + b) == a + Front(b);
      AddAllAppend(accumulators, timeframe, a, Front(b));
      var first := AddAll(accumulators, timeframe, a);
      var middle := AddAll(first.accumulators, timeframe, Front(b));
      var last := AddTick(middle.accumulators, timeframe, Last(b));
      assert (first.candles + middle.candles) + last.candles == first.candles + (middle.candles + last.candles);
    }
  }

  class TickParser {
    const timeframe: int
    const ring: RingBuffer
    var accumulators: map<Market, Accumulator>

    ghost predicate Valid()
      reads this, ring
    {
      timeframe > 0 && ring.Valid()
    }

    constructor (timeframeSeconds: int, capacity: nat)
      requires timeframeSeconds > 0
      ensures Valid() && fresh(ring) && fresh(ring.buffer)
      ensures timeframe == timeframeSeconds * 1_000_000_000 && ring.capacity == capacity
      ensures accumulators == map[] && ring.Contents() == []
    {
      timeframe := timeframeSeconds * 1_000_000_000;
      ring := new RingBuffer(capacity);
      accumulators := map[];
    }

    method Add(t: RawTick) returns (candle: Option<Candle>)
      requires Valid()
      modifies this`accumulators
      ensures Valid() && ring.Contents() == old(ring.Contents())
      ensures Parsed(accumulators, if candle.Some? then [candle.value] else [])
           == AddTick(old(accumulators), timeframe, t)
    {
      hide BucketFor;
      var market := (t.exchange, t.symbol);
      var start := BucketFor(timeframe, t.timestampNs);
      candle := None;
      if market in accumulators {
        var a := accumulators[market];
        if a.startTimeNs == start {
          a := Update(a, t.price, t.volume);
        } else {
          candle := Some(Finalize(a, market));
          a := NewAccumulator(start, timeframe, t.price, t.volume);
        }
        accumulators := accumulators[market := a];
      } else {
        accumulators := accumulators[market := NewAccumulator(start, timeframe, t.price, t.volume)];
      }
    }

    method AddToBuffer(t: RawTick) returns (ok: bool)
      requires Valid()
      modifies ring, ring.buffer
      ensures Valid() && (ok <==> |old(ring.Contents())| < ring.capacity)
      ensures ring.Contents() == if ok then old(ring.Contents()) + [t] else old(ring.Contents())
    {
      ok := ring.Push(t);
    }

    /** Drain the ring and feed what it held: exactly as if those ticks had been added directly. */
    method FlushBuffer() returns (candles: seq<Candle>)
      requires Valid()
      modifies this`accumulators, ring
      ensures Valid() && ring.Contents() == []
      ensures Parsed(accumulators, candles) == AddAll(old(accumulators), timeframe, old(ring.Contents()))
    {
      var ticks := ring.Drain();
      hide AddTick;
      candles := [];
      var i := 0;
      while i < |ticks|
        invariant 0 <= i <= |ticks| && Valid() && ring.Contents() == []
        invariant Parsed(accumulators, candles) == AddAll(old(accumulators), timeframe, ticks[..i])
      {
        assert Front(ticks[..i + 1]) == ticks[..i] && Last(ticks[..i + 1]) == ticks[i];
        var candle := Add(ticks[i]);
        if candle.Some? {
          candles := candles + [candle.value];
        } else {
          assert candles + [] == candles;
        }
        i := i + 1;
      }
      assert ticks[..i] == ticks;
    }
  }

  // ---------------------------------------------------------------- buffering changes nothing

  datatype Action = Buffer(tick: RawTick) | Flush

  /** The parser's state and output under buffered delivery, with the ticks the ring accepted. */
  datatype Session = Session(queue: seq<RawTick>, accumulators: map<Market, Accumulator>, candles: seq<Candle>,
                             accepted: seq<RawTick>)

  function Play(capacity: nat, timeframe: int, actions: seq<Action>): Session
    requires timeframe > 0
  {
    if actions == [] then Session([], map[], [], [])
    else
      var s := Play(capacity, timeframe, Front(actions));
      match Last(actions)
      case Buffer(t) =>
        if |s.queue| < capacity then s.(queue := s.queue + [t], accepted := s.accepted + [t]) else s
      case Flush =>
        var flushed := AddAll(s.accumulators, timeframe, s.queue);
        Session([], flushed.accumulators, s.candles + flushed.candles, s.accepted)
  }

  /** What is still queued is what has been accepted and not yet fed. */
  lemma {:induction false} BufferedPrefix(capacity: nat, timeframe: int, actions: seq<Action>)
    returns (fed: seq<RawTick>)
    requires timeframe > 0
    ensures var s := Play(capacity, timeframe, actions);
            && s.accepted == fed + s.queue && |s.queue| <= capacity
            && Parsed(s.accumulators, s.candles) == AddAll(map[], timeframe, fed)
  {
    hide AddTick;
    if actions == [] {
      fed := [];
      assert fed + [] == fed;
    } else {
      var before := Front(actions);
      var s := Play(capacity, timeframe, before);
      fed := BufferedPrefix(capacity, timeframe, before);
      if Last(actions).Buffer? {
        assert fed + (s.queue + [Last(actions).tick]) == (fed + s.queue) + [Last(actions).tick];
      } else {
        AddAllAppend(map[], timeframe, fed, s.queue);
        fed := fed + s.queue;
        assert fed + [] == fed;
      }
    }
  }

  /** MAIN: buffering ticks and flushing, in any pattern that ends with a flush, leaves the accumulators and
      the candle sequence that feeding the accepted ticks directly would. */
  lemma BufferingIsTransparent(capacity: nat, timeframe: int, actions: seq<Action>)
    requires timeframe > 0 && actions != [] && Last(actions).Flush?
    ensures var s := Play(capacity, timeframe, actions);
            Parsed(s.accumulators, s.candles) == AddAll(map[], timeframe, s.accepted)
  {
    var fed := BufferedPrefix(capacity, timeframe, actions);
    assert fed + [] == fed;
  }

  // ---------------------------------------------------------------- buckets

  lemma TruncatedMonotone(a: int, b: int, n: int)
    requires n > 0 && a <= b
    ensures Truncated(a, n) <= Truncated(b, n)
  {
    hide Quotient;
    if b < 0 {
      QuotientMonotone(-b, -a, n);
    } else if a >= 0 {
      QuotientMonotone(a, b, n);
    }
  }

  lemma QuotientMonotone(a: nat, b: nat, n: int)
    requires n > 0 && a <= b
    ensures Quotient(a, n) <= Quotient(b, n)
  {
    FloorMonotone(a, b, n);
  }

  /** Later ticks never fall in earlier buckets. */
  lemma BucketsMonotone(timeframe: int, a: int, b: int)
    requires timeframe > 0 && a <= b
    ensures BucketFor(timeframe, a) <= BucketFor(timeframe, b)
  {
    TruncatedMonotone(a, b, timeframe);
    hide Truncated;
    ProductMonotone(Truncated(a, timeframe), Truncated(b, timeframe), timeframe);
  }

  /** MAIN: a tick lies in the interval its candle announces exactly when its timestamp is not negative or is
      itself a bucket boundary; before the epoch, rounding towards zero files ticks one bucket late. */
  lemma TickInItsBucketIff(timeframe: int, timestamp: int)
    requires timeframe > 0
    ensures var start := BucketFor(timeframe, timestamp);
            (start <= timestamp < start + timeframe <==> timestamp >= 0 || (-timestamp) % timeframe == 0)
  {
    if timestamp >= 0 {
      assert timestamp == (timestamp / timeframe) * timeframe + timestamp % timeframe;
    } else {
      var q := (-timestamp) / timeframe;
      assert -timestamp == q * timeframe + (-timestamp) % timeframe;
      assert (-q) * timeframe == -(q * timeframe);
    }
  }

  /** A bucket starts at a multiple of the timeframe: the last one up to the tick, or, before the epoch, the first one
      from the tick on. */
  lemma BucketIsMultiple(timeframe: int, timestamp: int)
    requires timeframe > 0
    ensures var start := BucketFor(timeframe, timestamp);
            && start % timeframe == 0
            && if timestamp >= 0 then start <= timestamp < start + timeframe
               else start - timeframe < timestamp <= start
  {
    MultipleLeavesNothing(Truncated(timestamp, timeframe), timeframe);
    var q := Quotient(if timestamp >= 0 then timestamp else -timestamp, timeframe);
    if timestamp >= 0 {
      assert timestamp == q * timeframe + timestamp % timeframe;
    } else {
      assert -timestamp == q * timeframe + (-timestamp) % timeframe;
      assert (-q) * timeframe == -(q * timeframe);
    }
  }

  // ---------------------------------------------------------------- each market is a stream of its own

  function BarOf(a: Accumulator): C.Bar {
    C.Bar(a.startTimeNs, a.open, a.high, a.low, a.close, a.volume, a.numTrades, a.vwapAccum)
  }

  function Bucketed(timeframe: int, t: RawTick): C.Tick
    requires timeframe > 0
  {
    C.Tick(BucketFor(timeframe, t.timestampNs), t.price, t.volume)
  }

  /** The ticks of one market, with their buckets. */
  function MarketTicks(timeframe: int, ticks: seq<RawTick>, market: Market): seq<C.Tick>
    requires timeframe > 0
  {
    if ticks == [] then []
    else
      var before := MarketTicks(timeframe, Front(ticks), market);
      if (Last(ticks).exchange, Last(ticks).symbol) == market
      then before + [Bucketed(timeframe, Last(ticks))]
      else before
  }

  /** The candles of one market as bars; a candle does not carry its notional, so it is compared without. */
  function MarketCandles(candles: seq<Candle>, market: Market): seq<Candle> {
    if candles == [] then []
    else MarketCandles(Front(candles), market) + if Last(candles).market == market then [Last(candles)] else []
  }

  /** The candle a finished bar is reported as. */
  function CandleOf(b: C.Bar, market: Market, timeframe: int): Candle {
    Candle(market, b.bucket, b.bucket + timeframe, b.open, b.high, b.low, b.close, b.volume, b.trades, C.Vwap(b))
  }

  function CandlesOf(bars: seq<C.Bar>, market: Market, timeframe: int): seq<Candle> {
    if bars == [] then [] else CandlesOf(Front(bars), market, timeframe) + [CandleOf(Last(bars), market, timeframe)]
  }

  /** An accumulator keeps its end and its second volume in step. */
  predicate Consistent(a: Accumulator, timeframe: int) {
    a.endTimeNs == a.startTimeNs + timeframe && a.volumeAccum == a.volume
  }

  ghost predicate FollowsStream(p: Parsed, timeframe: int, market: Market, s: C.Stream) {
    && (market in p.accumulators <==> s.current.Some?)
    && (s.current.Some? ==>
          BarOf(p.accumulators[market]) == s.current.value && Consistent(p.accumulators[market], timeframe))
    && MarketCandles(p.candles, market) == CandlesOf(s.done, market, timeframe)
  }

  lemma FinalizedIsCandle(a: Accumulator, market: Market, timeframe: int)
    requires Consistent(a, timeframe)
    ensures Finalize(a, market) == CandleOf(BarOf(a), market, timeframe)
  {
  }

  lemma FinalizedMarket(a: Accumulator, market: Market)
    ensures Finalize(a, market).market == market
  {
  }

  lemma OneMoreCandle(candles: seq<Candle>, c: Candle, market: Market)
    ensures MarketCandles(candles + [c], market)
         == if c.market == market then MarketCandles(candles, market) + [c] else MarketCandles(candles, market)
  {
    assert Front(candles + [c]) == candles;
  }

  lemma OneMoreBar(bars: seq<C.Bar>, b: C.Bar, market: Market, timeframe: int)
    ensures CandlesOf(bars + [b], market, timeframe)
         == CandlesOf(bars, market, timeframe) + [CandleOf(b, market, timeframe)]
  {
    hide CandleOf;
    assert Front(bars + [b]) == bars;
  }

  lemma UpdatedIsExtended(a: Accumulator, timeframe: int, t: RawTick)
    requires timeframe > 0 && Consistent(a, timeframe) && a.startTimeNs == BucketFor(timeframe, t.timestampNs)
    ensures var u := Update(a, t.price, t.volume);
            BarOf(u) == C.Extend(BarOf(a), Bucketed(timeframe, t)) && Consistent(u, timeframe)
  {
    hide BucketFor, Times;
  }

  lemma NewIsStarted(timeframe: int, t: RawTick)
    requires timeframe > 0
    ensures var n := NewAccumulator(BucketFor(timeframe, t.timestampNs), timeframe, t.price, t.volume);
            BarOf(n) == C.Start(Bucketed(timeframe, t)) && Consistent(n, timeframe)
  {
    hide BucketFor, Times;
  }

  lemma OwnTick(accumulators: map<Market, Accumulator>, candles: seq<Candle>, timeframe: int, t: RawTick, s: C.Stream)
    requires timeframe > 0 && FollowsStream(Parsed(accumulators, candles), timeframe, (t.exchange, t.symbol), s)
    ensures var added := AddTick(accumulators, timeframe, t);
            FollowsStream(Parsed(added.accumulators, candles + added.candles), timeframe, (t.exchange, t.symbol),
                          C.Feed(s, Bucketed(timeframe, t)))
  {
    hide BucketFor, C.Start, C.Extend, Finalize, CandleOf, NewAccumulator, Update, Consistent, MarketCandles, CandlesOf;
    var market := (t.exchange, t.symbol);
    NewIsStarted(timeframe, t);
    assert candles + [] == candles;
    if market in accumulators {
      var a := accumulators[market];
      if a.startTimeNs == BucketFor(timeframe, t.timestampNs) {
        UpdatedIsExtended(a, timeframe, t);
      } else {
        FinalizedIsCandle(a, market, timeframe);
        FinalizedMarket(a, market);
        OneMoreCandle(candles, Finalize(a, market), market);
        OneMoreBar(s.done, BarOf(a), market, timeframe);
      }
    }
  }

  lemma OtherTick(accumulators: map<Market, Accumulator>, candles: seq<Candle>, timeframe: int, t: RawTick, s: C.Stream,
                  market: Market)
    requires timeframe > 0 && FollowsStream(Parsed(accumulators, candles), timeframe, market, s)
    requires market != (t.exchange, t.symbol)
    ensures var added := AddTick(accumulators, timeframe, t);
            FollowsStream(Parsed(added.accumulators, candles + added.candles), timeframe, market, s)
  {
    hide BucketFor, Update, NewAccumulator, Finalize, MarketCandles, CandlesOf, Consistent;
    assert candles + [] == candles;
    var other := (t.exchange, t.symbol);
    if other in accumulators {
      FinalizedMarket(accumulators[other], other);
      OneMoreCandle(candles, Finalize(accumulators[other], other), market);
    }
  }

  /** MAIN: whatever else is interleaved with it, each market's accumulator and emitted candles are those of
      its own tick stream. */
  lemma {:induction false} MarketsAreStreams(timeframe: int, ticks: seq<RawTick>, market: Market)
    requires timeframe > 0
    ensures FollowsStream(AddAll(map[], timeframe, ticks), timeframe, market,
                          C.FeedAll(C.IDLE, MarketTicks(timeframe, ticks, market)))
  {
    if ticks != [] {
      var before, t := Front(ticks), Last(ticks);
      MarketsAreStreams(timeframe, before, market);
      var p := AddAll(map[], timeframe, before);
      var own := MarketTicks(timeframe, before, market);
      hide FollowsStream, AddTick, C.Feed, BucketFor;
      if (t.exchange, t.symbol) == market {
        OwnTick(p.accumulators, p.candles, timeframe, t, C.FeedAll(C.IDLE, own));
        var b := Bucketed(timeframe, t);
        assert Front(own + [b]) == own;
      } else {
        OtherTick(p.accumulators, p.candles, timeframe, t, C.FeedAll(C.IDLE, own), market);
      }
    }
  }

  lemma {:induction false} MarketTicksInOrder(timeframe: int, ticks: seq<RawTick>, market: Market)
    requires timeframe > 0 && forall i, j | 0 <= i < j < |ticks| :: ticks[i].timestampNs <= ticks[j].timestampNs
    ensures C.InOrder(MarketTicks(timeframe, ticks, market))
    ensures ticks != [] ==> forall i | 0 <= i < |MarketTicks(timeframe, ticks, market)| ::
              MarketTicks(timeframe, ticks, market)[i].bucket <= BucketFor(timeframe, Last(ticks).timestampNs)
  {
    hide BucketFor;
    if ticks != [] {
      MarketTicksInOrder(timeframe, Front(ticks), market);
      if |ticks| > 1 {
        BucketsMonotone(timeframe, ticks[|ticks| - 2].timestampNs, Last(ticks).timestampNs);
      }
    }
  }

  /** MAIN: for ticks in time order, each market's emitted candles and open accumulator are the batch group-by
      of its ticks on the truncated bucket. */
  lemma ParserIsGroupBy(timeframe: int, ticks: seq<RawTick>, market: Market)
    requires timeframe > 0 && forall i, j | 0 <= i < j < |ticks| :: ticks[i].timestampNs <= ticks[j].timestampNs
    ensures var own := MarketTicks(timeframe, ticks, market);
            var s := C.FeedAll(C.IDLE, own);
            C.Groups(C.Bars(s), own) && FollowsStream(AddAll(map[], timeframe, ticks), timeframe, market, s)
  {
    MarketTicksInOrder(timeframe, ticks, market);
    MarketsAreStreams(timeframe, ticks, market);
    C.StreamIsGroupBy(MarketTicks(timeframe, ticks, market));
  }

  // ---------------------------------------------------------------- reported prices

  predicate PricesOrdered(c: Candle) {
    c.low <= c.open <= c.high && c.low <= c.close <= c.high
  }

  lemma BarInRange(b: C.Bar, market: Market, timeframe: int)
    ensures C.PricesOrdered(b) ==> PricesOrdered(CandleOf(b, market, timeframe))
    ensures C.WellShaped(b) && b.volume > 0.0 ==> b.low <= CandleOf(b, market, timeframe).vwap <= b.high
  {
    if C.WellShaped(b) && b.volume > 0.0 {
      C.VwapInRange(b);
    }
    hide Times, C.Vwap;
  }

  /** The candle of some emitted bar. */
  lemma {:induction false} CandleHasBar(bars: seq<C.Bar>, market: Market, timeframe: int, c: Candle) returns (i: nat)
    requires c in CandlesOf(bars, market, timeframe)
    ensures i < |bars| && c == CandleOf(bars[i], market, timeframe)
    decreases |bars|
  {
    hide CandleOf;
    if c == CandleOf(Last(bars), market, timeframe) {
      i := |bars| - 1;
    } else {
      i := CandleHasBar(Front(bars), market, timeframe, c);
    }
  }

  lemma {:induction false} MarketHasCandle(candles: seq<Candle>, c: Candle)
    requires c in candles
    ensures c in MarketCandles(candles, c.market)
    decreases |candles|
  {
    if c != Last(candles) {
      MarketHasCandle(Front(candles), c);
    }
  }

  lemma {:induction false} MarketVolumes(timeframe: int, ticks: seq<RawTick>, market: Market)
    requires timeframe > 0 && forall i | 0 <= i < |ticks| :: ticks[i].volume >= 0.0
    ensures forall i | 0 <= i < |MarketTicks(timeframe, ticks, market)| ::
              MarketTicks(timeframe, ticks, market)[i].volume >= 0.0
    decreases |ticks|
  {
    hide BucketFor;
    if ticks != [] {
      MarketVolumes(timeframe, Front(ticks), market);
      assert ticks[|ticks| - 1].volume >= 0.0;
    }
  }

  /** Every emitted candle reports a finished bar of its market's own stream. */
  lemma EmittedHasBar(timeframe: int, ticks: seq<RawTick>, c: Candle) returns (i: nat)
    requires timeframe > 0 && c in AddAll(map[], timeframe, ticks).candles
    ensures var bars := C.Bars(C.FeedAll(C.IDLE, MarketTicks(timeframe, ticks, c.market)));
            i < |bars| && c == CandleOf(bars[i], c.market, timeframe)
  {
    hide AddAll, MarketTicks, CandlesOf, MarketCandles, Consistent, BarOf, CandleOf, C.FeedAll;
    MarketsAreStreams(timeframe, ticks, c.market);
    MarketHasCandle(AddAll(map[], timeframe, ticks).candles, c);
    i := CandleHasBar(C.FeedAll(C.IDLE, MarketTicks(timeframe, ticks, c.market)).done, c.market, timeframe, c);
  }

  /** MAIN: for ticks in any order and of any markets, every candle the parser emits has its open and close between its
      low and its high; and while volumes are non-negative, its volume-weighted price too, if it has volume. */
  lemma EmittedInRange(timeframe: int, ticks: seq<RawTick>, c: Candle)
    requires timeframe > 0 && c in AddAll(map[], timeframe, ticks).candles
    ensures PricesOrdered(c)
    ensures (forall i | 0 <= i < |ticks| :: ticks[i].volume >= 0.0) && c.volume > 0.0 ==> c.low <= c.vwap <= c.high
  {
    var i := EmittedHasBar(timeframe, ticks, c);
    hide AddAll, MarketTicks, PricesOrdered, C.WellShaped, C.PricesOrdered, C.FeedAll, C.Vwap;
    var own := MarketTicks(timeframe, ticks, c.market);
    BarInRange(C.Bars(C.FeedAll(C.IDLE, own))[i], c.market, timeframe);
    C.BarsOrdered(own);
    if forall i | 0 <= i < |ticks| :: ticks[i].volume >= 0.0 {
      MarketVolumes(timeframe, ticks, c.market);
      C.BarsWellShaped(own);
    }
  }

  // ---------------------------------------------------------------- conservation

  function TotalVolume(candles: seq<Candle>): real {
    if candles == [] then 0.0 else TotalVolume(Front(candles)) + Last(candles).volume
  }

  function TotalTrades(candles: seq<Candle>): nat {
    if candles == [] then 0 else TotalTrades(Front(candles)) + Last(candles).numTrades
  }

  lemma {:induction false} CandlesCarryTotals(bars: seq<C.Bar>, market: Market, timeframe: int)
    ensures TotalVolume(CandlesOf(bars, market, timeframe)) == C.TotalVolume(bars)
    ensures TotalTrades(CandlesOf(bars, market, timeframe)) == C.TotalTrades(bars)
    decreases |bars|
  {
    hide C.Vwap;
    if bars != [] {
      CandlesCarryTotals(Front(bars), market, timeframe);
      var before := CandlesOf(Front(bars), market, timeframe);
      assert Front(before + [CandleOf(Last(bars), market, timeframe)]) == before;
    }
  }

  /** MAIN: for ticks in any order, each market's emitted candles and its open accumulator together have exactly the
      volume and the count of its ticks. */
  lemma ParserConserves(timeframe: int, ticks: seq<RawTick>, market: Market)
    requires timeframe > 0
    ensures var own := MarketTicks(timeframe, ticks, market);
            var p := AddAll(map[], timeframe, ticks);
            var (candles, open) := (MarketCandles(p.candles, market), market in p.accumulators);
            && TotalVolume(candles) + (if open then p.accumulators[market].volume else 0.0) == C.Volume(own)
            && TotalTrades(candles) + (if open then p.accumulators[market].numTrades else 0) == |own|
  {
    hide AddAll, MarketTicks, MarketCandles, CandlesOf, TotalVolume, TotalTrades, C.FeedAll, C.TotalVolume,
         C.TotalTrades, C.Volume;
    MarketsAreStreams(timeframe, ticks, market);
    var own := MarketTicks(timeframe, ticks, market);
    var s := C.FeedAll(C.IDLE, own);
    C.StreamConserves(own);
    CandlesCarryTotals(s.done, market, timeframe);
    if s.current.Some? {
      C.TotalsAppend(s.done, s.current.value);
    }
  }
}
