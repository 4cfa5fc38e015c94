/** What every run of the risk manager keeps: the equity ledger, the position cap, the breaker's peak, and
    what the kill switch and a tripped breaker do. */
module RiskLedger {
  import opened Prelude
  import opened RealProducts
  import opened Positions
  import opened RiskDesk
  import VR = ValueAtRisk

  /** The profit of a position at a price. */
  function Gain(p: Position, price: real): real {
    if p.isLong then Times(p.size, price - p.entryPrice) else Times(p.size, p.entryPrice - price)
  }

  function TotalGain(ps: seq<Position>): real {
    if ps == [] then 0.0 else TotalGain(Front(ps)) + Gain(Last(ps), Last(ps).currentPrice)
  }

  function TotalPnl(ps: seq<Position>): real {
    if ps == [] then 0.0 else ps[0].pnl + TotalPnl(ps[1..])
  }

  // ---------------------------------------------------------------- positions

  /** The stored profit is the profit at the stored price. */
  predicate Sound(p: Position) {
    p.entryPrice > 0.0 && p.pnl == Gain(p, p.currentPrice)
  }

  ghost predicate OnePerKey(ps: seq<Position>) {
    forall i, j | 0 <= i < j < |ps| :: !IsFor(ps[j], ps[i].exchange, ps[i].symbol)
  }

  ghost predicate Kept(d: Desk, cfg: Config) {
    && OnePerKey(d.positions)
    && (forall p | p in d.positions :: Sound(p))
    && |d.positions| <= Max(0, cfg.maxOpen)
  }

  lemma PriceTimesReturn(size: real, entry: real, move: real)
    requires entry != 0.0
    ensures Times(Times(move / entry, size), entry) == Times(size, move)
  {
    assert (move / entry) * entry == move;
    assert ((move / entry) * size) * entry == size * ((move / entry) * entry);
  }

  lemma MarkedIsSound(p: Position, price: real)
    requires p.entryPrice > 0.0
    ensures var q := UpdatePrice(p, price);
            && Sound(q) && q.pnl == Gain(p, price) && q.currentPrice == price
            && q.exchange == p.exchange && q.symbol == p.symbol && q.entryPrice == p.entryPrice
            && q.size == p.size && q.isLong == p.isLong
  {
    PriceTimesReturn(p.size, p.entryPrice, if p.isLong then price - p.entryPrice else p.entryPrice - price);
    hide Times;
  }

  lemma TickedIsSound(p: Position, rules: StopRules, price: real, held: int)
    requires p.entryPrice > 0.0
    ensures var q := Tick(p, rules, price, held).0;
            && Sound(q) && q.currentPrice == price && q.exchange == p.exchange && q.symbol == p.symbol
            && q.size == p.size && q.entryPrice == p.entryPrice
  {
    MarkedIsSound(p, price);
    hide Times, ProfitInAtr, UpdatePrice, Gain;
    SameGain(UpdatePrice(p, price), Tick(p, rules, price, held).0);
  }

  lemma SameGain(p: Position, q: Position)
    requires p.size == q.size && p.isLong == q.isLong && p.entryPrice == q.entryPrice
    ensures forall price: real :: Gain(p, price) == Gain(q, price)
  {
  }

  lemma FreshIsSound(cfg: Config, s: Signal, size: real, now: int)
    requires s.price > 0.0
    ensures Sound(PositionOf(cfg, s, size, now))
  {
    assert Times(size / s.price, 0.0) == 0.0;
    hide Stops;
  }

  // ---------------------------------------------------------------- runs

  datatype Event =
    | Trade(signal: Signal, now: int, minute: int)      // judge a signal and open it if approved
    | Price(exchange: string, symbol: string, price: real, heldSeconds: int)
    | Close(exchange: string, symbol: string, price: real, now: int)
    | KillAll(now: int)
    | Unkill
    | ResetDaily
    | ResetBreaker

  predicate Proper(e: Event) {
    e.Trade? ==> e.signal.price > 0.0
  }

  /** The desk together with everything it has closed. */
  datatype Book = Book(desk: Desk, closed: seq<Position>)

  function Next(b: Book, cfg: Config, e: Event): Book
    requires Priced(b.desk.positions) && Proper(e)
  {
    match e
    case Trade(s, now, minute) =>
      var (read, verdict) := Approve(b.desk, cfg, s, now, minute);
      b.(desk := if verdict.Approved? then OpenPosition(read, cfg, s, verdict.size, now) else read)
    case Price(exchange, symbol, price, held) => b.(desk := MarkAt(b.desk, cfg, exchange, symbol, price, held).0)
    case Close(exchange, symbol, price, now) =>
      var (desk, closed) := ClosePosition(b.desk, cfg, exchange, symbol, price, now);
      Book(desk, if closed.Some? then b.closed + [closed.value] else b.closed)
    case KillAll(now) =>
      var (desk, closed) := Kill(b.desk, cfg, now);
      Book(desk, b.closed + closed)
    case Unkill => b.(desk := b.desk.(killed := false))
    case ResetDaily => b.(desk := b.desk.(breaker := b.desk.breaker.(dailyLoss := 0.0)))
    case ResetBreaker => b.(desk := b.desk.(breaker := b.desk.breaker.(dailyLoss := 0.0, tripped := false)))
  }

  /** What the ledger says: the equity is the initial equity and every closed profit, and the peak is at
      least the equity once something has closed. */
  ghost predicate Balanced(b: Book, initial: real) {
    && b.desk.equity == initial + TotalGain(b.closed)
    && (b.closed != [] ==> b.desk.breaker.peakEquity >= b.desk.equity)
    && (b.closed == [] ==> b.desk.equity == initial)
  }

  lemma KeptIsPriced(d: Desk, cfg: Config)
    requires Kept(d, cfg)
    ensures Priced(d.positions)
  {
  }

  lemma RemoveKeeps(ps: seq<Position>, i: nat)
    requires i < |ps| && OnePerKey(ps) && forall p | p in ps :: Sound(p)
    ensures var left := ps[..i] + ps[i + 1..];
            OnePerKey(left) && (forall p | p in left :: Sound(p)) && |left| == |ps| - 1
  {
    hide Sound;
    var left := ps[..i] + ps[i + 1..];
    assert forall j | 0 <= j < |left| :: left[j] == ps[if j < i then j else j + 1];
  }

  lemma CloseKeeps(d: Desk, cfg: Config, exchange: string, symbol: string, price: real, now: int)
    requires Kept(d, cfg)
    ensures Priced(d.positions)
    ensures var (after, closed) := ClosePosition(d, cfg, exchange, symbol, price, now);
            && Kept(after, cfg) && after.killed == d.killed
            && (closed.None? ==> after == d)
            && (closed.Some? ==> after.equity == d.equity + Gain(closed.value, closed.value.currentPrice)
                                 && after.breaker.peakEquity >= after.equity)
  {
    KeptIsPriced(d, cfg);
    var i := Find(d.positions, exchange, symbol);
    hide Gain, VR.RecordReturn, Times, Drawdown;
    if i < |d.positions| {
      assert d.positions[i] in d.positions;
      MarkedIsSound(d.positions[i], price);
      RemoveKeeps(d.positions, i);
      hide UpdatePrice, Find, OnePerKey, Sound;
    }
  }

  lemma TotalGainAppend(a: seq<Position>, b: seq<Position>)
    ensures TotalGain(a + b) == TotalGain(a) + TotalGain(b)
    decreases |b|
  {
    if b == [] {
      assert a + b == a;
    } else {
      assert Front(a + b) == a + Front(b) && Last(a + b) == Last(b);
      TotalGainAppend(a, Front(b));
    }
  }

  lemma CloseBalances(b: Book, cfg: Config, exchange: string, symbol: string, price: real, now: int, initial: real)
    requires Kept(b.desk, cfg) && Balanced(b, initial)
    ensures Priced(b.desk.positions)
    ensures Balanced(Next(b, cfg, Close(exchange, symbol, price, now)), initial)
    ensures Kept(Next(b, cfg, Close(exchange, symbol, price, now)).desk, cfg)
  {
    CloseKeeps(b.desk, cfg, exchange, symbol, price, now);
    hide Kept, ClosePosition, Gain;
    var closed := ClosePosition(b.desk, cfg, exchange, symbol, price, now).1;
    if closed.Some? {
      assert Front(b.closed + [closed.value]) == b.closed;
    }
  }

  lemma {:induction false} CloseAllBalances(b: Book, cfg: Config, targets: seq<Position>, now: int, initial: real)
    requires Kept(b.desk, cfg) && Balanced(b, initial)
    ensures Priced(b.desk.positions)
    ensures var (desk, closed) := CloseAll(b.desk, cfg, targets, now);
            Balanced(Book(desk, b.closed + closed), initial) && Kept(desk, cfg)
    decreases |targets|
  {
    KeptIsPriced(b.desk, cfg);
    if targets == [] {
      assert b.closed + [] == b.closed;
    } else {
      var t := targets[0];
      CloseBalances(b, cfg, t.exchange, t.symbol, t.currentPrice, now, initial);
      hide Kept, Balanced, ClosePosition;
      var next := Next(b, cfg, Close(t.exchange, t.symbol, t.currentPrice, now));
      CloseAllBalances(next, cfg, targets[1..], now, initial);
      var (_, first) := ClosePosition(b.desk, cfg, t.exchange, t.symbol, t.currentPrice, now);
      var (_, others) := CloseAll(next.desk, cfg, targets[1..], now);
      var head := if first.Some? then [first.value] else [];
      assert b.closed + (head + others) == (b.closed + head) + others;
      assert b.closed + [] == b.closed;
    }
  }

  lemma AddKeeps(ps: seq<Position>, p: Position)
    requires OnePerKey(ps) && Find(ps, p.exchange, p.symbol) == |ps| && forall q | q in ps :: Sound(q)
    requires Sound(p)
    ensures OnePerKey(ps + [p]) && forall q | q in ps + [p] :: Sound(q)
  {
    hide Sound;
    var all := ps + [p];
    forall i, j | 0 <= i < j < |all|
      ensures !IsFor(all[j], all[i].exchange, all[i].symbol)
    {
      if j == |ps| {
        assert !IsFor(ps[i], p.exchange, p.symbol);
      }
    }
  }

  lemma TradeKeeps(d: Desk, cfg: Config, s: Signal, now: int, minute: int)
    requires Kept(d, cfg) && s.price > 0.0
    ensures var (read, verdict) := Approve(d, cfg, s, now, minute);
            && Kept(read, cfg) && read.equity == d.equity && read.breaker.peakEquity == d.breaker.peakEquity
            && (verdict.Approved? ==> Kept(OpenPosition(read, cfg, s, verdict.size, now), cfg))
  {
    var (read, verdict) := Approve(d, cfg, s, now, minute);
    hide PositionSize, BreachesVar, SessionOpen, Cooling, VR.VaR, Sound, Stops;
    if verdict.Approved? {
      FreshIsSound(cfg, s, verdict.size, now);
      AddKeeps(read.positions, PositionOf(cfg, s, verdict.size, now));
      hide OnePerKey;
    }
  }

  lemma MarkKeeps(d: Desk, cfg: Config, exchange: string, symbol: string, price: real, held: int)
    requires Kept(d, cfg)
    ensures Priced(d.positions)
    ensures var after := MarkAt(d, cfg, exchange, symbol, price, held).0;
            Kept(after, cfg) && after == d.(positions := after.positions)
  {
    KeptIsPriced(d, cfg);
    var i := Find(d.positions, exchange, symbol);
    if i < |d.positions| {
      assert d.positions[i] in d.positions;
      TickedIsSound(d.positions[i], cfg.rules, price, held);
      hide Tick, Sound, Find;
      ReplaceKeeps(d.positions, i, Tick(d.positions[i], cfg.rules, price, held).0);
    }
  }

  lemma ReplaceKeeps(ps: seq<Position>, i: nat, q: Position)
    requires i < |ps| && OnePerKey(ps) && forall p | p in ps :: Sound(p)
    requires Sound(q) && q.exchange == ps[i].exchange && q.symbol == ps[i].symbol
    ensures OnePerKey(ps[i := q]) && forall p | p in ps[i := q] :: Sound(p)
  {
    hide Sound;
  }

  lemma NextBalances(b: Book, cfg: Config, e: Event, initial: real)
    requires Kept(b.desk, cfg) && Balanced(b, initial) && Proper(e)
    ensures Priced(b.desk.positions)
    ensures Kept(Next(b, cfg, e).desk, cfg) && Balanced(Next(b, cfg, e), initial)
  {
    KeptIsPriced(b.desk, cfg);
    hide Approve, OpenPosition, ClosePosition, MarkAt, CloseAll, TotalGain, OnePerKey, Sound, Priced;
    match e
    case Trade(s, now, minute) => TradeKeeps(b.desk, cfg, s, now, minute); OpenKeepsMoney(b.desk, cfg, s, now, minute);
    case Price(exchange, symbol, price, held) => MarkKeeps(b.desk, cfg, exchange, symbol, price, held);
    case Close(exchange, symbol, price, now) => CloseBalances(b, cfg, exchange, symbol, price, now, initial);
    case KillAll(now) => CloseAllBalances(b.(desk := b.desk.(killed := true)), cfg, b.desk.positions, now, initial);
    case Unkill =>
    case ResetDaily =>
    case ResetBreaker =>
  }

  lemma OpenKeepsMoney(d: Desk, cfg: Config, s: Signal, now: int, minute: int)
    requires s.price > 0.0
    ensures forall size: real ::
              var read := Approve(d, cfg, s, now, minute).0;
              var after := OpenPosition(read, cfg, s, size, now);
              after.equity == read.equity && after.breaker == read.breaker
  {
    hide Approve, Put, PositionOf;
  }

  /** MAIN: over every run in which each opening directly follows its approval, the equity is the initial
      equity plus the profit of every closed position, at most `maxOpen` positions are open, one to a key,
      each carrying the profit at its current price, and after the first close the breaker's peak is at
      least the equity. */
  function Run(cfg: Config, initial: real, events: seq<Event>): (b: Book)
    requires forall e | e in events :: Proper(e)
    ensures Kept(b.desk, cfg) && Balanced(b, initial)
  {
    if events == [] then Book(NewDesk(initial), [])
    else
      var before := Run(cfg, initial, Front(events));
      assert Last(events) in events;
      NextBalances(before, cfg, Last(events), initial);
      Next(before, cfg, Last(events))
  }

  // ---------------------------------------------------------------- the kill switch

  function Flattened(ps: seq<Position>): seq<Position>
    requires forall p | p in ps :: p.entryPrice > 0.0
  {
    if ps == [] then [] else [UpdatePrice(ps[0], ps[0].currentPrice)] + Flattened(ps[1..])
  }

  lemma CloseHead(d: Desk, cfg: Config, now: int)
    requires Kept(d, cfg) && d.positions != []
    ensures Priced(d.positions)
    ensures var p := d.positions[0];
            var (after, closed) := ClosePosition(d, cfg, p.exchange, p.symbol, p.currentPrice, now);
            && closed == Some(UpdatePrice(p, p.currentPrice))
            && after.positions == d.positions[1..] && after.killed == d.killed && Kept(after, cfg)
            && after.equity == d.equity + p.pnl
  {
    var p := d.positions[0];
    CloseKeeps(d, cfg, p.exchange, p.symbol, p.currentPrice, now);
    assert p in d.positions;
    MarkedIsSound(p, p.currentPrice);
    hide Gain, UpdatePrice, VR.RecordReturn, RecordPnl;
    assert Find(d.positions, p.exchange, p.symbol) == 0;
    assert d.positions[..0] + d.positions[1..] == d.positions[1..];
  }

  lemma {:induction false} CloseAllEmpties(d: Desk, cfg: Config, now: int)
    requires Kept(d, cfg)
    ensures Priced(d.positions)
    ensures var (after, closed) := CloseAll(d, cfg, d.positions, now);
            && after.positions == [] && closed == Flattened(d.positions) && after.killed == d.killed
            && after.equity == d.equity + TotalPnl(d.positions)
    decreases |d.positions|
  {
    KeptIsPriced(d, cfg);
    if d.positions != [] {
      var p := d.positions[0];
      CloseHead(d, cfg, now);
      var (next, closed) := ClosePosition(d, cfg, p.exchange, p.symbol, p.currentPrice, now);
      hide ClosePosition, Kept, UpdatePrice;
      CloseAllEmpties(next, cfg, now);
    }
  }

  /** MAIN: the kill switch closes every open position at its current price, changes the equity by exactly
      the open profit, and from then on every signal is refused until it is lifted. */
  lemma KillSwitchWorks(d: Desk, cfg: Config, now: int)
    requires Kept(d, cfg)
    ensures Priced(d.positions)
    ensures var (after, closed) := Kill(d, cfg, now);
            && after.positions == [] && closed == Flattened(d.positions) && after.killed
            && after.equity == d.equity + TotalPnl(d.positions)
            && forall s: Signal, t: int, minute: int ::
                 Approve(after, cfg, s, t, minute) == (after, Refused(KillSwitch))
  {
    CloseAllEmpties(d.(killed := true), cfg, now);
    hide CloseAll, Flattened;
  }

  lemma KilledStep(b: Book, cfg: Config, e: Event)
    requires Kept(b.desk, cfg) && Proper(e) && b.desk.killed && b.desk.positions == [] && !e.Unkill?
    ensures var after := Next(b, cfg, e);
            && after.desk.killed && after.desk.positions == []
            && after.desk.equity == b.desk.equity && after.closed == b.closed
  {
    match e
    case KillAll(now) => assert b.closed + [] == b.closed;
    case _ =>
  }

  lemma KillAllEmpties(b: Book, cfg: Config, now: int)
    requires Kept(b.desk, cfg)
    ensures Priced(b.desk.positions)
    ensures var after := Next(b, cfg, KillAll(now));
            && after.desk.killed && after.desk.positions == []
            && after.desk.equity == b.desk.equity + TotalPnl(b.desk.positions)
  {
    hide Kept, Kill, TotalPnl;
    KillSwitchWorks(b.desk, cfg, now);
  }

  /** MAIN: however a run goes on after the switch is thrown, until it is lifted nothing is open, neither the equity
      nor the closed positions change, and every signal is refused. */
  lemma {:induction false} KilledUntilLifted(cfg: Config, initial: real, events: seq<Event>, now: int, more: seq<Event>)
    requires (forall e | e in events :: Proper(e)) && forall e | e in more :: Proper(e) && !e.Unkill?
    ensures forall e | e in events + [KillAll(now)] + more :: Proper(e)
    ensures var before, after := Run(cfg, initial, events), Run(cfg, initial, events + [KillAll(now)] + more);
            && after.desk.killed && after.desk.positions == []
            && after.desk.equity == before.desk.equity + TotalPnl(before.desk.positions)
            && after.closed == Run(cfg, initial, events + [KillAll(now)]).closed
            && forall s: Signal, t: int, minute: int ::
                 Approve(after.desk, cfg, s, t, minute) == (after.desk, Refused(KillSwitch))
    decreases |more|
  {
    var all := events + [KillAll(now)] + more;
    hide Kept, Balanced, Next, TotalPnl, Judge;
    if more == [] {
      assert Front(all) == events && Last(all) == KillAll(now) && all == events + [KillAll(now)];
      KillAllEmpties(Run(cfg, initial, events), cfg, now);
    } else {
      assert Last(more) in more && forall e | e in Front(more) :: e in more;
      KilledUntilLifted(cfg, initial, events, now, Front(more));
      assert Front(all) == events + [KillAll(now)] + Front(more) && Last(all) == Last(more);
      KilledStep(Run(cfg, initial, Front(all)), cfg, Last(more));
    }
    KilledRefuses(Run(cfg, initial, all).desk, cfg);
  }

  lemma KilledRefuses(d: Desk, cfg: Config)
    requires d.killed
    ensures forall s: Signal, t: int, minute: int :: Approve(d, cfg, s, t, minute) == (d, Refused(KillSwitch))
  {
  }

  // ---------------------------------------------------------------- exposure

  /** What the position was worth when it was opened. */
  function Notional(p: Position): real {
    Times(p.size, p.entryPrice)
  }

  function TotalNotional(ps: seq<Position>): real {
    if ps == [] then 0.0 else TotalNotional(Front(ps)) + Notional(Last(ps))
  }

  /** The highest equity the run has known. */
  function HighWater(b: Book, initial: real): real {
    MaxReal(initial, b.desk.breaker.peakEquity)
  }

  /** The tighter of the position cap and the symbol cap, as a fraction of the equity. */
  function CapRate(cfg: Config): real {
    MinReal(Times(cfg.maxPositionPct, cfg.leverage), cfg.maxExposurePerSymbol)
  }

  ghost predicate Capped(ps: seq<Position>, bound: real) {
    forall p | p in ps :: 0.0 < Notional(p) <= bound
  }

  lemma ApprovedUnderCap(d: Desk, cfg: Config, s: Signal, now: int, minute: int, high: real)
    requires Approve(d, cfg, s, now, minute).1.Approved? && d.equity <= high && cfg.maxExposurePerSymbol >= 0.0
    ensures 0.0 < Approve(d, cfg, s, now, minute).1.size <= Times(CapRate(cfg), high)
  {
    ApprovedInRates(d, cfg, s, now, minute);
    hide Approve, Times;
    var size, factor := Approve(d, cfg, s, now, minute).1.size, Times(cfg.maxPositionPct, cfg.leverage);
    RateTimesEquity(size, factor, cfg.maxExposurePerSymbol, d.equity, high);
  }

  lemma ApprovedInRates(d: Desk, cfg: Config, s: Signal, now: int, minute: int)
    requires Approve(d, cfg, s, now, minute).1.Approved?
    ensures var size := Approve(d, cfg, s, now, minute).1.size;
            && 0.0 < size <= Times(Times(cfg.maxPositionPct, cfg.leverage), d.equity)
            && size <= Times(cfg.maxExposurePerSymbol, d.equity)
  {
    ApprovedWithinLimits(d, cfg, s, now, minute);
    CapsAre(d.equity, cfg.maxPositionPct, cfg.leverage, cfg.maxExposurePerSymbol);
    hide Approve, Times, VR.VaR;
  }

  lemma CapsAre(equity: real, pct: real, leverage: real, exposure: real)
    ensures equity * pct * leverage == Times(Times(pct, leverage), equity)
    ensures equity * exposure == Times(exposure, equity)
  {
  }

  lemma RateTimesEquity(size: real, factor: real, exposure: real, equity: real, high: real)
    requires 0.0 < size <= Times(factor, equity) && size <= Times(exposure, equity) && exposure >= 0.0 && equity <= high
    ensures size <= Times(MinReal(factor, exposure), high)
  {
    if equity <= 0.0 {
      TimesMonotone(equity, 0.0, exposure);
      TimesUnits(exposure);
      assert false;
    }
    if factor <= 0.0 {
      TimesMonotone(factor, 0.0, equity);
      TimesUnits(equity);
      assert false;
    }
    TimesMonotone(equity, high, MinReal(factor, exposure));
  }

  lemma OpenedNotional(cfg: Config, s: Signal, size: real, now: int)
    requires s.price > 0.0
    ensures Notional(PositionOf(cfg, s, size, now)) == size
  {
    hide Stops;
    assert size / s.price * s.price == size;
  }

  lemma TradeStaysCapped(b: Book, cfg: Config, e: Event, initial: real)
    requires Kept(b.desk, cfg) && Balanced(b, initial) && e.Trade? && Proper(e) && cfg.maxExposurePerSymbol >= 0.0
    requires Capped(b.desk.positions, Times(CapRate(cfg), HighWater(b, initial)))
    ensures Priced(b.desk.positions)
    ensures var after := Next(b, cfg, e);
            HighWater(after, initial) == HighWater(b, initial)
            && Capped(after.desk.positions, Times(CapRate(cfg), HighWater(b, initial)))
  {
    var s, now, minute := e.signal, e.now, e.minute;
    KeptIsPriced(b.desk, cfg);
    TradeKeeps(b.desk, cfg, s, now, minute);
    ReadKeepsPositions(b.desk, cfg, s, now, minute);
    hide Approve, Kept, Notional, CapRate, Times, PositionOf;
    var (read, verdict) := Approve(b.desk, cfg, s, now, minute);
    if verdict.Approved? {
      ApprovedUnderCap(b.desk, cfg, s, now, minute, HighWater(b, initial));
      OpenedNotional(cfg, s, verdict.size, now);
    }
  }

  lemma ReadKeepsPositions(d: Desk, cfg: Config, s: Signal, now: int, minute: int)
    ensures Approve(d, cfg, s, now, minute).0.positions == d.positions
  {
    hide Judge;
  }

  lemma CloseStaysCapped(d: Desk, cfg: Config, exchange: string, symbol: string, price: real, now: int, bound: real)
    requires Kept(d, cfg) && Capped(d.positions, bound)
    ensures Priced(d.positions)
    ensures var after := ClosePosition(d, cfg, exchange, symbol, price, now).0;
            Capped(after.positions, bound) && after.breaker.peakEquity >= d.breaker.peakEquity
  {
    KeptIsPriced(d, cfg);
    hide Notional, UpdatePrice, Find, VR.RecordReturn, Drawdown;
  }

  lemma MarkStaysCapped(d: Desk, cfg: Config, exchange: string, symbol: string, price: real, held: int, bound: real)
    requires Kept(d, cfg) && Capped(d.positions, bound)
    ensures Priced(d.positions)
    ensures Capped(MarkAt(d, cfg, exchange, symbol, price, held).0.positions, bound)
  {
    KeptIsPriced(d, cfg);
    var i := Find(d.positions, exchange, symbol);
    if i < |d.positions| {
      assert d.positions[i] in d.positions;
      TickedIsSound(d.positions[i], cfg.rules, price, held);
      hide Tick, Find, Times;
    }
  }

  lemma CapGrows(ps: seq<Position>, rate: real, low: real, high: real)
    requires Capped(ps, Times(rate, low)) && low <= high
    ensures rate >= 0.0 ==> Capped(ps, Times(rate, high))
  {
    if rate >= 0.0 {
      TimesMonotone(low, high, rate);
    }
    hide Notional, Times;
  }

  lemma StepStaysCapped(b: Book, cfg: Config, e: Event, initial: real)
    requires Kept(b.desk, cfg) && Balanced(b, initial) && Proper(e) && CapRate(cfg) >= 0.0
    requires Capped(b.desk.positions, Times(CapRate(cfg), HighWater(b, initial)))
    ensures Priced(b.desk.positions)
    ensures Capped(Next(b, cfg, e).desk.positions, Times(CapRate(cfg), HighWater(Next(b, cfg, e), initial)))
  {
    KeptIsPriced(b.desk, cfg);
    hide Capped, Times, Kept, ClosePosition, MarkAt, Kill, Approve, OpenPosition, CapRate, Balanced;
    var bound := Times(CapRate(cfg), HighWater(b, initial));
    var after := Next(b, cfg, e);
    match e
    case Trade(s, now, minute) =>
      RateLeavesRoom(cfg);
      TradeStaysCapped(b, cfg, e, initial);
    case Price(exchange, symbol, price, held) =>
      MarkStaysCapped(b.desk, cfg, exchange, symbol, price, held, bound);
      MarkKeeps(b.desk, cfg, exchange, symbol, price, held);
    case Close(exchange, symbol, price, now) =>
      CloseStaysCapped(b.desk, cfg, exchange, symbol, price, now, bound);
      CapGrows(after.desk.positions, CapRate(cfg), HighWater(b, initial), HighWater(after, initial));
    case KillAll(now) =>
      KillAllEmpties(b, cfg, now);
      NothingCapped(Times(CapRate(cfg), HighWater(after, initial)));
    case _ =>
  }

  lemma RateLeavesRoom(cfg: Config)
    requires CapRate(cfg) >= 0.0
    ensures cfg.maxExposurePerSymbol >= 0.0
  {
  }

  lemma NothingCapped(bound: real)
    ensures Capped([], bound)
  {
  }

  lemma {:induction false} TotalOfCapped(ps: seq<Position>, bound: real)
    requires Capped(ps, bound)
    ensures 0.0 <= TotalNotional(ps) <= Times(|ps| as real, bound)
    decreases |ps|
  {
    hide Notional, Times;
    TimesUnits(bound);
    if ps != [] {
      assert Last(ps) in ps && forall p | p in Front(ps) :: p in ps;
      TotalOfCapped(Front(ps), bound);
      TimesAdds(bound, (|ps| - 1) as real, 1.0);
      assert |ps| as real == (|ps| - 1) as real + 1.0;
    }
  }

  /** MAIN: over every run, each open position was opened for a positive amount within the tighter cap's share of the
      highest equity the run has known, and all of them together within `maxOpen` such shares. */
  lemma {:induction false} ExposureIsBounded(cfg: Config, initial: real, events: seq<Event>)
    requires (forall e | e in events :: Proper(e)) && CapRate(cfg) >= 0.0
    ensures var b := Run(cfg, initial, events);
            var cap := Times(CapRate(cfg), HighWater(b, initial));
            Capped(b.desk.positions, cap)
            && 0.0 <= TotalNotional(b.desk.positions) <= MaxReal(0.0, Times(Max(0, cfg.maxOpen) as real, cap))
    decreases |events|
  {
    hide Capped, Times, Next, HighWater, CapRate, TotalNotional;
    var b := Run(cfg, initial, events);
    var cap := Times(CapRate(cfg), HighWater(b, initial));
    if events == [] {
      NothingCapped(cap);
    } else {
      assert Last(events) in events && forall e | e in Front(events) :: e in events;
      ExposureIsBounded(cfg, initial, Front(events));
      StepStaysCapped(Run(cfg, initial, Front(events)), cfg, Last(events), initial);
    }
    TotalWithinSlots(b.desk.positions, Max(0, cfg.maxOpen), cap);
  }

  lemma TotalWithinSlots(ps: seq<Position>, slots: nat, cap: real)
    requires Capped(ps, cap) && |ps| <= slots
    ensures 0.0 <= TotalNotional(ps) <= MaxReal(0.0, Times(slots as real, cap))
  {
    hide Notional;
    TotalOfCapped(ps, cap);
    if ps != [] {
      assert ps[0] in ps;
      TimesMonotone(|ps| as real, slots as real, cap);
    }
    hide Times;
  }

  // ---------------------------------------------------------------- the loss breaker

  /** Everything the breaker sees between two daily resets. */
  datatype LossEvent = Loss(pnlPct: real, equity: real, now: int) | Read(now: int)

  function NextLoss(b: LossBreaker, limits: LossLimits, e: LossEvent): LossBreaker {
    match e
    case Loss(pct, equity, now) => RecordPnl(b, limits, pct, equity, now)
    case Read(now) => ReadTripped(b, limits, now)
  }

  function AfterLosses(b: LossBreaker, limits: LossLimits, events: seq<LossEvent>): LossBreaker {
    if events == [] then b else NextLoss(AfterLosses(b, limits, Front(events)), limits, Last(events))
  }

  /** MAIN: once the day's loss has tripped the breaker, an automatic resume lasts only until the next
      recorded result, whatever that is: it trips again every time until the daily loss is reset. */
  lemma {:induction false} DailyLossTripsAgain(b: LossBreaker, limits: LossLimits, events: seq<LossEvent>)
    requires b.dailyLoss <= 0.0 && AbsReal(b.dailyLoss) >= limits.maxDailyLoss
    ensures var after := AfterLosses(b, limits, events);
            && after.dailyLoss <= b.dailyLoss
            && (events != [] && Last(events).Loss? ==> after.tripped && after.tripTime == Last(events).now)
  {
    hide Drawdown;
    if events != [] {
      DailyLossTripsAgain(b, limits, Front(events));
    }
  }

  /** The peak never falls, and never lags a recorded equity. */
  lemma {:induction false} PeakDominates(b: LossBreaker, limits: LossLimits, events: seq<LossEvent>)
    ensures AfterLosses(b, limits, events).peakEquity >= b.peakEquity
    ensures forall i | 0 <= i < |events| && events[i].Loss? ::
              AfterLosses(b, limits, events).peakEquity >= events[i].equity
  {
    hide Drawdown;
    if events != [] {
      PeakDominates(b, limits, Front(events));
      assert forall i | 0 <= i < |events| - 1 :: events[i] == Front(events)[i];
    }
  }

  // ---------------------------------------------------------------- approval and stops

  /** An approved size is positive and within every cap: the position cap, the symbol exposure cap and, with enough
      history, the projected value at risk. */
  lemma ApprovedWithinLimits(d: Desk, cfg: Config, s: Signal, now: int, minute: int)
    requires Approve(d, cfg, s, now, minute).1.Approved?
    ensures var size := Approve(d, cfg, s, now, minute).1.size;
            && 0.0 < size <= d.equity * cfg.maxPositionPct * cfg.leverage && size <= d.equity * cfg.maxExposurePerSymbol
            && (|d.history| >= cfg.varMinHistory && d.equity > 0.0 ==>
                  VR.VaR(d.history, 0.95) + size / d.equity <= cfg.maxPortfolioVar)
            && !d.killed && |d.positions| < cfg.maxOpen && !Cooling(d, cfg, s.symbol, now)
  {
    hide VR.VaR, SessionOpen, PositionSize, BreachesVar;
    ApprovedSize(d, cfg, s, now, minute);
    SizeCapped(d.equity, cfg, s);
    WithinVar(d.history, d.equity, cfg, PositionSize(d.equity, cfg, s));
  }

  /** A risk-based size that is approved loses, between the signal's price and its stop, no more than the leveraged
      risk per trade; that stop is never at the price itself. */
  lemma StopRiskIsBounded(d: Desk, cfg: Config, s: Signal, now: int, minute: int)
    requires s.price > 0.0 && cfg.riskBasedSizing && Approve(d, cfg, s, now, minute).1.Approved?
    ensures s.stopLoss != s.price
    ensures Approve(d, cfg, s, now, minute).1.size * (AbsReal(s.price - s.stopLoss) / s.price)
         <= d.equity * cfg.riskPerTrade * cfg.leverage
  {
    hide Approve, PositionSize;
    ApprovedSize(d, cfg, s, now, minute);
    SizeIsRisked(d.equity, cfg, s);
    var risk := AbsReal(s.price - s.stopLoss) / s.price;
    var budget := d.equity * cfg.riskPerTrade;
    RiskedNotional(PositionSize(d.equity, cfg, s), budget, risk, cfg.leverage);
  }

  lemma ApprovedSize(d: Desk, cfg: Config, s: Signal, now: int, minute: int)
    requires Approve(d, cfg, s, now, minute).1.Approved?
    ensures Sizable(cfg, s) && Approve(d, cfg, s, now, minute).1.size == PositionSize(d.equity, cfg, s) > 0.0
  {
    hide VR.VaR, SessionOpen, PositionSize, BreachesVar;
  }

  lemma SizeIsRisked(equity: real, cfg: Config, s: Signal)
    requires s.price > 0.0 && cfg.riskBasedSizing && PositionSize(equity, cfg, s) > 0.0
    ensures AbsReal(s.price - s.stopLoss) > 0.0
    ensures PositionSize(equity, cfg, s)
         <= (equity * cfg.riskPerTrade) / (AbsReal(s.price - s.stopLoss) / s.price) * cfg.leverage
  {
  }

  lemma RiskedNotional(size: real, budget: real, risk: real, leverage: real)
    requires risk > 0.0 && size <= budget / risk * leverage
    ensures size * risk <= budget * leverage
  {
    var notional := budget / risk;
    assert notional * risk == budget;
    assert (notional * leverage) * risk == budget * leverage;
    assert size * risk <= (notional * leverage) * risk;
  }

  lemma SizeCapped(equity: real, cfg: Config, s: Signal)
    requires Sizable(cfg, s)
    ensures var size := PositionSize(equity, cfg, s);
            size == 0.0 || size <= equity * cfg.maxPositionPct * cfg.leverage
  {
  }

  lemma WithinVar(history: seq<real>, equity: real, cfg: Config, size: real)
    requires !BreachesVar(history, equity, cfg, size)
    ensures |history| >= cfg.varMinHistory && equity > 0.0 ==>
              VR.VaR(history, 0.95) + size / equity <= cfg.maxPortfolioVar
  {
  }

  /** A position is opened with its stop on the losing side of its entry, so StopNeverLoosens applies to it. */
  lemma OpenedWithProtectiveStop(cfg: Config, s: Signal, size: real, now: int)
    requires s.price > 0.0 && cfg.stopLossPct >= 0.0
    ensures var p := PositionOf(cfg, s, size, now);
            Opened(p) && if p.isLong then p.stopLoss <= p.entryPrice else p.stopLoss >= p.entryPrice
  {
    var atr := if s.atr > 0.0 then s.atr else s.price * 0.01;
    var distance := atr * cfg.atrStopMultiplier;
    assert s.price * cfg.stopLossPct >= 0.0;
    assert s.price * (1.0 - cfg.stopLossPct) == s.price - s.price * cfg.stopLossPct;
    assert s.price * (1.0 + cfg.stopLossPct) == s.price + s.price * cfg.stopLossPct;
  }
}
