/** The Binance executor's own objects: the atomic stretches of place_order before and after the
    exchange call, run on a breaker and an idempotency table. */
module Executor {
  import opened Prelude
  import opened Idempotency
  import opened IdempotencyTable
  import opened Submission
  import CB = CircuitBreaker

  class BinanceExecutor {
    const guard: CB.Guard
    const idempotency: IdempotencyManager<()>
    const cfg: Settings

    ghost predicate Valid()
      reads this
    {
      idempotency.limits == cfg.limits && guard.cfg == cfg.breaker
    }

    constructor (cfg: Settings)
      ensures Valid() && this.cfg == cfg && fresh(guard) && fresh(idempotency)
      ensures guard.breaker == CB.NEW_BREAKER && idempotency.records == []
    {
      this.cfg := cfg;
      guard := new CB.Guard(cfg.breaker);
      idempotency := new IdempotencyManager<()>(cfg.limits);
    }

    /** Everything up to the exchange call; `verdict` says whether that call is made. */
    method BeforeExchange(key: Key, cleanedAt: int, checkedAt: int, recordedAt: int) returns (verdict: Verdict)
      requires Valid()
      modifies idempotency
      ensures Valid()
      ensures Gated(idempotency.records, verdict)
           == Gate(guard.breaker.state, old(idempotency.records), cfg, Call(key, cleanedAt, checkedAt, recordedAt))
    {
      if guard.breaker.state == CB.OPEN {
        return Rejected;
      }
      if key != "" {
        var duplicate := idempotency.CheckAndSet(key, cleanedAt, checkedAt, recordedAt);
        if duplicate {
          return AlreadySeen;
        }
      }
      verdict := if cfg.paperTrading then Simulated else Send;
    }

    /** The exchange answered, or raised. */
    method AfterExchange(ok: bool, at: int)
      requires Valid()
      modifies guard`breaker
      ensures Valid()
      ensures guard.breaker == if ok then CB.RecordSuccess(old(guard.breaker), at)
                               else CB.RecordFailure(old(guard.breaker), cfg.breaker, at)
    {
      if ok {
        guard.OnSuccess(at);
      } else {
        guard.OnFailure(at);
      }
    }

    /** An order-book read shares the breaker and reports only its failures to it. */
    method AfterBookRead(ok: bool, at: int)
      requires Valid()
      modifies guard`breaker
      ensures Valid()
      ensures guard.breaker == if ok then old(guard.breaker)
                               else CB.RecordFailure(old(guard.breaker), cfg.breaker, at)
    {
      if !ok {
        guard.OnFailure(at);
      }
    }
  }
}
