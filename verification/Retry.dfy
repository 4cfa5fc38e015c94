/** The retry policy of core/retry.py: attempts, pauses and the dead-letter list. What the operation does
    on each attempt is an input. */
module Retry {
  import opened Prelude
  import opened RealProducts

  type ExceptionType = nat

  datatype Try = Returns(value: int) | Raises(exception: ExceptionType)

  datatype Final = Done(value: int) | Raised(exception: ExceptionType) | NeverTried

  datatype DeadLetter = DeadLetter(operation: string, exception: ExceptionType)

  datatype Policy = Policy(
    maxAttempts: nat,
    baseDelay: real,
    maxDelay: real,
    exponential: bool,
    retryable: set<ExceptionType>,
    deadLetterLimit: nat)

  /** An attempt after which there is no other. */
  predicate Decisive(policy: Policy, tries: seq<Try>, attempt: nat)
    requires attempt < |tries|
  {
    tries[attempt].Returns? || tries[attempt].exception !in policy.retryable || attempt + 1 >= policy.maxAttempts
  }

  /** The Python slice `s[-n:]`, which for zero is the whole list. */
  function KeepLast<T>(s: seq<T>, n: nat): seq<T> {
    if n == 0 || n >= |s| then s else s[|s| - n..]
  }

  function AddDeadLetter(letters: seq<DeadLetter>, policy: Policy, letter: DeadLetter): seq<DeadLetter> {
    var added := letters + [letter];
    if |added| > policy.deadLetterLimit then KeepLast(added, policy.deadLetterLimit) else added
  }

  class RetryPolicy {
    const policy: Policy
    var deadLetters: seq<DeadLetter>

    constructor (policy: Policy)
      ensures this.policy == policy && deadLetters == []
    {
      this.policy := policy;
      deadLetters := [];
    }

    /** Runs attempts until a decisive one: all before it raised something retryable, its own result is
        the answer, and a failure leaves exactly one dead letter. */
    method ExecuteWithRetry(operation: string, tries: seq<Try>) returns (final: Final, attempts: nat)
      requires |tries| >= policy.maxAttempts
      modifies this`deadLetters
      ensures attempts <= policy.maxAttempts && (attempts == 0 <==> policy.maxAttempts == 0)
      ensures forall i | 0 <= i < attempts - 1 :: !Decisive(policy, tries, i)
      ensures attempts > 0 ==>
                && Decisive(policy, tries, attempts - 1)
                && final == (match tries[attempts - 1] case Returns(v) => Done(v) case Raises(e) => Raised(e))
      ensures attempts == 0 ==> final.NeverTried?
      ensures deadLetters == if final.Raised?
                             then AddDeadLetter(old(deadLetters), policy, DeadLetter(operation, final.exception))
                             else old(deadLetters)
    {
      final := NeverTried;
      attempts := 0;
      while attempts < policy.maxAttempts
        invariant attempts <= policy.maxAttempts && deadLetters == old(deadLetters)
        invariant attempts == 0 ==> final.NeverTried?
        invariant forall i | 0 <= i < attempts :: !Decisive(policy, tries, i)
      {
        attempts := attempts + 1;
        match tries[attempts - 1] {
          case Returns(v) =>
            return Done(v), attempts;
          case Raises(e) =>
            final := Raised(e);
            if e !in policy.retryable || attempts >= policy.maxAttempts {
              deadLetters := AddDeadLetter(deadLetters, policy, DeadLetter(operation, e));
              return;
            }
        }
      }
    }
  }

  /** A run of final failures. */
  function AddAll(letters: seq<DeadLetter>, policy: Policy, more: seq<DeadLetter>): seq<DeadLetter> {
    if more == [] then letters else AddDeadLetter(AddAll(letters, policy, Front(more)), policy, Last(more))
  }

  lemma {:induction false} DeadLettersAre(policy: Policy, more: seq<DeadLetter>)
    ensures AddAll([], policy, more) == KeepLast(more, policy.deadLetterLimit)
  {
    if more != [] {
      DeadLettersAre(policy, Front(more));
      assert more == Front(more) + [Last(more)];
    }
  }

  /** MAIN: the dead-letter list holds the newest failures, in order; its size limit is kept on every run
      exactly when it is not zero, because a zero limit slices off nothing. */
  lemma DeadLettersBoundedIff(policy: Policy)
    ensures forall more :: AddAll([], policy, more) == KeepLast(more, policy.deadLetterLimit)
    ensures (forall more :: |AddAll([], policy, more)| <= policy.deadLetterLimit) <==> policy.deadLetterLimit > 0
  {
    forall more
      ensures AddAll([], policy, more) == KeepLast(more, policy.deadLetterLimit)
    {
      DeadLettersAre(policy, more);
    }
    var one := [DeadLetter("", 0)];
    assert |KeepLast(one, 0)| == 1;
  }

  // ---------------------------------------------------------------- pauses

  function Power2(n: nat): nat {
    if n == 0 then 1 else 2 * Power2(n - 1)
  }

  /** The pause after a failed attempt; `jitter` is a draw from [0, 1) when jitter is on. */
  function Delay(policy: Policy, attempt: nat, jitter: Option<real>): real
    requires attempt >= 1
  {
    var raw := if policy.exponential then Times(policy.baseDelay, Power2(attempt - 1) as real) else policy.baseDelay;
    var capped := MinReal(raw, policy.maxDelay);
    if jitter.Some? then Times(capped, 0.5 + jitter.value * 0.5) else capped
  }

  lemma {:induction false} Power2Grows(a: nat, b: nat)
    requires a <= b
    ensures 1 <= Power2(a) <= Power2(b)
  {
    if b > 0 {
      if a == b {
        Power2Grows(a - 1, b - 1);
      } else {
        Power2Grows(a, b - 1);
      }
    }
  }

  /** MAIN: pauses never shrink from one attempt to the next, never exceed the cap, and jitter only
      shortens them, by at most half. */
  lemma DelaysGrow(policy: Policy, a: nat, b: nat, jitter: real)
    requires 1 <= a <= b && policy.baseDelay >= 0.0 && policy.maxDelay >= 0.0 && 0.0 <= jitter < 1.0
    ensures 0.0 <= Delay(policy, a, None) <= Delay(policy, b, None) <= policy.maxDelay
    ensures Delay(policy, a, None) / 2.0 <= Delay(policy, a, Some(jitter)) <= Delay(policy, a, None)
  {
    Power2Grows(a - 1, b - 1);
    TimesMonotone(0.0, Power2(a - 1) as real, policy.baseDelay);
    TimesMonotone(Power2(a - 1) as real, Power2(b - 1) as real, policy.baseDelay);
    TimesUnits(policy.baseDelay);
    hide Power2, Times;
    JitterShortens(Delay(policy, a, None), jitter);
  }

  lemma JitterShortens(delay: real, jitter: real)
    requires delay >= 0.0 && 0.0 <= jitter < 1.0
    ensures delay / 2.0 <= Times(delay, 0.5 + jitter * 0.5) <= delay
  {
    var factor := 0.5 + jitter * 0.5;
    TimesMonotone(0.5, factor, delay);
    TimesMonotone(factor, 1.0, delay);
    TimesUnits(delay);
  }

  /** The first pause is the base, each later one twice the one before, always up to the cap; without exponential
      growth all are the first. Jitter draws the pause evenly from its upper half. */
  lemma DelaysDouble(policy: Policy, attempt: nat, jitter: real)
    requires attempt >= 1 && policy.maxDelay >= 0.0
    ensures Delay(policy, 1, None) == MinReal(policy.baseDelay, policy.maxDelay)
    ensures Delay(policy, attempt + 1, None)
         == if policy.exponential then MinReal(2.0 * Delay(policy, attempt, None), policy.maxDelay)
            else Delay(policy, 1, None)
    ensures Delay(policy, attempt, Some(jitter)) == Delay(policy, attempt, None) * (1.0 + jitter) / 2.0
  {
    TimesUnits(policy.baseDelay);
    var power := Power2(attempt - 1);
    assert Power2(attempt) == 2 * power && Power2(0) == 1;
    Doubled(policy.baseDelay, power as real);
    HalfAndMore(Delay(policy, attempt, None), jitter);
    hide Times, Power2;
  }

  lemma Doubled(base: real, power: real)
    ensures Times(base, 2.0 * power) == 2.0 * Times(base, power)
  {
  }

  lemma HalfAndMore(delay: real, jitter: real)
    ensures Times(delay, 0.5 + jitter * 0.5) == delay * (1.0 + jitter) / 2.0
  {
  }
}
