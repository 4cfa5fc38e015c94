/** The sliding-window limiter of execution/rate_limiter.py. Its lock makes each acquisition atomic; the
    clock is read on entry and again after any sleep. */
module RateLimiting {
  import opened Prelude

  datatype Limit = Limit(maxCalls: nat, period: int)

  /** Drop the timestamps that have left the window. */
  function Purge(calls: seq<int>, cutoff: int): seq<int> {
    if calls == [] || calls[0] >= cutoff then calls else Purge(calls[1..], cutoff)
  }

  /** The sleep asked for, given the purged window. */
  function SleepTime(kept: seq<int>, limit: Limit, now: int): int
    requires limit.maxCalls >= 1
  {
    if |kept| >= limit.maxCalls then Max(0, limit.period - (now - kept[0])) else 0
  }

  class RateLimiter {
    const limit: Limit
    var calls: seq<int>

    constructor (limit: Limit)
      ensures this.limit == limit && calls == []
    {
      this.limit := limit;
      calls := [];
    }

    /** The part of acquire before the sleep. */
    method Enter(now: int) returns (sleep: int)
      requires limit.maxCalls >= 1
      modifies this
      ensures calls == Purge(old(calls), now - limit.period)
      ensures sleep == SleepTime(calls, limit, now)
    {
      hide SleepTime;
      var cutoff := now - limit.period;
      while |calls| > 0 && calls[0] < cutoff
        invariant Purge(calls, cutoff) == Purge(old(calls), cutoff)
        decreases |calls|
      {
        calls := calls[1..];
      }
      sleep := Pause(now);
    }

    method Pause(now: int) returns (sleep: int)
      requires limit.maxCalls >= 1
      ensures sleep == SleepTime(calls, limit, now)
    {
      sleep := 0;
      if |calls| >= limit.maxCalls {
        var sleepTime := limit.period - (now - calls[0]);
        if sleepTime > 0 {
          sleep := sleepTime;
        }
      }
    }

    /** The part after it. */
    method Grant(woke: int)
      modifies this
      ensures calls == old(calls) + [woke]
    {
      calls := calls + [woke];
    }
  }

  // ---------------------------------------------------------------- runs

  /** One acquisition: the reading on entry and the reading that is recorded. */
  datatype Acquire = Acquire(now: int, woke: int)

  function CallsAfter(limit: Limit, run: seq<Acquire>): seq<int> {
    if run == [] then []
    else Purge(CallsAfter(limit, Front(run)), Last(run).now - limit.period) + [Last(run).woke]
  }

  function Grants(run: seq<Acquire>): (grants: seq<int>)
    ensures |grants| == |run| && (run != [] ==> Last(grants) == Last(run).woke)
  {
    if run == [] then [] else Grants(Front(run)) + [Last(run).woke]
  }

  /** The window an acquisition entering at `now` is judged on. */
  function KeptAt(limit: Limit, run: seq<Acquire>, now: int): seq<int> {
    Purge(CallsAfter(limit, run), now - limit.period)
  }

  /** The clock does not run backwards over this acquisition, and its sleep lasts at least as long as asked. */
  predicate Legal(limit: Limit, run: seq<Acquire>, a: Acquire)
    requires limit.maxCalls >= 1
  {
    && (run != [] ==> Last(run).woke <= a.now)
    && a.now <= a.woke && a.now + SleepTime(KeptAt(limit, run, a.now), limit, a.now) <= a.woke
  }

  ghost predicate Orderly(limit: Limit, run: seq<Acquire>)
    requires limit.maxCalls >= 1
  {
    run == [] || (Orderly(limit, Front(run)) && Legal(limit, Front(run), Last(run)))
  }

  ghost predicate Spaced(limit: Limit, grants: seq<int>) {
    forall i | 0 <= i && i + limit.maxCalls < |grants| :: grants[i + limit.maxCalls] - grants[i] >= limit.period
  }

  /** The window is the grants from `first` on, and what has left it is older than a period. */
  ghost predicate Windowed(limit: Limit, grants: seq<int>, first: nat) {
    && first <= |grants|
    && (forall i, j | 0 <= i < j < |grants| :: grants[i] <= grants[j])
    && (forall i | 0 <= i < first :: grants[i] + limit.period < Last(grants))
  }

  lemma {:induction false} PurgedFrom(grants: seq<int>, first: nat, cutoff: int) returns (next: nat)
    requires first <= |grants|
    ensures first <= next <= |grants| && Purge(grants[first..], cutoff) == grants[next..]
    ensures forall i | first <= i < next :: grants[i] < cutoff
    ensures next < |grants| ==> grants[next] >= cutoff
    decreases |grants| - first
  {
    if first == |grants| || grants[first] >= cutoff {
      next := first;
    } else {
      assert grants[first..][1..] == grants[first + 1..];
      next := PurgedFrom(grants, first + 1, cutoff);
    }
  }

  lemma GrantKeepsWindow(limit: Limit, grants: seq<int>, first: nat, next: nat, a: Acquire)
    requires Windowed(limit, grants, first) && first <= next <= |grants| && a.now <= a.woke
    requires grants != [] ==> Last(grants) <= a.now
    requires forall i | first <= i < next :: grants[i] < a.now - limit.period
    ensures Windowed(limit, grants + [a.woke], next)
  {
    if grants != [] {
      assert forall i | 0 <= i < |grants| :: grants[i] <= Last(grants);
    }
  }

  /** The table of timestamps is always a tail of the grants. */
  lemma {:induction false} WindowIsTail(limit: Limit, run: seq<Acquire>) returns (first: nat)
    requires limit.maxCalls >= 1 && Orderly(limit, run)
    ensures Windowed(limit, Grants(run), first) && CallsAfter(limit, run) == Grants(run)[first..]
    decreases |run|
  {
    hide Windowed, SleepTime, Purge;
    if run == [] {
      first := NothingGranted(limit);
    } else {
      first := WindowIsTail(limit, Front(run));
      var grants, a := Grants(Front(run)), Last(run);
      TailInRange(limit, grants, first);
      var next := PurgedFrom(grants, first, a.now - limit.period);
      GrantKeepsWindow(limit, grants, first, next, a);
      first := next;
    }
  }

  lemma NothingGranted(limit: Limit) returns (first: nat)
    ensures first == 0 && Windowed(limit, [], first)
  {
    first := 0;
  }

  lemma TailInRange(limit: Limit, grants: seq<int>, first: nat)
    requires Windowed(limit, grants, first)
    ensures first <= |grants|
  {
  }

  /** What an acquisition finds: the kept window is a tail of the sorted grants, and whatever precedes it is more
      than a period old. */
  ghost predicate Found(limit: Limit, grants: seq<int>, next: nat, now: int) {
    && next <= |grants| && (next < |grants| ==> now - limit.period <= grants[next])
    && (forall i, j | 0 <= i < j < |grants| :: grants[i] <= grants[j])
    && (grants != [] ==> Last(grants) <= now)
    && (forall i | 0 <= i < next :: grants[i] < now - limit.period)
  }

  lemma EntryFinds(limit: Limit, run: seq<Acquire>, now: int) returns (next: nat)
    requires limit.maxCalls >= 1 && Orderly(limit, run) && (run != [] ==> Last(run).woke <= now)
    ensures Found(limit, Grants(run), next, now) && KeptAt(limit, run, now) == Grants(run)[next..]
  {
    hide Purge;
    var first := WindowIsTail(limit, run);
    next := PurgedFrom(Grants(run), first, now - limit.period);
  }

  /** The grant comes late enough for the window it was judged on. */
  predicate InTime(limit: Limit, kept: seq<int>, woke: int)
    requires limit.maxCalls >= 1
  {
    |kept| <= limit.maxCalls || woke - kept[|kept| - limit.maxCalls] >= limit.period
  }

  lemma SpacedGrows(limit: Limit, grants: seq<int>, woke: int)
    requires limit.maxCalls >= 1
    ensures Spaced(limit, grants + [woke]) <==>
            Spaced(limit, grants)
            && (|grants| < limit.maxCalls || woke - grants[|grants| - limit.maxCalls] >= limit.period)
  {
    var all, m := grants + [woke], limit.maxCalls;
    if Spaced(limit, all) {
      forall i | 0 <= i && i + m < |grants|
        ensures grants[i + m] - grants[i] >= limit.period
      {
        assert all[i + m] - all[i] >= limit.period;
      }
      assert |grants| >= m ==> all[|grants| - m + m] - all[|grants| - m] >= limit.period;
    }
  }

  lemma GrantSpacedIff(limit: Limit, grants: seq<int>, next: nat, a: Acquire)
    requires limit.maxCalls >= 1 && Found(limit, grants, next, a.now) && Spaced(limit, grants)
    requires a.now <= a.woke && a.now + SleepTime(grants[next..], limit, a.now) <= a.woke
    ensures Spaced(limit, grants + [a.woke]) <==> InTime(limit, grants[next..], a.woke)
  {
    hide Spaced;
    SpacedGrows(limit, grants, a.woke);
  }

  /** Every acquisition of the run came in time. */
  ghost predicate AllInTime(limit: Limit, run: seq<Acquire>)
    requires limit.maxCalls >= 1
  {
    run == [] ||
    (AllInTime(limit, Front(run)) && InTime(limit, KeptAt(limit, Front(run), Last(run).now), Last(run).woke))
  }

  /** MAIN: on every run whose readings never decrease and whose sleeps last as long as asked, any `maxCalls` + 1
      consecutive grants span at least the period if and only if no acquisition that met an overfull window was
      granted too soon after it. */
  lemma {:induction false} GrantsSpacedIff(limit: Limit, run: seq<Acquire>)
    requires limit.maxCalls >= 1 && Orderly(limit, run)
    ensures Spaced(limit, Grants(run)) <==> AllInTime(limit, run)
    decreases |run|
  {
    hide InTime, Spaced, Found, KeptAt, SleepTime;
    if run == [] {
      NothingSpaced(limit);
    } else {
      GrantsSpacedIff(limit, Front(run));
      OneMoreGrant(limit, Front(run), Last(run));
    }
  }

  lemma NothingSpaced(limit: Limit)
    ensures Spaced(limit, [])
  {
  }

  lemma OneMoreGrant(limit: Limit, run: seq<Acquire>, a: Acquire)
    requires limit.maxCalls >= 1 && Orderly(limit, run) && Legal(limit, run, a)
    ensures Spaced(limit, Grants(run) + [a.woke])
       <==> Spaced(limit, Grants(run)) && InTime(limit, KeptAt(limit, run, a.now), a.woke)
  {
    hide InTime, Spaced, Found, KeptAt, SleepTime, Orderly;
    var next := EntryFinds(limit, run, a.now);
    SpacedGrows(limit, Grants(run), a.woke);
    FoundInRange(limit, Grants(run), next, a.now);
    if Spaced(limit, Grants(run)) {
      GrantSpacedIff(limit, Grants(run), next, a);
    }
  }

  lemma FoundInRange(limit: Limit, grants: seq<int>, next: nat, now: int)
    requires Found(limit, grants, next, now)
    ensures next <= |grants|
  {
  }

  // ---------------------------------------------------------------- what an entry can know

  /** The window is not overfull, or all that must leave it stands at its oldest reading. */
  predicate Ready(limit: Limit, kept: seq<int>)
    requires limit.maxCalls >= 1
  {
    |kept| <= limit.maxCalls || kept[|kept| - limit.maxCalls] == kept[0]
  }

  /** MAIN: at any point of any such run that is spaced so far, an acquisition stays spaced however its sleep ends
      if and only if the window it enters is ready; that is known before it sleeps. */
  lemma EntrySafeIff(limit: Limit, run: seq<Acquire>, now: int)
    requires limit.maxCalls >= 1 && Orderly(limit, run) && Spaced(limit, Grants(run))
    requires run != [] ==> Last(run).woke <= now
    ensures (forall woke | Legal(limit, run, Acquire(now, woke)) :: Spaced(limit, Grants(run) + [woke]))
       <==> Ready(limit, KeptAt(limit, run, now))
  {
    hide Spaced, KeptAt, Orderly;
    var kept := KeptAt(limit, run, now);
    var next := EntryFinds(limit, run, now);
    ReadyIff(limit, Grants(run), next, now);
    forall woke | Legal(limit, run, Acquire(now, woke))
      ensures Spaced(limit, Grants(run) + [woke]) <==> InTime(limit, kept, woke)
    {
      OneMoreGrant(limit, run, Acquire(now, woke));
    }
    assert Legal(limit, run, Acquire(now, now + SleepTime(kept, limit, now)));
  }

  /** The earliest wake is in time exactly when the window is ready, and later ones are if it is. */
  lemma ReadyIff(limit: Limit, grants: seq<int>, next: nat, now: int)
    requires limit.maxCalls >= 1 && Found(limit, grants, next, now)
    ensures var kept := grants[next..];
            && (InTime(limit, kept, now + SleepTime(kept, limit, now)) <==> Ready(limit, kept))
            && forall woke | woke >= now + SleepTime(kept, limit, now) && Ready(limit, kept) ::
                 InTime(limit, kept, woke)
  {
    var kept := grants[next..];
    if |kept| > limit.maxCalls {
      assert kept[0] == grants[next] && kept[|kept| - limit.maxCalls] == grants[|grants| - limit.maxCalls];
    }
  }

  /** Every acquisition of the run enters a ready window. */
  ghost predicate AllReady(limit: Limit, run: seq<Acquire>)
    requires limit.maxCalls >= 1
  {
    run == [] || (AllReady(limit, Front(run)) && Ready(limit, KeptAt(limit, Front(run), Last(run).now)))
  }

  /** Every sleep lasts exactly as long as asked. */
  ghost predicate Punctual(limit: Limit, run: seq<Acquire>)
    requires limit.maxCalls >= 1
  {
    run == [] ||
    (var a := Last(run);
     Punctual(limit, Front(run)) && a.woke == a.now + SleepTime(KeptAt(limit, Front(run), a.now), limit, a.now))
  }

  /** MAIN: a run whose every acquisition enters a ready window is spaced, however its sleeps end; and for a run whose
      sleeps last exactly as long as asked there is no other way to be spaced. */
  lemma ReadyRunsAreSpaced(limit: Limit, run: seq<Acquire>)
    requires limit.maxCalls >= 1 && Orderly(limit, run)
    ensures AllReady(limit, run) ==> Spaced(limit, Grants(run))
    ensures Punctual(limit, run) ==> (Spaced(limit, Grants(run)) <==> AllReady(limit, run))
  {
    hide Spaced, AllReady, Punctual, AllInTime;
    GrantsSpacedIff(limit, run);
    ReadyMeansInTime(limit, run);
  }

  lemma {:induction false} ReadyMeansInTime(limit: Limit, run: seq<Acquire>)
    requires limit.maxCalls >= 1 && Orderly(limit, run)
    ensures AllReady(limit, run) ==> AllInTime(limit, run)
    ensures Punctual(limit, run) ==> (AllInTime(limit, run) <==> AllReady(limit, run))
    decreases |run|
  {
    hide Found, Ready, InTime, SleepTime, KeptAt;
    if run != [] {
      ReadyMeansInTime(limit, Front(run));
      var next := EntryFinds(limit, Front(run), Last(run).now);
      FoundInRange(limit, Grants(Front(run)), next, Last(run).now);
      ReadyIff(limit, Grants(Front(run)), next, Last(run).now);
    }
  }

  // ---------------------------------------------------------------- strictly later entries

  /** Every acquisition is entered strictly later than the one before was granted. */
  ghost predicate StrictEntries(run: seq<Acquire>) {
    forall i | 0 < i < |run| :: run[i - 1].woke < run[i].now
  }

  /** After purging, at most `maxCalls` grants are left: an overfull window loses its oldest. */
  lemma StrictEntryFits(limit: Limit, grants: seq<int>, next: nat, now: int)
    requires limit.maxCalls >= 1 && Found(limit, grants, next, now)
    requires grants != [] ==> Last(grants) < now
    ensures Spaced(limit, grants) ==> |grants[next..]| <= limit.maxCalls
  {
    if |grants| - next > limit.maxCalls {
      assert grants[next + limit.maxCalls] - grants[next] < limit.period;
    }
  }

  /** MAIN: on every such run whose entries come strictly after the last grant, any `maxCalls` + 1 consecutive
      grants span at least the period. */
  lemma {:induction false} GrantsAreSpaced(limit: Limit, run: seq<Acquire>)
    requires limit.maxCalls >= 1 && Orderly(limit, run) && StrictEntries(run)
    ensures Spaced(limit, Grants(run))
    decreases |run|
  {
    hide Spaced, Found, KeptAt, SleepTime;
    if run == [] {
      NothingSpaced(limit);
    } else {
      GrantsAreSpaced(limit, Front(run));
      var next := EntryFinds(limit, Front(run), Last(run).now);
      FoundInRange(limit, Grants(Front(run)), next, Last(run).now);
      StrictEntryFits(limit, Grants(Front(run)), next, Last(run).now);
      OneMoreGrant(limit, Front(run), Last(run));
    }
  }

  /** `maxCalls` grants at time 0, then as many at the end of the period: the first of these sleeps, the others
      find the first ones exactly a period old and are not made to wait. One more falls beside them. */
  function Burst(limit: Limit, n: nat): (run: seq<Acquire>)
    ensures |run| == n
  {
    seq(n, i requires 0 <= i < n =>
      Acquire(if i <= limit.maxCalls then 0 else limit.period, if i < limit.maxCalls then 0 else limit.period))
  }

  lemma {:induction false} BurstIsOrderly(limit: Limit, n: nat)
    requires limit.maxCalls >= 1 && limit.period > 0
    ensures Orderly(limit, Burst(limit, n)) && CallsAfter(limit, Burst(limit, n)) == Grants(Burst(limit, n))
    ensures forall i | 0 <= i < n :: Grants(Burst(limit, n))[i] == if i < limit.maxCalls then 0 else limit.period
    decreases n
  {
    if n > 0 {
      BurstIsOrderly(limit, n - 1);
      assert Front(Burst(limit, n)) == Burst(limit, n - 1);
    }
  }

  /** MAIN: a clock that may read the same value twice keeps the spacing on every run only if there is no period to
      keep: every other limiter has a run, two bursts of `maxCalls` and one grant more, that breaks it. */
  lemma EqualReadingsBreakSpacing(limit: Limit)
    requires limit.maxCalls >= 1
    ensures (forall run: seq<Acquire> | Orderly(limit, run) :: Spaced(limit, Grants(run))) <==> limit.period <= 0
  {
    hide Orderly;
    if limit.period > 0 {
      var m := limit.maxCalls;
      var run := Burst(limit, 2 * m + 1);
      BurstIsOrderly(limit, 2 * m + 1);
      assert Grants(run)[m + m] - Grants(run)[m] == 0;
    } else {
      forall run: seq<Acquire> | Orderly(limit, run)
        ensures Spaced(limit, Grants(run))
      {
        GrantsRise(limit, run);
      }
    }
  }

  lemma GrantsRise(limit: Limit, run: seq<Acquire>)
    requires limit.maxCalls >= 1 && Orderly(limit, run)
    ensures forall i, j | 0 <= i < j < |run| :: Grants(run)[i] <= Grants(run)[j]
  {
    var first := WindowIsTail(limit, run);
  }

  /** The sleep is the shortest after which the oldest timestamp kept is a period old; a window with room needs none. */
  lemma SleepIsLeast(kept: seq<int>, limit: Limit, now: int, sleep: int)
    requires limit.maxCalls >= 1 && sleep >= 0
    ensures SleepTime(kept, limit, now) >= 0
    ensures SleepTime(kept, limit, now) <= sleep
       <==> |kept| < limit.maxCalls || now + sleep - kept[0] >= limit.period
  {
  }
}
