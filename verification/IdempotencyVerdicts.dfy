/** The verdict of every check in a log, read off the log alone. */
module IdempotencyVerdicts {
  import opened Prelude
  import opened Idempotency
  import opened IdempotencyWindow
  import opened IdempotencyLog
  import opened IdempotencyEviction

  /** The last check before position `b` that recorded the key checked at `b`. */
  ghost predicate Latest(limits: Limits, calls: seq<Call>, a: nat, b: nat) {
    && a < b < |calls| && Records(limits, calls, a) && calls[a].key == calls[b].key
    && forall c | a < c < b && Records(limits, calls, c) :: calls[c].key != calls[b].key
  }

  function EpochAt(calls: seq<Call>, epoch: int, n: nat): int
    requires n <= |calls|
  {
    if n == 0 then epoch else calls[n - 1].recordedAt
  }

  /** A key recorded by a stretch of the log was recorded at some position of it. */
  lemma {:induction false} RecordedAtSome(limits: Limits, calls: seq<Call>, from: nat, b: nat, key: Key)
    returns (c: nat)
    requires from <= b <= |calls| && key in Recorded(TableAfter(limits, calls[..from]), limits, calls[from..b])
    ensures from <= c < b && Records(limits, calls, c) && calls[c].key == key
    decreases b - from
  {
    hide CheckAndSet;
    var table := TableAfter(limits, calls[..from]);
    var answer := CheckAndSet(table, limits, calls[from]);
    assert calls[from..b][0] == calls[from] && calls[from..b][1..] == calls[from + 1..b];
    if !answer.duplicate && calls[from].key == key {
      c := from;
    } else {
      TableSteps(limits, calls, from);
      c := RecordedAtSome(limits, calls, from + 1, b, key);
    }
  }

  lemma TableSteps(limits: Limits, calls: seq<Call>, n: nat)
    requires n < |calls|
    ensures TableAfter(limits, calls[..n + 1]) == CheckAndSet(TableAfter(limits, calls[..n]), limits, calls[n]).records
  {
    hide CheckAndSet;
    assert calls[..n + 1] == calls[..n] + [calls[n]];
    RunCallsAppend<()>([], limits, calls[..n], [calls[n]]);
  }

  /** After its latest recording, a key is recorded again exactly when that recording has expired or could have been
      evicted. */
  lemma LatestDecides(limits: Limits, calls: seq<Call>, epoch: int, a: nat, b: nat)
    requires Orderly(calls, epoch) && Latest(limits, calls, a, b)
    ensures Records(limits, calls, b) <==> FarApart(limits, calls, a, b)
  {
    hide CheckAndSet, Valid, TableAfter, RunCalls, Recorded;
    var key := calls[b].key;
    LogTimes(calls, epoch, a, b);
    TableSplits(limits, calls, a, b);
    OrderlySplits(calls, epoch, a);
    TableFits(limits, calls[..a], epoch);
    var between := Recorded(TableAfter(limits, calls[..a + 1]), limits, calls[a + 1..b]);
    if key in between {
      var c := RecordedAtSome(limits, calls, a + 1, b, key);
      assert false;
    }
    assert between - {key} == between;
    WindowIsExact(TableAfter(limits, calls[..a]), limits, EpochAt(calls, epoch, a), calls[a], calls[a + 1..b],
                  calls[b]);
  }

  /** A key that no check recorded is recorded now. */
  lemma FirstIsRecorded(limits: Limits, calls: seq<Call>, epoch: int, b: nat)
    requires Orderly(calls, epoch) && b < |calls|
    requires forall c | 0 <= c < b && Records(limits, calls, c) :: calls[c].key != calls[b].key
    ensures Records(limits, calls, b)
  {
    hide CheckAndSet, Valid, RunCalls, Recorded, KeySet;
    var key := calls[b].key;
    OrderlySplits(calls, epoch, b);
    OrderlySplits(calls, epoch, b + 1);
    TableFits(limits, calls[..b], epoch);
    NothingKept<()>([], key);
    assert calls[0..b] == calls[..b] && calls[..0] == [];
    StartsEmpty(limits);
    if key in Recorded<()>([], limits, calls[..b]) {
      var c := RecordedAtSome(limits, calls, 0, b, key);
      assert false;
    }
    StartIsValid(limits, epoch);
    RunStaysAbsent<()>([], limits, calls[..b], epoch, key);
    CheckIsInOrder(calls, epoch, b);
    StepStaysAbsent(TableAfter(limits, calls[..b]), limits, calls[b], EpochAt(calls, epoch, b), key);
  }

  lemma StartsEmpty(limits: Limits)
    ensures TableAfter(limits, []) == []
  {
  }

  lemma StartIsValid(limits: Limits, epoch: int)
    ensures Valid<()>([], limits, epoch)
  {
  }

  lemma CheckIsInOrder(calls: seq<Call>, epoch: int, b: nat)
    requires Orderly(calls, epoch) && b < |calls|
    ensures InOrder(calls[b], EpochAt(calls, epoch, b))
  {
    OrderlySplits(calls, epoch, b);
    assert calls[b..][0] == calls[b];
  }

  lemma {:induction false} LatestExists(limits: Limits, calls: seq<Call>, n: nat, b: nat) returns (a: nat)
    requires n <= b < |calls|
    requires exists c | 0 <= c < n :: Records(limits, calls, c) && calls[c].key == calls[b].key
    requires forall c | n <= c < b && Records(limits, calls, c) :: calls[c].key != calls[b].key
    ensures Latest(limits, calls, a, b)
    decreases n
  {
    hide Records;
    if Records(limits, calls, n - 1) && calls[n - 1].key == calls[b].key {
      a := n - 1;
    } else {
      a := LatestExists(limits, calls, n - 1, b);
    }
  }

  /** MAIN: in every log of checks of an initially empty table, a check answers False if and only if the latest check
      that recorded its key, if there is one, is a lifetime old or was followed by enough other keys to evict it. */
  lemma RecordsIff(limits: Limits, calls: seq<Call>, epoch: int, b: nat)
    requires Orderly(calls, epoch) && b < |calls|
    ensures Records(limits, calls, b)
       <==> forall a: nat | Latest(limits, calls, a, b) :: FarApart(limits, calls, a, b)
  {
    hide Records, FarApart, Latest;
    if exists c | 0 <= c < b :: Records(limits, calls, c) && calls[c].key == calls[b].key {
      var a := LatestExists(limits, calls, b, b);
      LatestDecides(limits, calls, epoch, a, b);
      forall other: nat | Latest(limits, calls, other, b)
        ensures other == a
      {
        LatestIsOne(limits, calls, a, other, b);
      }
    } else {
      FirstIsRecorded(limits, calls, epoch, b);
      forall a: nat
        ensures !Latest(limits, calls, a, b)
      {
        LatestRecords(limits, calls, a, b);
      }
    }
  }

  lemma LatestIsOne(limits: Limits, calls: seq<Call>, a: nat, c: nat, b: nat)
    requires Latest(limits, calls, a, b) && Latest(limits, calls, c, b)
    ensures a == c
  {
    hide Records;
  }

  lemma LatestRecords(limits: Limits, calls: seq<Call>, a: nat, b: nat)
    ensures Latest(limits, calls, a, b) ==>
              a < b < |calls| && Records(limits, calls, a) && calls[a].key == calls[b].key
  {
    hide Records;
  }
}
