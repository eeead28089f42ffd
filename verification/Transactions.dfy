/** Open transactions with a time to live: ending one in time or too late, and purging old ones. */
module Transactions {
  import opened Wrappers

  const NS_PER_SEC: int := 1_000_000_000
  const NS_PER_MS: int := 1_000_000

  predicate Normalised(t: Timespec) {
    0 <= t.nsec < NS_PER_SEC
  }

  function Nanoseconds(t: Timespec): int {
    t.sec * NS_PER_SEC + t.nsec
  }

  datatype Transaction = Transaction(start: Timespec, total: Timespec)

  datatype Result = NotExist | TimedOut | Valid

  // ---------------------------------------------------------------------------------------------
  // Differences and the split time to live
  // ---------------------------------------------------------------------------------------------

  /** The difference, with the seconds taken without sign. */
  function Diff(a: Timespec, b: Timespec): Timespec {
    var sec := if a.sec > b.sec then a.sec - b.sec else b.sec - a.sec;
    var nsec := a.nsec - b.nsec;
    if nsec < 0 then Timespec(sec - 1, nsec + NS_PER_SEC) else Timespec(sec, nsec)
  }

  /** The difference is normalised, and it is the time from `b` to `a` exactly if `a`'s second is not before `b`'s. */
  method TimespecDiff(a: Timespec, b: Timespec) returns (result: Timespec)
    ensures Normalised(a) && Normalised(b) ==>
      && Normalised(result)
      && (Nanoseconds(result) == Nanoseconds(a) - Nanoseconds(b) <==> b.sec <= a.sec)
    ensures result == Diff(a, b)
  {
    result := Timespec(if a.sec > b.sec then a.sec - b.sec else b.sec - a.sec, a.nsec - b.nsec);
    if result.nsec < 0 {
      result := Timespec(result.sec - 1, result.nsec + NS_PER_SEC);
    }
  }

  /** The difference is the time from `b` to `a` exactly if `a`'s second is not before `b`'s. Otherwise it is too long,
      by twice the seconds it is early. */
  lemma DiffIsElapsedIff(a: Timespec, b: Timespec)
    requires Normalised(a) && Normalised(b)
    ensures Normalised(Diff(a, b))
    ensures Nanoseconds(Diff(a, b)) == Nanoseconds(a) - Nanoseconds(b) <==> b.sec <= a.sec
    ensures a.sec <= b.sec ==>
            Nanoseconds(Diff(a, b)) == Nanoseconds(a) - Nanoseconds(b) + 2 * (b.sec - a.sec) * NS_PER_SEC
  {
  }

  /** A stamp one second early is taken for one second late. */
  lemma DiffOutOfOrder()
    ensures Diff(Timespec(0, 0), Timespec(1, 0)) == Timespec(1, 0)
  {
  }

  /** Seconds and milliseconds of a time to live; exactly one second stays as milliseconds. */
  function TtlSecs(ttlMs: nat): nat {
    if ttlMs > 1000 then ttlMs / 1000 else 0
  }

  function TtlMs(ttlMs: nat): nat {
    if ttlMs > 1000 then ttlMs - TtlSecs(ttlMs) * 1000 else ttlMs
  }

  lemma SplitSum(ttlMs: nat)
    ensures TtlSecs(ttlMs) * 1000 + TtlMs(ttlMs) == ttlMs && TtlMs(ttlMs) <= 1000
  {
  }

  /** Whether a transaction that took `total` is over its time, by seconds and then by milliseconds. */
  predicate Late(total: Timespec, secs: nat, ms: nat) {
    total.sec > secs || (total.sec == secs && (total.nsec as real) / 1000000.0 >= ms as real)
  }

  lemma MillisecondsExact(nsec: int, ms: nat)
    ensures (nsec as real) / 1000000.0 >= ms as real <==> nsec >= ms * NS_PER_MS
  {
    if nsec >= ms * NS_PER_MS {
      assert nsec as real >= ms as real * 1000000.0;
    } else {
      assert (nsec as real) < ms as real * 1000000.0;
    }
  }

  /** The test by parts is the comparison with the whole time to live, however it is split. */
  lemma LateIff(total: Timespec, ttlMs: nat)
    requires Normalised(total)
    ensures Late(total, TtlSecs(ttlMs), TtlMs(ttlMs)) <==> Nanoseconds(total) >= ttlMs * NS_PER_MS
  {
    SplitSum(ttlMs);
    MillisecondsExact(total.nsec, TtlMs(ttlMs));
  }

  // ---------------------------------------------------------------------------------------------
  // The manager
  // ---------------------------------------------------------------------------------------------

  /** A purge takes a transaction out by whole seconds. */
  predicate Purged(t: Transaction, secs: nat, now: Timespec) {
    now.sec >= secs + t.start.sec
  }

  function Unpurged<Id>(ts: map<Id, Transaction>, secs: nat, now: Timespec): map<Id, Transaction> {
    map id | id in ts && !Purged(ts[id], secs, now) :: ts[id]
  }

  /** Whether ending a transaction now would still be in time. */
  predicate InTime(t: Transaction, ttlMs: nat, now: Timespec) {
    Nanoseconds(now) - Nanoseconds(t.start) < ttlMs * NS_PER_MS
  }

  /** What a purge leaves, if it started by then, would still end in time. */
  lemma UnpurgedInTime<Id>(ts: map<Id, Transaction>, ttlMs: nat, now: Timespec, id: Id)
    requires id in Unpurged(ts, TtlSecs(ttlMs), now) && Normalised(now) && Normalised(ts[id].start)
    requires Nanoseconds(ts[id].start) <= Nanoseconds(now)
    ensures InTime(ts[id], ttlMs, now)
  {
    SplitSum(ttlMs);
  }

  /** A purged transaction was still in time exactly if what its stamps and the time to live have below whole seconds
      makes up for the seconds that it is over. */
  lemma PurgedInTimeIff(t: Transaction, ttlMs: nat, now: Timespec)
    requires Purged(t, TtlSecs(ttlMs), now) && Normalised(now) && Normalised(t.start)
    ensures InTime(t, ttlMs, now) <==>
      (now.sec - t.start.sec - TtlSecs(ttlMs)) * NS_PER_SEC + now.nsec < t.start.nsec + TtlMs(ttlMs) * NS_PER_MS
  {
    SplitSum(ttlMs);
  }

  /** So a purge takes out only what is late exactly if the time to live is in whole seconds and the purge comes in the
      last nanosecond of a second. */
  lemma PurgesOnlyLateIff(ttlMs: nat, now: Timespec)
    requires Normalised(now)
    ensures (forall t: Transaction | Normalised(t.start) && Purged(t, TtlSecs(ttlMs), now) :: !InTime(t, ttlMs, now))
       <==> TtlMs(ttlMs) == 0 && now.nsec == NS_PER_SEC - 1
  {
    SplitSum(ttlMs);
    var last := Transaction(Timespec(now.sec - TtlSecs(ttlMs), NS_PER_SEC - 1), Timespec(0, 0));
    assert Normalised(last.start) && Purged(last, TtlSecs(ttlMs), now);
    assert InTime(last, ttlMs, now) <==> !(TtlMs(ttlMs) == 0 && now.nsec == NS_PER_SEC - 1);
    if TtlMs(ttlMs) == 0 && now.nsec == NS_PER_SEC - 1 {
      forall t: Transaction | Normalised(t.start) && Purged(t, TtlSecs(ttlMs), now) ensures !InTime(t, ttlMs, now) {
        PurgedInTimeIff(t, ttlMs, now);
      }
    }
  }

  /** A transaction of 4.1 seconds, purged with a time to live of 5. */
  lemma PurgedEarly()
    ensures var t := Transaction(Timespec(0, 900_000_000), Timespec(0, 0));
            Purged(t, TtlSecs(5000), Timespec(5, 0)) && InTime(t, 5000, Timespec(5, 0))
  {
  }

  /** The test of the difference is that of the elapsed time, if the end's second is not before the start's. */
  lemma EndIff(end: Timespec, start: Timespec, ttl: nat)
    ensures Normalised(end) && Normalised(start) ==>
              (Late(Diff(end, start), TtlSecs(ttl), TtlMs(ttl)) <==> Nanoseconds(Diff(end, start)) >= ttl * NS_PER_MS)
    ensures Normalised(end) && Normalised(start) && start.sec <= end.sec ==>
              && (Late(Diff(end, start), TtlSecs(ttl), TtlMs(ttl)) <==>
                  Nanoseconds(end) - Nanoseconds(start) >= ttl * NS_PER_MS)
              && Normalised(Diff(end, start)) && Nanoseconds(Diff(end, start)) == Nanoseconds(end) - Nanoseconds(start)
  {
    if Normalised(end) && Normalised(start) {
      DiffIsElapsedIff(end, start);
      LateIff(Diff(end, start), ttl);
    }
  }

  lemma OneLess<Id>(before: map<Id, Transaction>, after: map<Id, Transaction>, id: Id)
    requires id in before && after.Keys == before.Keys - {id}
    ensures |after| + 1 == |before|
  {
    assert |before| == |before.Keys| && |after| == |after.Keys|;
  }

  class TransactionManager<Id(==)> {
    const ttl: nat
    const ttlSecs: nat
    const ttlMs: nat
    var transactions: map<Id, Transaction>

    ghost predicate Split()
    {
      ttlSecs == TtlSecs(ttl) && ttlMs == TtlMs(ttl)
    }

    constructor (ttl: nat)
      ensures Split() && this.ttl == ttl && transactions == map[]
    {
      this.ttl := ttl;
      if ttl > 1000 {
        ttlSecs := ttl / 1000;
        ttlMs := ttl - ttl / 1000 * 1000;
      } else {
        ttlSecs := 0;
        ttlMs := ttl;
      }
      transactions := map[];
    }

    method StartTransaction(id: Id, t: Transaction)
      modifies this
      ensures transactions == old(transactions)[id := t]
    {
      transactions := transactions[id := t];
    }

    /** Ends a transaction if there is one: too late exactly if the time it took is at least the time to live. */
    method MaybeEndTransaction(id: Id, end: Timespec) returns (r: Result, t: Transaction)
      requires Split()
      modifies this
      ensures transactions == map l | l in old(transactions) && l != id :: old(transactions)[l]
      ensures r == NotExist <==> id !in old(transactions)
      ensures r != NotExist ==> t == Transaction(old(transactions)[id].start, Diff(end, old(transactions)[id].start))
      ensures r != NotExist && Normalised(end) && Normalised(t.start) ==>
                (r == TimedOut <==> Nanoseconds(t.total) >= ttl * NS_PER_MS)
      ensures var s := t.start;
              r != NotExist && Normalised(end) && Normalised(s) && s.sec <= end.sec ==>
                && (r == TimedOut <==> Nanoseconds(end) - Nanoseconds(s) >= ttl * NS_PER_MS)
                && Normalised(t.total) && Nanoseconds(t.total) == Nanoseconds(end) - Nanoseconds(s)
    {
      if id !in transactions {
        return NotExist, Transaction(Timespec(0, 0), Timespec(0, 0));
      }
      t := transactions[id];
      var total := TimespecDiff(end, t.start);
      t := t.(total := total);
      transactions := map l | l in transactions && l != id :: transactions[l];
      EndIff(end, t.start, ttl);
      if total.sec > ttlSecs {
        r := TimedOut;
      } else if total.sec == ttlSecs && (total.nsec as real) / 1000000.0 >= ttlMs as real {
        r := TimedOut;
      } else {
        r := Valid;
      }
    }

    /** Takes out the transactions that started at least the seconds of the time to live ago, and counts them. */
    method PurgeOldTransactions(now: Timespec) returns (count: nat)
      modifies this
      ensures transactions == Unpurged(old(transactions), ttlSecs, now)
      ensures count + |transactions| == |old(transactions)|
    {
      var was := transactions;
      var timedOut: seq<Id> := [];
      var left := was.Keys;
      while left != {}
        invariant left <= was.Keys && transactions == was
        invariant forall id :: id in timedOut <==> id in was && id !in left && Purged(was[id], ttlSecs, now)
        invariant forall i, k | 0 <= i < k < |timedOut| :: timedOut[i] != timedOut[k]
        decreases |left|
      {
        var id :| id in left;
        left := left - {id};
        if now.sec >= ttlSecs + was[id].start.sec {
          timedOut := timedOut + [id];
        }
      }
      Erase(timedOut);
      count := |timedOut|;
    }

    method Erase(ids: seq<Id>)
      requires forall i, k | 0 <= i < k < |ids| :: ids[i] != ids[k]
      requires forall id | id in ids :: id in transactions
      modifies this
      ensures transactions == map id | id in old(transactions) && id !in ids :: old(transactions)[id]
      ensures |ids| + |transactions| == |old(transactions)|
    {
      ghost var was := transactions;
      var i := 0;
      while i < |ids|
        invariant i <= |ids| && transactions == map id | id in was && id !in ids[..i] :: was[id]
        invariant i + |transactions| == |was|
      {
        ghost var before := transactions;
        transactions := map id | id in transactions && id != ids[i] :: transactions[id];
        assert ids[i] !in ids[..i];
        OneLess(before, transactions, ids[i]);
        assert forall id :: id in ids[..i + 1] <==> id in ids[..i] || id == ids[i];
        i := i + 1;
      }
      assert ids[..i] == ids;
    }
  }
}
