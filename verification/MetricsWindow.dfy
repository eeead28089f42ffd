/** A handler's sliding window of time buckets, and the export of its closed windows. */
module MetricsWindow {
  import opened Wrappers

  /** The length of a window, in seconds. */
  const PERIOD_SEC: int := 60

  const UINT32: int := 0x1_0000_0000

  /** What a bucket holds besides its handler's own metrics. `length` is an unsigned 32-bit number of seconds. */
  datatype Bucket = Bucket(start: Timespec, end: Timespec, events: nat, samples: nat, length: int, readOnly: bool,
                           recorded: bool)

  /** The buckets, newest first, and when the next one is due. */
  datatype Window = Window(periods: nat, buckets: seq<Bucket>, next: Timespec, recorded: bool)

  function NewBucket(start: Timespec, recorded: bool): Bucket {
    Bucket(start, Timespec(0, 0), 0, 0, 0, false, recorded)
  }

  /** A bucket made read only at `stamp`. */
  function Close(b: Bucket, stamp: Timespec): Bucket {
    b.(end := stamp, length := (stamp.sec - b.start.sec) % UINT32, readOnly := true)
  }

  /** Whether `t` is later than the mark `after`; without a mark, every time is. */
  predicate StartsAfter(t: Timespec, after: Option<Timespec>) {
    after.None? || t.sec > after.value.sec || (t.sec == after.value.sec && t.nsec > after.value.nsec)
  }

  predicate WillShift(w: Window, stamp: Timespec) {
    w.periods > 1 && stamp.sec >= w.next.sec
  }

  /** For stamps with less than a second of nanoseconds, later is later by the nanosecond. */
  lemma StartsAfterIff(t: Timespec, mark: Timespec)
    requires 0 <= t.nsec < 1_000_000_000 && 0 <= mark.nsec < 1_000_000_000
    ensures StartsAfter(t, Some(mark)) <==> t.sec * 1_000_000_000 + t.nsec > mark.sec * 1_000_000_000 + mark.nsec
    ensures StartsAfter(t, None)
  {
  }

  /** A new live bucket, the previous one closed, and the oldest expired if there are too many. */
  function Shift(w: Window, stamp: Timespec): Window
    requires w.buckets != []
  {
    var all := [NewBucket(stamp, w.recorded), Close(w.buckets[0], stamp)] + w.buckets[1..];
    w.(buckets := if |all| > w.periods then all[..|all| - 1] else all,
       next := Timespec(stamp.sec + PERIOD_SEC, w.next.nsec))
  }

  /** The bucket a shift expires, if any. */
  function Expiring(w: Window, stamp: Timespec): Option<Bucket>
    requires w.buckets != []
  {
    if |w.buckets| < w.periods then None
    else if |w.buckets| == 1 then Some(Close(w.buckets[0], stamp))
    else Some(w.buckets[|w.buckets| - 1])
  }

  function Count(w: Window, deep: bool): Window
    requires w.buckets != []
  {
    var b := w.buckets[0];
    w.(buckets := w.buckets[0 := b.(events := b.events + 1, samples := b.samples + if deep then 1 else 0)])
  }

  function SetStart(w: Window, stamp: Timespec): Window
    requires w.buckets != []
  {
    w.(buckets := w.buckets[0 := w.buckets[0].(start := stamp)], next := Timespec(stamp.sec + PERIOD_SEC, w.next.nsec))
  }

  function SetEnd(w: Window, stamp: Timespec): Window
    requires w.buckets != []
  {
    w.(buckets := w.buckets[0 := Close(w.buckets[0], stamp)])
  }

  /** The manager reads a recorded stream from here on. */
  function Record(w: Window): Window
    requires w.buckets != []
  {
    w.(buckets := w.buckets[0 := w.buckets[0].(recorded := true)], recorded := true)
  }

  /** Where the closed buckets begin: at the front only once the stream is over. */
  function NewestClosed(buckets: seq<Bucket>): nat
    requires buckets != []
  {
    if buckets[0].readOnly then 0 else 1
  }

  /** The buckets that start after `after`, oldest first. */
  function Unsent(buckets: seq<Bucket>, after: Option<Timespec>): (r: seq<Bucket>) {
    if buckets == [] then []
    else Unsent(buckets[1..], after) + if StartsAfter(buckets[0].start, after) then [buckets[0]] else []
  }

  /** The closed windows an export after `after` has to hand out, oldest first. */
  function Pending(buckets: seq<Bucket>, after: Option<Timespec>): seq<Bucket>
    requires buckets != []
  {
    Unsent(buckets[NewestClosed(buckets)..], after)
  }

  /** The start of the newest window handed out, once `exported` are. */
  function LastSent(exported: seq<Bucket>, after: Option<Timespec>): Option<Timespec> {
    if exported == [] then after else Some(exported[|exported| - 1].start)
  }

  function Find(bs: seq<Bucket>, start: Timespec): Option<Bucket> {
    if bs == [] then None else if bs[0].start == start then Some(bs[0]) else Find(bs[1..], start)
  }

  /** The closed window held that starts at `start`. */
  function HeldAt(bs: seq<Bucket>, start: Timespec): Option<Bucket>
    requires bs != []
  {
    Find(bs[NewestClosed(bs)..], start)
  }

  /** The two counters of a bucket: all events, and those looked into deeply. */
  datatype Tally = Events | Samples

  function Value(b: Bucket, t: Tally): nat {
    if t.Events? then b.events else b.samples
  }

  /** What the buckets count together. */
  function Sum(bs: seq<Bucket>, t: Tally): nat {
    if bs == [] then 0 else Sum(bs[..|bs| - 1], t) + Value(bs[|bs| - 1], t)
  }

  lemma {:induction false} SumConcat(a: seq<Bucket>, b: seq<Bucket>, t: Tally)
    ensures Sum(a + b, t) == Sum(a, t) + Sum(b, t)
  {
    if b == [] {
      assert a + b == a;
    } else {
      SumConcat(a, b[..|b| - 1], t);
      assert (a + b)[..|a + b| - 1] == a + b[..|b| - 1];
    }
  }

  lemma SumOne(b: Bucket, t: Tally)
    ensures Sum([b], t) == Value(b, t) && Sum([], t) == 0
  {
    assert [b][..0] == [];
  }

  // ---------------------------------------------------------------------------------------------
  // The invariant
  // ---------------------------------------------------------------------------------------------

  /** The buckets behind the live one are closed and each ends where the next newer one starts, later than it
      started. */
  predicate Chained(buckets: seq<Bucket>) {
    forall i | 1 <= i < |buckets| ::
      buckets[i].readOnly && buckets[i].end == buckets[i - 1].start && buckets[i].start.sec < buckets[i - 1].start.sec
  }

  predicate LengthsOk(buckets: seq<Bucket>) {
    forall i | 0 <= i < |buckets| ::
      buckets[i].length == if buckets[i].readOnly then (buckets[i].end.sec - buckets[i].start.sec) % UINT32 else 0
  }

  predicate Inv(w: Window) {
    && 1 <= |w.buckets| <= w.periods
    && Chained(w.buckets) && LengthsOk(w.buckets)
    && w.buckets[0].start.sec < w.next.sec
    && (w.recorded ==> w.buckets[0].recorded)
  }

  /** Older buckets start earlier. */
  lemma {:induction false} StartsDecrease(buckets: seq<Bucket>, i: nat, k: nat)
    requires Chained(buckets) && i < k < |buckets|
    ensures buckets[k].start.sec < buckets[i].start.sec
    decreases k
  {
    if i + 1 < k {
      StartsDecrease(buckets, i, k - 1);
    }
  }

  /** What each bucket is after a shift. */
  lemma ShiftedBuckets(w: Window, stamp: Timespec)
    requires 1 <= |w.buckets| <= w.periods && 1 < w.periods
    ensures var after := Shift(w, stamp).buckets;
            && 2 <= |after| <= w.periods && |w.buckets| <= |after|
            && after[0] == NewBucket(stamp, w.recorded) && after[1] == Close(w.buckets[0], stamp)
            && forall i | 2 <= i < |after| :: after[i] == w.buckets[i - 1]
  {
  }

  lemma ShiftKeeps(w: Window, stamp: Timespec)
    requires Inv(w) && WillShift(w, stamp)
    ensures Inv(Shift(w, stamp))
  {
    var after := Shift(w, stamp).buckets;
    ShiftedBuckets(w, stamp);
    assert LengthsOk(after) && Chained(after);
  }

  lemma CountKeeps(w: Window, deep: bool)
    requires Inv(w)
    ensures Inv(Count(w, deep))
  {
  }

  lemma SetStartKeepsIff(w: Window, stamp: Timespec)
    requires Inv(w)
    ensures var live := w.buckets[0];
            Inv(SetStart(w, stamp)) <==>
              && (|w.buckets| == 1 || stamp == live.start)
              && (live.readOnly ==> live.length == (live.end.sec - stamp.sec) % UINT32)
  {
    var after := SetStart(w, stamp).buckets;
    if |w.buckets| > 1 {
      assert after[1] == w.buckets[1];
      if stamp == w.buckets[0].start {
        assert after == w.buckets;
      }
    }
    assert forall i | 1 <= i < |after| :: after[i] == w.buckets[i];
  }

  lemma RecordKeeps(w: Window)
    requires Inv(w)
    ensures Inv(Record(w)) && Record(w).recorded
  {
    var after := Record(w).buckets;
    assert after[0].start == w.buckets[0].start;
    assert forall i | 1 <= i < |after| :: after[i] == w.buckets[i];
  }

  /** Once nothing older is unsent, an unsent bucket is the first handed out. */
  lemma {:induction false} UnsentFirst(buckets: seq<Bucket>, after: Option<Timespec>, i: nat)
    requires i < |buckets| && StartsAfter(buckets[i].start, after) && Unsent(buckets[i + 1..], after) == []
    ensures Unsent(buckets, after) != [] && Unsent(buckets, after)[0] == buckets[i]
    decreases i
  {
    if i == 0 {
    } else {
      assert buckets[1..][i..] == buckets[i + 1..];
      UnsentFirst(buckets[1..], after, i - 1);
    }
  }

  /** When the first of the windows pending after a mark began, looking from the oldest bucket. */
  method FirstPendingStart(buckets: seq<Bucket>, after: Option<Timespec>) returns (start: Option<Timespec>)
    requires buckets != []
    ensures var pending := Pending(buckets, after); start == if pending == [] then None else Some(pending[0].start)
  {
    var newest := NewestClosed(buckets);
    var i := |buckets|;
    start := None;
    assert buckets[newest..][|buckets| - newest..] == [];
    while i > newest
      invariant newest <= i <= |buckets|
      invariant Unsent(buckets[i..], after) == []
    {
      i := i - 1;
      if StartsAfter(buckets[i].start, after) {
        UnsentFirst(buckets[newest..], after, i - newest);
        return Some(buckets[i].start);
      }
      assert buckets[i..][1..] == buckets[i + 1..];
    }
  }

  /** A manager and its exporter's mark, as one object. */
  class Handler {
    var periods: nat
    var buckets: seq<Bucket>
    var next: Timespec
    var recorded: bool
    /** The start of the newest window exported. */
    var last: Option<Timespec>

    ghost function View(): Window
      reads this
    {
      Window(periods, buckets, next, recorded)
    }

    /** `now` is when the manager's clock is read, and `begun` when the first bucket's is, less than a period later. */
    constructor (configured: nat, now: Timespec, begun: Timespec)
      requires now.sec <= begun.sec < now.sec + PERIOD_SEC
      ensures Inv(View()) && buckets == [NewBucket(begun, false)] && last == None
      ensures periods == if configured < 1 then 1 else if configured > 10 then 10 else configured
      ensures next == Timespec(now.sec + 60, now.nsec) && !recorded
    {
      periods := if configured > 10 then 10 else configured;
      if configured < 1 {
        periods := 1;
      }
      next := Timespec(now.sec + PERIOD_SEC, now.nsec);
      buckets := [NewBucket(begun, false)];
      recorded := false;
      last := None;
    }

    method PeriodShift(stamp: Timespec) returns (expiring: Option<Bucket>)
      requires buckets != []
      modifies this`buckets, this`next
      ensures View() == Shift(old(View()), stamp)
      ensures expiring == Expiring(old(View()), stamp)
    {
      expiring := None;
      buckets := [NewBucket(stamp, recorded)] + buckets;
      buckets := buckets[1 := Close(buckets[1], stamp)];
      assert buckets == [NewBucket(stamp, recorded), Close(old(buckets[0]), stamp)] + old(buckets)[1..];
      if |buckets| > periods {
        expiring := Some(buckets[|buckets| - 1]);
        buckets := buckets[..|buckets| - 1];
      }
      next := Timespec(stamp.sec + PERIOD_SEC, next.nsec);
    }

    method NewEvent(stamp: Timespec, deep: bool)
      requires Inv(View())
      modifies this`buckets, this`next
      ensures var w := old(View()); View() == Count(if WillShift(w, stamp) then Shift(w, stamp) else w, deep)
      ensures Inv(View())
    {
      if periods > 1 && stamp.sec >= next.sec {
        ShiftKeeps(View(), stamp);
        var _ := PeriodShift(stamp);
      }
      CountKeeps(View(), deep);
      var b := buckets[0];
      b := b.(events := b.events + 1);
      if deep {
        b := b.(samples := b.samples + 1);
      }
      buckets := buckets[0 := b];
    }

    /** A recorded stream's first stamp. The windows still chain exactly when it is given before any window closed, or
        repeats the live bucket's start, and agrees with the length of a live bucket that is closed. */
    method SetStartTstamp(stamp: Timespec)
      requires buckets != []
      modifies this`buckets, this`next
      ensures View() == SetStart(old(View()), stamp)
      ensures old(Inv(View())) ==>
                var live := old(buckets[0]);
                Inv(View()) <==>
                  && (|old(buckets)| == 1 || stamp == live.start)
                  && (live.readOnly ==> live.length == (live.end.sec - stamp.sec) % UINT32)
    {
      ghost var w := View();
      next := Timespec(stamp.sec + PERIOD_SEC, next.nsec);
      buckets := buckets[0 := buckets[0].(start := stamp)];
      if Inv(w) {
        SetStartKeepsIff(w, stamp);
      }
    }

    /** Marks the manager, and the live bucket, as reading a recorded stream. */
    method SetRecordedStream()
      requires buckets != []
      modifies this`buckets, this`recorded
      ensures View() == Record(old(View()))
      ensures old(Inv(View())) ==> Inv(View())
    {
      ghost var w := View();
      recorded := true;
      buckets := buckets[0 := buckets[0].(recorded := true)];
      if Inv(w) {
        RecordKeeps(w);
      }
    }

    /** The end of a recorded stream. */
    method SetEndTstamp(stamp: Timespec)
      requires Inv(View())
      modifies this`buckets
      ensures View() == SetEnd(old(View()), stamp) && Inv(View())
    {
      buckets := buckets[0 := Close(buckets[0], stamp)];
    }

    method CheckPeriodShift(stamp: Timespec)
      requires Inv(View())
      modifies this`buckets, this`next
      ensures var w := old(View()); View() == if WillShift(w, stamp) then Shift(w, stamp) else w
      ensures Inv(View())
    {
      if periods > 1 && stamp.sec >= next.sec {
        ShiftKeeps(View(), stamp);
        var _ := PeriodShift(stamp);
      }
    }

    /** When the first of the windows pending after a mark began. */
    method NextClosedWindowStart(after: Option<Timespec>) returns (start: Option<Timespec>)
      requires buckets != []
      ensures var pending := Pending(buckets, after); start == if pending == [] then None else Some(pending[0].start)
    {
      start := FirstPendingStart(buckets, after);
    }

    /** Hands out every closed window not sent before, oldest first. If writing one fails, none is marked. */
    method WindowClosed(scope: seq<Bucket>, fails: nat -> bool) returns (ok: bool, scope': seq<Bucket>)
      requires buckets != []
      modifies this`last
      ensures ok ==>
                scope' == scope + Pending(buckets, old(last))
                && last == LastSent(Pending(buckets, old(last)), old(last))
      ensures !ok ==> last == old(last) && scope <= scope' && exists k :: fails(k)
    {
      scope', ok := scope, true;
      var newest := NewestClosed(buckets);
      var sent := None;
      var i := |buckets|;
      assert Unsent(buckets[|buckets|..], last) == [];
      while i > newest
        invariant newest <= i <= |buckets| && last == old(last)
        invariant scope' == scope + Unsent(buckets[i..], last)
        invariant sent == LastSent(Unsent(buckets[i..], last), None)
      {
        i := i - 1;
        assert buckets[i..][1..] == buckets[i + 1..];
        if StartsAfter(buckets[i].start, last) {
          if fails(i) {
            ok := false;
            return;
          }
          scope' := scope' + [buckets[i]];
          sent := Some(buckets[i].start);
        }
      }
      if sent.Some? {
        last := sent;
      }
    }

    /** An export as its policy does it: what a failed one wrote is dropped. */
    method Export(scope: seq<Bucket>, fails: nat -> bool) returns (ok: bool, scope': seq<Bucket>)
      requires buckets != []
      modifies this`last
      ensures ok ==>
                scope' == scope + Pending(buckets, old(last))
                && last == LastSent(Pending(buckets, old(last)), old(last))
      ensures !ok ==> scope' == scope && last == old(last) && exists k :: fails(k)
    {
      ok, scope' := WindowClosed(scope, fails);
      if !ok {
        scope' := scope'[..|scope|];
      }
    }
  }
}
