/** Merging buckets: the first few of a window into one, one closed window by its start, and the buckets of like
    handlers into one bucket per class. */
module WindowMerge {
  import opened MetricsWindow
  import opened Wrappers

  /** How long a bucket is: fixed once it is closed or its stream is recorded, else up to now. */
  function PeriodLength(b: Bucket, now: Timespec): int {
    if b.readOnly || b.recorded then b.length else (now.sec - b.start.sec) % UINT32
  }

  function Min(a: int, b: int): int {
    if a < b then a else b
  }

  function Max(a: int, b: int): int {
    if a < b then b else a
  }

  function Merged(a: Bucket, b: Bucket, now: Timespec): Bucket {
    a.(events := a.events + b.events,
       samples := a.samples + b.samples,
       length := (a.length + PeriodLength(b, now)) % UINT32,
       start := a.start.(sec := Min(a.start.sec, b.start.sec)),
       end := a.end.(sec := Max(a.end.sec, b.end.sec)))
  }

  /** `sec` is when the first of `parts` begins, or `made` if that is earlier. */
  predicate Earliest(sec: int, parts: seq<Bucket>, made: int) {
    && sec <= made && (forall i | 0 <= i < |parts| :: sec <= parts[i].start.sec)
    && (sec == made || exists i :: 0 <= i < |parts| && parts[i].start.sec == sec)
  }

  /** `sec` is when the last of `parts` ends, or 0 if none has ended. */
  predicate Latest(sec: int, parts: seq<Bucket>) {
    && 0 <= sec && (forall i | 0 <= i < |parts| :: parts[i].end.sec <= sec)
    && (sec == 0 || exists i :: 0 <= i < |parts| && parts[i].end.sec == sec)
  }

  /** `one`, made at `made`, holds what `parts` hold together: it counts what they count, begins with the first of them,
      ends with the last, and is `length` long up to wrap-around. Only whole seconds are taken over. */
  predicate Spans(one: Bucket, parts: seq<Bucket>, made: Timespec, length: int) {
    && one.events == Sum(parts, Events) && one.samples == Sum(parts, Samples)
    && Earliest(one.start.sec, parts, made.sec) && one.start.nsec == made.nsec
    && Latest(one.end.sec, parts) && one.end.nsec == 0
    && one.length == length % UINT32 && !one.readOnly
  }

  /** The lengths of buckets together. */
  function Lengths(bs: seq<Bucket>, now: Timespec): int {
    if bs == [] then 0 else Lengths(bs[..|bs| - 1], now) + PeriodLength(bs[|bs| - 1], now)
  }

  lemma EarliestBoth(a: int, parts: seq<Bucket>, made: int, b: int, more: seq<Bucket>, later: int)
    requires Earliest(a, parts, made) && Earliest(b, more, later) && made <= later
    ensures Earliest(Min(a, b), parts + more, made)
  {
    var all := parts + more;
    if b < a {
      var i :| 0 <= i < |more| && more[i].start.sec == b;
      assert all[|parts| + i].start.sec == b;
    } else if a != made {
      var i :| 0 <= i < |parts| && parts[i].start.sec == a;
      assert all[i].start.sec == a;
    }
  }

  lemma LatestBoth(a: int, parts: seq<Bucket>, b: int, more: seq<Bucket>)
    requires Latest(a, parts) && Latest(b, more)
    ensures Latest(Max(a, b), parts + more)
  {
    var all := parts + more;
    if a < b {
      var i :| 0 <= i < |more| && more[i].end.sec == b;
      assert all[|parts| + i].end.sec == b;
    } else if a != 0 {
      var i :| 0 <= i < |parts| && parts[i].end.sec == a;
      assert all[i].end.sec == a;
    }
  }

  lemma SpansNothing(made: Timespec, recorded: bool)
    ensures Spans(NewBucket(made, recorded), [], made, 0)
  {
  }

  lemma OneAlone(b: Bucket, made: int)
    ensures Earliest(Min(made, b.start.sec), [b], made) && Latest(Max(0, b.end.sec), [b])
  {
    assert [b][0] == b;
  }

  lemma AddOnce(a: int, b: int)
    ensures (a % UINT32 + b) % UINT32 == (a + b) % UINT32
  {
    assert a + b == (a / UINT32) * UINT32 + (a % UINT32 + b);
  }

  lemma StampsOk(one: Bucket, parts: seq<Bucket>, made: Timespec)
    requires Earliest(one.start.sec, parts, made.sec) && Latest(one.end.sec, parts)
    ensures one.start.sec <= made.sec && 0 <= one.end.sec
  {
  }

  /** Merging one more bucket. */
  lemma SpansNext(one: Bucket, parts: seq<Bucket>, made: Timespec, length: int, b: Bucket, now: Timespec)
    requires Spans(one, parts, made, length)
    ensures Spans(Merged(one, b, now), parts + [b], made, length + PeriodLength(b, now))
  {
    hide Sum, PeriodLength, Earliest, Latest;
    SumConcat(parts, [b], Events);
    SumConcat(parts, [b], Samples);
    SumOne(b, Events);
    SumOne(b, Samples);
    OneAlone(b, made.sec);
    EarliestBoth(one.start.sec, parts, made.sec, Min(made.sec, b.start.sec), [b], made.sec);
    LatestBoth(one.end.sec, parts, Max(0, b.end.sec), [b]);
    StampsOk(one, parts, made);
    AddOnce(length, PeriodLength(b, now));
  }

  /** Merging a bucket that is itself merged, and was made no earlier. */
  lemma SpansBoth(a: Bucket, parts: seq<Bucket>, made: Timespec, length: int, b: Bucket, more: seq<Bucket>,
                  later: Timespec, other: int, now: Timespec)
    requires Spans(a, parts, made, length) && Spans(b, more, later, other) && made.sec <= later.sec
    ensures Spans(Merged(a, b, now), parts + more, made, length + PeriodLength(b, now))
  {
    hide Sum, PeriodLength, Earliest, Latest;
    SumConcat(parts, more, Events);
    SumConcat(parts, more, Samples);
    EarliestBoth(a.start.sec, parts, made.sec, b.start.sec, more, later.sec);
    LatestBoth(a.end.sec, parts, b.end.sec, more);
    AddOnce(length, PeriodLength(b, now));
  }

  /** How far a window's newest bucket has got: to its end if it is closed, else to now, or for a recorded stream, whose
      time is not the clock's, to its start. */
  function Reach(b: Bucket, now: Timespec): int {
    if b.readOnly then b.end.sec else if b.recorded then b.start.sec else now.sec
  }

  datatype MergeResult = Refused | New(bucket: Bucket) | Into(external: Bucket)

  /** The newest `k` buckets, merged in turn into a bucket made now. */
  function MergedFirst(w: Window, k: nat, now: Timespec): Bucket
    requires k <= |w.buckets|
  {
    if k == 0 then NewBucket(now, w.recorded) else Merged(MergedFirst(w, k - 1, now), w.buckets[k - 1], now)
  }

  /** What merging the newest buckets gives. */
  lemma {:induction false} MergedSpans(w: Window, k: nat, now: Timespec)
    requires k <= |w.buckets|
    ensures var one := MergedFirst(w, k, now);
            Spans(one, w.buckets[..k], now, Lengths(w.buckets[..k], now)) && one.recorded == w.recorded
  {
    hide Spans, PeriodLength;
    if k == 0 {
      SpansNothing(now, w.recorded);
      assert w.buckets[..0] == [];
    } else {
      MergedSpans(w, k - 1, now);
      var parts := w.buckets[..k - 1];
      assert w.buckets[..k] == parts + [w.buckets[k - 1]] && w.buckets[..k][..k - 1] == parts;
      SpansNext(MergedFirst(w, k - 1, now), parts, now, Lengths(parts, now), w.buckets[k - 1], now);
    }
  }

  /** Merges the newest `period` buckets, or as many as there are, into one, and that into `external` if given. */
  method MultipleMerge(w: Window, external: Option<Bucket>, period: nat, now: Timespec) returns (r: MergeResult)
    ensures r.New? ==>
              var parts := w.buckets[..Min(period, |w.buckets|)];
              Spans(r.bucket, parts, now, Lengths(parts, now)) && r.bucket.recorded == w.recorded
    ensures r == if period <= 1 || period > w.periods then Refused
                 else var one := MergedFirst(w, Min(period, |w.buckets|), now);
                      if external.Some? then Into(Merged(external.value, one, now)) else New(one)
  {
    if period <= 1 || period > w.periods {
      return Refused;
    }
    var merged := NewBucket(now, w.recorded);
    var k := 0;
    while k < |w.buckets| && k < period
      invariant k <= Min(period, |w.buckets|)
      invariant merged == MergedFirst(w, k, now)
    {
      merged := Merged(merged, w.buckets[k], now);
      k := k + 1;
    }
    MergedSpans(w, k, now);
    if external.Some? {
      return Into(Merged(external.value, merged, now));
    }
    return New(merged);
  }

  lemma AddModulo(a: int, b: int)
    ensures (a % UINT32 + b % UINT32) % UINT32 == (a + b) % UINT32
  {
    var q, p := a / UINT32, b / UINT32;
    assert a + b == (q + p) * UINT32 + (a % UINT32 + b % UINT32);
  }

  lemma LengthIs(w: Window, k: nat, now: Timespec)
    requires Inv(w) && k < |w.buckets|
    ensures var b := w.buckets[k];
            && (k == 0 ==> PeriodLength(b, now) % UINT32 == (Reach(b, now) - b.start.sec) % UINT32)
            && (k > 0 ==> PeriodLength(b, now) == b.length == (b.end.sec - b.start.sec) % UINT32)
            && (k > 0 ==> b.end == w.buckets[k - 1].start)
  {
  }

  /** Each bucket ends where the next newer one begins, so merged buckets are together as long as the whole span. */
  lemma {:induction false} LengthsTelescope(w: Window, k: nat, now: Timespec)
    requires Inv(w) && 0 < k <= |w.buckets|
    ensures Lengths(w.buckets[..k], now) % UINT32 == (Reach(w.buckets[0], now) - w.buckets[k - 1].start.sec) % UINT32
  {
    hide PeriodLength, Reach;
    var b, parts := w.buckets[k - 1], w.buckets[..k];
    assert parts[..k - 1] == w.buckets[..k - 1];
    LengthIs(w, k - 1, now);
    if k == 1 {
      assert Lengths(parts[..0], now) == 0;
    } else {
      LengthsTelescope(w, k - 1, now);
      var before := Lengths(parts[..k - 1], now);
      AddModulo(before, b.length);
      AddModulo(Reach(w.buckets[0], now) - w.buckets[k - 2].start.sec, b.end.sec - b.start.sec);
    }
  }

  /** What a window merges to: the span from the oldest bucket's start to where the newest one has got. */
  lemma MergedLengthTelescopes(w: Window, k: nat, now: Timespec)
    requires Inv(w) && 0 < k <= |w.buckets|
    ensures MergedFirst(w, k, now).length == (Reach(w.buckets[0], now) - w.buckets[k - 1].start.sec) % UINT32
  {
    MergedSpans(w, k, now);
    LengthsTelescope(w, k, now);
  }

  /** One bucket merged into `external`, or into a bucket made now. */
  function MergedBucket(b: Bucket, external: Option<Bucket>, now: Timespec): Bucket {
    Merged(if external.Some? then external.value else NewBucket(now, false), b, now)
  }

  lemma SpansOne(b: Bucket, now: Timespec)
    ensures Spans(MergedBucket(b, None, now), [b], now, PeriodLength(b, now))
  {
    var none := NewBucket(now, false);
    SpansNext(none, [], now, 0, b, now);
    assert [] + [b] == [b];
  }

  function MergedOne(b: Bucket, external: Option<Bucket>, now: Timespec): MergeResult {
    if external.Some? then Into(MergedBucket(b, external, now)) else New(MergedBucket(b, external, now))
  }

  /** Looks a closed bucket up by its start and merges it; refuses if there is none. */
  method ClosedMerge(bs: seq<Bucket>, external: Option<Bucket>, start: Timespec, now: Timespec) returns (r: MergeResult)
    requires bs != []
    ensures r == match HeldAt(bs, start)
                 case None => Refused
                 case Some(b) => MergedOne(b, external, now)
    ensures r.New? ==> var b := HeldAt(bs, start).value; Spans(r.bucket, [b], now, PeriodLength(b, now))
    ensures r.Refused? <==> forall i | NewestClosed(bs) <= i < |bs| :: bs[i].start != start
  {
    var i := NewestClosed(bs);
    while i < |bs|
      invariant NewestClosed(bs) <= i <= |bs|
      invariant forall k | NewestClosed(bs) <= k < i :: bs[k].start != start
      invariant HeldAt(bs, start) == Find(bs[i..], start)
    {
      if bs[i].start == start {
        SpansOne(bs[i], now);
        return MergedOne(bs[i], external, now);
      }
      assert bs[i..][1..] == bs[i + 1..];
      i := i + 1;
    }
    return Refused;
  }

  // ---------------------------------------------------------------------------------------------
  // Like handlers
  // ---------------------------------------------------------------------------------------------

  /** A handler: the class of its buckets, and the keys the merge looks at first. */
  datatype Like = Like(cls: int, schema: string, version: string)

  /** A merged bucket: where it was allocated, its class, which handlers were merged into it, in order, which
      handler it is kept with, and what it holds. */
  datatype Entry = Entry(addr: int, cls: int, parts: seq<nat>, owner: nat, bucket: Bucket)

  /** How a handler merges: into the bucket given, or into a new one of its own. */
  type Merge = (nat, Option<Bucket>) -> Bucket

  /** What handlers make together: the first a bucket of its own, the others merged into it in turn. */
  function Chain(merge: Merge, parts: seq<nat>): Bucket
    requires parts != []
  {
    var n := |parts| - 1;
    merge(parts[n], if n == 0 then None else Some(Chain(merge, parts[..n])))
  }

  /** The map of merged buckets is ordered by address. */
  predicate Sorted(m: seq<Entry>) {
    forall i, k | 0 <= i < k < |m| :: m[i].addr < m[k].addr
  }

  predicate OneEach(m: seq<Entry>) {
    forall i, k | 0 <= i < k < |m| :: m[i].cls != m[k].cls
  }

  /** Where an address belongs in the map. */
  function Position(m: seq<Entry>, addr: int): (p: nat)
    requires Sorted(m) && forall i | 0 <= i < |m| :: m[i].addr != addr
    ensures p <= |m| && (forall i | 0 <= i < p :: m[i].addr < addr) && (forall i | p <= i < |m| :: addr < m[i].addr)
  {
    if m == [] || addr < m[0].addr then 0 else 1 + Position(m[1..], addr)
  }

  function At(m: seq<Entry>, e: Entry, p: nat, i: nat): Entry
    requires p <= |m| && i <= |m|
  {
    if i < p then m[i] else if i == p then e else m[i - 1]
  }

  /** The map with an entry put in where its address belongs. */
  function Insert(m: seq<Entry>, e: Entry): (r: seq<Entry>)
    requires Sorted(m) && forall i | 0 <= i < |m| :: m[i].addr != e.addr
    ensures |r| == |m| + 1 && forall i | 0 <= i < |r| :: r[i] == At(m, e, Position(m, e.addr), i)
  {
    var p := Position(m, e.addr);
    seq(|m| + 1, i requires 0 <= i <= |m| => At(m, e, p, i))
  }

  /** The handlers among the first `n` whose buckets are of class `cls`. */
  function Of(handlers: seq<Like>, n: nat, cls: int): seq<nat>
    requires n <= |handlers|
  {
    if n == 0 then [] else Of(handlers, n - 1, cls) + if handlers[n - 1].cls == cls then [n - 1] else []
  }

  predicate HasClass(m: seq<Entry>, cls: int) {
    exists i :: 0 <= i < |m| && m[i].cls == cls
  }

  /** An entry is made of every handler of its class, each once and in order, and is kept with the first. */
  predicate EntryOk(e: Entry, handlers: seq<Like>, n: nat, merge: Merge)
    requires n <= |handlers|
  {
    e.parts == Of(handlers, n, e.cls) && e.parts != [] && e.owner == e.parts[0] && e.bucket == Chain(merge, e.parts)
  }

  /** One bucket per class, and a bucket for every handler's class. */
  predicate Grouped(m: seq<Entry>, handlers: seq<Like>, n: nat, merge: Merge)
    requires n <= |handlers|
  {
    && OneEach(m)
    && (forall i | 0 <= i < |m| :: EntryOk(m[i], handlers, n, merge))
    && (forall h | 0 <= h < n :: HasClass(m, handlers[h].cls))
  }

  lemma {:induction false} OfClass(handlers: seq<Like>, n: nat, cls: int)
    requires n <= |handlers|
    ensures forall k | 0 <= k < |Of(handlers, n, cls)| ::
              Of(handlers, n, cls)[k] < n && handlers[Of(handlers, n, cls)[k]].cls == cls
  {
    if n > 0 {
      OfClass(handlers, n - 1, cls);
    }
  }

  lemma Inserted(m: seq<Entry>, e: Entry)
    requires Sorted(m) && OneEach(m) && forall i | 0 <= i < |m| :: m[i].addr != e.addr && m[i].cls != e.cls
    ensures Sorted(Insert(m, e)) && OneEach(Insert(m, e))
  {
  }

  lemma InsertedClass(m: seq<Entry>, e: Entry, cls: int)
    requires Sorted(m) && forall i | 0 <= i < |m| :: m[i].addr != e.addr
    requires HasClass(m, cls) || cls == e.cls
    ensures HasClass(Insert(m, e), cls)
  {
    var p := Position(m, e.addr);
    if cls == e.cls {
      assert Insert(m, e)[p].cls == cls;
    } else {
      var i :| 0 <= i < |m| && m[i].cls == cls;
      assert Insert(m, e)[if i < p then i else i + 1].cls == cls;
    }
  }

  /** Without a bucket of its class, a handler is the first of it. */
  lemma {:induction false} NoneBefore(m: seq<Entry>, handlers: seq<Like>, n: nat, k: nat, merge: Merge)
    requires k <= n < |handlers| && Grouped(m, handlers, n, merge) && !HasClass(m, handlers[n].cls)
    ensures Of(handlers, k, handlers[n].cls) == []
  {
    if k > 0 {
      NoneBefore(m, handlers, n, k - 1, merge);
      assert HasClass(m, handlers[k - 1].cls);
    }
  }

  lemma InsertNew(m: seq<Entry>, e: Entry, handlers: seq<Like>, n: nat, merge: Merge)
    requires Sorted(m) && n < |handlers| && Grouped(m, handlers, n, merge)
    requires forall i | 0 <= i < |m| :: m[i].addr != e.addr && m[i].cls != e.cls
    requires e.cls == handlers[n].cls && e.parts == [n] && e.owner == n && e.bucket == merge(n, None)
    ensures Sorted(Insert(m, e)) && Grouped(Insert(m, e), handlers, n + 1, merge)
  {
    var r := Insert(m, e);
    Inserted(m, e);
    NoneBefore(m, handlers, n, n, merge);
    forall h | 0 <= h < n + 1 ensures HasClass(r, handlers[h].cls) {
      InsertedClass(m, e, handlers[h].cls);
    }
    forall i | 0 <= i < |r| ensures EntryOk(r[i], handlers, n + 1, merge) {
      var p := Position(m, e.addr);
      if i != p {
        var k := if i < p then i else i - 1;
        assert r[i] == m[k] && EntryOk(m[k], handlers, n, merge);
      }
    }
  }

  function MergedWith(e: Entry, n: nat, merge: Merge): Entry {
    e.(parts := e.parts + [n], bucket := merge(n, Some(e.bucket)))
  }

  lemma EntryNext(e: Entry, handlers: seq<Like>, n: nat, merge: Merge)
    requires n < |handlers| && EntryOk(e, handlers, n, merge)
    ensures EntryOk(if e.cls == handlers[n].cls then MergedWith(e, n, merge) else e, handlers, n + 1, merge)
  {
    var e' := MergedWith(e, n, merge);
    assert e'.parts[..|e'.parts| - 1] == e.parts;
  }

  lemma HasClassAt(m: seq<Entry>, i: nat)
    requires i < |m|
    ensures HasClass(m, m[i].cls)
  {
  }

  lemma SameClasses(m: seq<Entry>, r: seq<Entry>, cls: int)
    requires |r| == |m| && (forall k | 0 <= k < |m| :: r[k].cls == m[k].cls) && HasClass(m, cls)
    ensures HasClass(r, cls)
  {
    var k :| 0 <= k < |m| && m[k].cls == cls;
    assert r[k].cls == cls;
  }

  lemma MergeInto(m: seq<Entry>, i: nat, handlers: seq<Like>, n: nat, merge: Merge)
    requires Sorted(m) && n < |handlers| && Grouped(m, handlers, n, merge) && i < |m| && m[i].cls == handlers[n].cls
    ensures var r := m[i := MergedWith(m[i], n, merge)];
            Sorted(r) && Grouped(r, handlers, n + 1, merge) && forall k | 0 <= k < |m| :: r[k].addr == m[k].addr
  {
    hide EntryOk, HasClass;
    var r := m[i := MergedWith(m[i], n, merge)];
    assert HasClass(m, handlers[n].cls) by {
      HasClassAt(m, i);
    }
    forall h | 0 <= h < n + 1 ensures HasClass(r, handlers[h].cls) {
      SameClasses(m, r, handlers[h].cls);
    }
    forall k | 0 <= k < |r| ensures EntryOk(r[k], handlers, n + 1, merge) {
      EntryNext(m[k], handlers, n, merge);
    }
  }

  /** What is assumed of the handlers: buckets of one class have one schema key. */
  predicate SchemaPerClass(handlers: seq<Like>) {
    forall h, k | 0 <= h < |handlers| && 0 <= k < |handlers| ::
      handlers[h].cls == handlers[k].cls ==> handlers[h].schema == handlers[k].schema
  }

  /** Finds the bucket of a handler's class, looking through them in address order: its index, or none, which the
      last bucket tells. Buckets that differ in both keys are skipped, but not the last. */
  method FindClass(m: seq<Entry>, handlers: seq<Like>, n: nat, ghost merge: Merge) returns (found: bool, i: nat)
    requires m != [] && n < |handlers| && Grouped(m, handlers, n, merge) && SchemaPerClass(handlers)
    ensures found ==> i < |m| && m[i].cls == handlers[n].cls
    ensures !found ==> !HasClass(m, handlers[n].cls)
  {
    var h := handlers[n];
    i := 0;
    while true
      invariant i < |m| && forall k | 0 <= k < i :: m[k].cls != h.cls
      decreases |m| - i
    {
      var last := i == |m| - 1;
      assert EntryOk(m[i], handlers, n, merge);
      OfClass(handlers, n, m[i].cls);
      var kept := handlers[m[i].owner];
      if !last && h.schema != kept.schema && h.version != kept.version {
        i := i + 1;
        continue;
      }
      if m[i].cls == h.cls {
        return true, i;
      } else if last {
        return false, i;
      }
      i := i + 1;
    }
  }

  predicate Distinct(addresses: seq<int>) {
    forall h, k | 0 <= h < k < |addresses| :: addresses[h] != addresses[k]
  }

  /** Every entry is where one of the first `n` handlers' buckets is. */
  predicate Placed(m: seq<Entry>, addresses: seq<int>, n: nat)
    requires n <= |addresses|
  {
    forall i | 0 <= i < |m| :: m[i].addr in addresses[..n]
  }

  lemma NewAddress(m: seq<Entry>, addresses: seq<int>, n: nat)
    requires n < |addresses| && Distinct(addresses) && Placed(m, addresses, n)
    ensures forall i | 0 <= i < |m| :: m[i].addr != addresses[n]
  {
  }

  lemma PlacedNew(m: seq<Entry>, e: Entry, addresses: seq<int>, n: nat)
    requires n < |addresses| && Placed(m, addresses, n) && e.addr == addresses[n]
    requires Sorted(m) && forall i | 0 <= i < |m| :: m[i].addr != e.addr
    ensures Placed(Insert(m, e), addresses, n + 1)
  {
    assert addresses[..n + 1] == addresses[..n] + [addresses[n]];
    forall i | 0 <= i <= |m| ensures Insert(m, e)[i].addr in addresses[..n + 1] {
      assert Insert(m, e)[i] == At(m, e, Position(m, e.addr), i);
    }
  }

  lemma PlacedInto(m: seq<Entry>, i: nat, addresses: seq<int>, n: nat, merge: Merge)
    requires n < |addresses| && Placed(m, addresses, n) && i < |m|
    ensures Placed(m[i := MergedWith(m[i], n, merge)], addresses, n + 1)
  {
    assert addresses[..n + 1] == addresses[..n] + [addresses[n]];
  }

  lemma NothingMerged(handlers: seq<Like>, addresses: seq<int>, merge: Merge)
    ensures Sorted([]) && Grouped([], handlers, 0, merge) && Placed([], addresses, 0)
  {
  }

  lemma NoneYet(cls: int)
    ensures !HasClass([], cls)
  {
  }

  lemma NoClass(m: seq<Entry>, cls: int)
    requires !HasClass(m, cls)
    ensures forall i | 0 <= i < |m| :: m[i].cls != cls
  {
  }

  /** Merges every handler's bucket. `addresses[h]` is where handler `h`'s bucket is allocated, if it is kept. */
  method GetMergedBuckets(handlers: seq<Like>, addresses: seq<int>, merge: Merge) returns (m: seq<Entry>)
    requires |addresses| == |handlers| && Distinct(addresses)
    requires SchemaPerClass(handlers)
    ensures Sorted(m) && Grouped(m, handlers, |handlers|, merge) && |m| <= |handlers|
  {
    hide Sorted, Grouped, Placed, Distinct, SchemaPerClass, HasClass, EntryOk, Insert, Position;
    m := [];
    var n := 0;
    NothingMerged(handlers, addresses, merge);
    while n < |handlers|
      invariant |m| <= n <= |handlers| && Sorted(m) && Grouped(m, handlers, n, merge) && Placed(m, addresses, n)
    {
      var found, i := false, 0;
      if m != [] {
        found, i := FindClass(m, handlers, n, merge);
      } else {
        NoneYet(handlers[n].cls);
      }
      if found {
        MergeInto(m, i, handlers, n, merge);
        PlacedInto(m, i, addresses, n, merge);
        m := m[i := MergedWith(m[i], n, merge)];
      } else {
        var e := Entry(addresses[n], handlers[n].cls, [n], n, merge(n, None));
        NoClass(m, e.cls);
        NewAddress(m, addresses, n);
        InsertNew(m, e, handlers, n, merge);
        PlacedNew(m, e, addresses, n);
        m := Insert(m, e);
      }
      n := n + 1;
    }
  }
}
