/** Every run of a window under its one event thread and its exporter. The event thread tests whether to shift,
    shifts and counts in separate steps, and the exporter may run between any two of them. */
module WindowRuns {
  import opened MetricsWindow
  import opened Wrappers

  /** Where the event thread is: between events, about to shift, or about to count. */
  datatype Pc = Idle | Shifting(stamp: Timespec, counts: bool, deep: bool) | Counting(deep: bool)

  /** The window, and its history: `sent` is every window handed out whole, in order; `expired` every window
      popped, oldest first, and `lost` those popped unsent; `late` counts the events that came in after their
      window had been sent, and `sampled` and `lateSampled` those looked into deeply; `since` the shifts since the last
      export that worked. */
  datatype Sys = Sys(w: Window, pc: Pc, last: Option<Timespec>, shifted: bool,
                     sent: seq<Bucket>, expired: seq<Bucket>, lost: seq<Bucket>,
                     received: nat, sampled: nat, late: nat, lateSampled: nat, since: nat)

  datatype Step =
    | Test(stamp: Timespec, counts: bool, deep: bool)
    | DoShift
    | DoCount
    | EndStream(stamp: Timespec)
    | StartAt(stamp: Timespec)
    | Export(ok: bool)

  predicate Init(s: Sys) {
    && MetricsWindow.Inv(s.w) && |s.w.buckets| == 1 && !s.w.buckets[0].readOnly
    && s.w.buckets[0].events == 0 == s.w.buckets[0].samples
    && s == Sys(s.w, Idle, None, false, [], [], [], 0, 0, 0, 0, 0)
  }

  predicate Enabled(s: Sys, step: Step) {
    && s.w.buckets != []
    && match step
       case Test(_, _, _) => s.pc.Idle?
       case DoShift => s.pc.Shifting?
       case DoCount => s.pc.Counting?
       case EndStream(_) => s.pc.Idle?
       case StartAt(_) => s.pc.Idle? && !s.shifted && !s.w.buckets[0].readOnly
       case Export(_) => true
  }

  function Next(s: Sys, step: Step): Sys
    requires Enabled(s, step)
  {
    match step
    case Test(stamp, counts, deep) =>
      s.(pc := if WillShift(s.w, stamp) then Shifting(stamp, counts, deep) else if counts then Counting(deep) else Idle)
    case DoShift =>
      var popped := Expiring(s.w, s.pc.stamp);
      s.(w := Shift(s.w, s.pc.stamp),
         pc := if s.pc.counts then Counting(s.pc.deep) else Idle,
         shifted := true,
         since := s.since + 1,
         expired := s.expired + if popped.None? then [] else [popped.value],
         lost := s.lost + if popped.Some? && StartsAfter(popped.value.start, s.last) then [popped.value] else [])
    case DoCount =>
      var deep := if s.pc.deep then 1 else 0;
      var late := !StartsAfter(s.w.buckets[0].start, s.last);
      s.(w := Count(s.w, s.pc.deep), pc := Idle, received := s.received + 1, sampled := s.sampled + deep,
         late := s.late + if late then 1 else 0, lateSampled := s.lateSampled + if late then deep else 0)
    case EndStream(stamp) => s.(w := SetEnd(s.w, stamp))
    case StartAt(stamp) => s.(w := SetStart(s.w, stamp))
    case Export(ok) =>
      var out := Pending(s.w.buckets, s.last);
      if ok then s.(last := LastSent(out, s.last), sent := s.sent + out, since := 0) else s
  }

  ghost predicate Run(trace: seq<Sys>, steps: seq<Step>) {
    && |trace| == |steps| + 1 && Init(trace[0])
    && forall k | 0 <= k < |steps| :: Enabled(trace[k], steps[k]) && trace[k + 1] == Next(trace[k], steps[k])
  }

  // ---------------------------------------------------------------------------------------------
  // Which buckets are unsent
  // ---------------------------------------------------------------------------------------------

  /** Newest first. */
  predicate Decreasing(bs: seq<Bucket>) {
    forall i, k | 0 <= i < k < |bs| :: bs[k].start.sec < bs[i].start.sec
  }

  predicate Increasing(bs: seq<Bucket>) {
    forall i, k | 0 <= i < k < |bs| :: bs[i].start.sec < bs[k].start.sec
  }

  lemma ChainedDecreasing(bs: seq<Bucket>)
    requires Chained(bs)
    ensures Decreasing(bs)
  {
    forall i, k | 0 <= i < k < |bs| ensures bs[k].start.sec < bs[i].start.sec {
      StartsDecrease(bs, i, k);
    }
  }

  /** The unsent buckets are the newest ones, handed out oldest first. */
  lemma {:induction false} UnsentNewest(bs: seq<Bucket>, after: Option<Timespec>)
    requires Decreasing(bs)
    ensures var out := Unsent(bs, after);
            && |out| <= |bs|
            && (forall i | 0 <= i < |bs| :: StartsAfter(bs[i].start, after) <==> i < |out|)
            && (forall i | 0 <= i < |out| :: out[i] == bs[|out| - 1 - i])
  {
    if bs != [] {
      var rest := bs[1..];
      UnsentNewest(rest, after);
      var out := Unsent(rest, after);
      assert 1 < |bs| ==> rest[0] == bs[1];
      assert !StartsAfter(bs[0].start, after) ==> out == [];
      forall i | 0 <= i < |bs| ensures StartsAfter(bs[i].start, after) <==> i < |Unsent(bs, after)| {
        if i > 0 {
          assert bs[i] == rest[i - 1];
        }
      }
    }
  }

  // ---------------------------------------------------------------------------------------------
  // What every step keeps
  // ---------------------------------------------------------------------------------------------

  /** A bucket that starts after the mark does so by whole seconds. */
  predicate Apart(bs: seq<Bucket>, last: Option<Timespec>) {
    last.Some? ==> forall i | 0 <= i < |bs| :: StartsAfter(bs[i].start, last) ==> last.value.sec < bs[i].start.sec
  }

  /** Windows are handed out in strictly increasing order of start, and the mark is the last one's start. */
  predicate InOrder(sent: seq<Bucket>, last: Option<Timespec>, bs: seq<Bucket>)
    requires bs != []
  {
    && Increasing(sent) && last == LastSent(sent, None) && Apart(bs, last)
    && (last.Some? ==> last.value.sec <= bs[0].start.sec)
    && (!bs[0].readOnly ==> StartsAfter(bs[0].start, last))
    && (forall b | b in sent :: b.readOnly)
  }

  predicate Core(s: Sys)  {
    && MetricsWindow.Inv(s.w)
    && (s.pc.Shifting? ==> WillShift(s.w, s.pc.stamp))
    && (!s.shifted ==> |s.w.buckets| == 1 && s.expired == [] && s.lost == [])
    && (!s.shifted && !s.w.buckets[0].readOnly ==> s.sent == [])
    && InOrder(s.sent, s.last, s.w.buckets)
  }

  lemma CoreInit(s: Sys)
    requires Init(s)
    ensures Core(s)
  {
  }

  /** What an export hands out: the newest closed buckets, oldest first. */
  lemma PendingNewest(bs: seq<Bucket>, last: Option<Timespec>)
    requires bs != [] && Decreasing(bs) && Chained(bs)
    ensures var out := Pending(bs, last); var newest := NewestClosed(bs);
            && newest + |out| <= |bs| + 1 && (out != [] ==> newest + |out| <= |bs|)
            && (forall i | 0 <= i < |out| :: out[i] == bs[newest + |out| - 1 - i] && out[i].readOnly)
            && (forall i | newest <= i < |bs| :: StartsAfter(bs[i].start, last) <==> i < newest + |out|)
  {
    var newest := NewestClosed(bs);
    UnsentNewest(bs[newest..], last);
    forall i | newest <= i < |bs| ensures StartsAfter(bs[i].start, last) <==> i < newest + |Pending(bs, last)| {
      assert bs[newest..][i - newest] == bs[i];
    }
  }

  /** After an export, exactly the live bucket is unsent, unless it is closed. */
  lemma MarkAfterExport(bs: seq<Bucket>, last: Option<Timespec>)
    requires bs != [] && Decreasing(bs) && Chained(bs) && Apart(bs, last)
    requires last.Some? ==> last.value.sec <= bs[0].start.sec
    requires !bs[0].readOnly ==> StartsAfter(bs[0].start, last)
    ensures var mark := LastSent(Pending(bs, last), last);
            && (forall i | 0 <= i < |bs| :: StartsAfter(bs[i].start, mark) <==> i < NewestClosed(bs))
            && Apart(bs, mark) && (mark.Some? ==> mark.value.sec <= bs[0].start.sec)
  {
    var out := Pending(bs, last);
    PendingNewest(bs, last);
    if out != [] {
      assert out[|out| - 1] == bs[NewestClosed(bs)];
    }
  }

  lemma AfterLast(sent: seq<Bucket>, out: seq<Bucket>)
    requires Increasing(sent) && Increasing(out)
    requires sent != [] ==> forall i | 0 <= i < |out| :: sent[|sent| - 1].start.sec < out[i].start.sec
    ensures Increasing(sent + out)
  {
  }

  /** What an export hands out comes after everything sent before. */
  lemma ExportInOrder(sent: seq<Bucket>, last: Option<Timespec>, bs: seq<Bucket>)
    requires bs != [] && Decreasing(bs) && Chained(bs) && InOrder(sent, last, bs)
    ensures var out := Pending(bs, last); InOrder(sent + out, LastSent(out, last), bs)
  {
    var out := Pending(bs, last);
    PendingNewest(bs, last);
    MarkAfterExport(bs, last);
    assert Increasing(out);
    AfterLast(sent, out);
  }

  lemma CoreShift(s: Sys)
    requires Core(s) && Enabled(s, DoShift)
    ensures Core(Next(s, DoShift))
  {
    hide Increasing, Expiring;
    ShiftKeeps(s.w, s.pc.stamp);
    ShiftedBuckets(s.w, s.pc.stamp);
  }

  lemma CoreExport(s: Sys)
    requires Core(s) && Enabled(s, Export(true))
    ensures Core(Next(s, Export(true)))
  {
    hide Increasing, Decreasing;
    ChainedDecreasing(s.w.buckets);
    ExportInOrder(s.sent, s.last, s.w.buckets);
  }

  lemma CoreNext(s: Sys, step: Step)
    requires Core(s) && Enabled(s, step)
    ensures Core(Next(s, step))
  {
    hide Increasing;
    match step
    case Test(_, _, _) =>
    case DoShift =>
      CoreShift(s);
    case DoCount =>
      CountKeeps(s.w, s.pc.deep);
    case EndStream(_) =>
    case StartAt(_) =>
    case Export(ok) =>
      if ok {
        CoreExport(s);
      }
  }

  // ---------------------------------------------------------------------------------------------
  // Conservation of events
  // ---------------------------------------------------------------------------------------------

  /** How much there was to count, and how much of it came too late. */
  function Received(s: Sys, t: Tally): nat {
    if t.Events? then s.received else s.sampled
  }

  function Late(s: Sys, t: Tally): nat {
    if t.Events? then s.late else s.lateSampled
  }

  /** Every event is in a window handed out, in one lost, in one still held and unsent, or came too late. */
  predicate Conserves(s: Sys, t: Tally) {
    Sum(s.sent, t) + Sum(s.lost, t) + Sum(Unsent(s.w.buckets, s.last), t) + Late(s, t) == Received(s, t)
  }

  predicate Conserved(s: Sys) {
    Conserves(s, Events) && Conserves(s, Samples)
  }

  lemma {:induction false} UnsentDropLast(bs: seq<Bucket>, after: Option<Timespec>)
    requires bs != []
    ensures var oldest := bs[|bs| - 1];
            Unsent(bs, after) == (if StartsAfter(oldest.start, after) then [oldest] else [])
                + Unsent(bs[..|bs| - 1], after)
  {
    if 1 < |bs| {
      UnsentDropLast(bs[1..], after);
      assert bs[1..][..|bs| - 2] == bs[..|bs| - 1][1..];
    }
  }

  lemma SumUnsent(bs: seq<Bucket>, after: Option<Timespec>, t: Tally)
    requires bs != []
    ensures Sum(Unsent(bs, after), t)
            == Sum(Unsent(bs[1..], after), t) + if StartsAfter(bs[0].start, after) then Value(bs[0], t) else 0
  {
    if StartsAfter(bs[0].start, after) {
      SumConcat(Unsent(bs[1..], after), [bs[0]], t);
      SumOne(bs[0], t);
    } else {
      assert Unsent(bs, after) == Unsent(bs[1..], after);
    }
  }

  lemma SumUnsentDropLast(bs: seq<Bucket>, after: Option<Timespec>, t: Tally)
    requires bs != []
    ensures var oldest := bs[|bs| - 1];
            Sum(Unsent(bs, after), t) == Sum(Unsent(bs[..|bs| - 1], after), t)
                + if StartsAfter(oldest.start, after) then Value(oldest, t) else 0
  {
    var oldest := bs[|bs| - 1];
    var rest := Unsent(bs[..|bs| - 1], after);
    UnsentDropLast(bs, after);
    if StartsAfter(oldest.start, after) {
      SumConcat([oldest], rest, t);
      SumOne(oldest, t);
    } else {
      assert [] + rest == rest;
    }
  }

  /** Putting an empty live bucket in front changes no sum. */
  lemma SumPush(bs: seq<Bucket>, live: Bucket, closed: Bucket, last: Option<Timespec>, t: Tally)
    requires bs != [] && Value(live, t) == 0 && closed.start == bs[0].start && Value(closed, t) == Value(bs[0], t)
    ensures Sum(Unsent([live, closed] + bs[1..], last), t) == Sum(Unsent(bs, last), t)
  {
    var all := [live, closed] + bs[1..];
    SumUnsent(all, last, t);
    assert all[1..] == [closed] + bs[1..];
    SumLive(bs, closed, last, t);
    assert bs[0 := closed] == [closed] + bs[1..];
  }

  /** Changing the live bucket changes the sum by what it counts. */
  lemma SumLive(bs: seq<Bucket>, b: Bucket, after: Option<Timespec>, t: Tally)
    requires bs != [] && (StartsAfter(b.start, after) <==> StartsAfter(bs[0].start, after))
    ensures Sum(Unsent(bs[0 := b], after), t) ==
            Sum(Unsent(bs, after), t) + if StartsAfter(b.start, after) then Value(b, t) - Value(bs[0], t) else 0
  {
    SumUnsent(bs, after, t);
    SumUnsent(bs[0 := b], after, t);
    assert bs[0 := b][1..] == bs[1..];
  }

  /** A shift moves no event, except that a bucket popped unsent takes its own with it. */
  lemma ShiftConserves(w: Window, stamp: Timespec, last: Option<Timespec>, t: Tally)
    requires w.buckets != [] && |w.buckets| <= w.periods
    ensures var popped := Expiring(w, stamp);
            Sum(Unsent(Shift(w, stamp).buckets, last), t)
              + (if popped.Some? && StartsAfter(popped.value.start, last) then Value(popped.value, t) else 0)
            == Sum(Unsent(w.buckets, last), t)
  {
    hide Sum, Unsent, StartsAfter;
    var live, closed := NewBucket(stamp, w.recorded), Close(w.buckets[0], stamp);
    SumPush(w.buckets, live, closed, last, t);
    SumUnsentDropLast([live, closed] + w.buckets[1..], last, t);
  }

  lemma {:induction false} NoneUnsent(bs: seq<Bucket>, after: Option<Timespec>)
    requires forall i | 0 <= i < |bs| :: !StartsAfter(bs[i].start, after)
    ensures Unsent(bs, after) == []
  {
    if bs != [] {
      NoneUnsent(bs[1..], after);
    }
  }

  /** An export moves the events of what it hands out, and only those. */
  lemma ExportConserves(sent: seq<Bucket>, last: Option<Timespec>, bs: seq<Bucket>, t: Tally)
    requires bs != [] && Decreasing(bs) && Chained(bs) && InOrder(sent, last, bs)
    ensures var out := Pending(bs, last);
            Sum(out, t) + Sum(Unsent(bs, LastSent(out, last)), t) == Sum(Unsent(bs, last), t)
  {
    var mark := LastSent(Pending(bs, last), last);
    MarkAfterExport(bs, last);
    if bs[0].readOnly {
      NoneUnsent(bs, mark);
      assert bs[0..] == bs;
    } else {
      NoneUnsent(bs[1..], mark);
      SumUnsent(bs, last, t);
      SumUnsent(bs, mark, t);
    }
  }

  lemma ShiftKeepsConserved(s: Sys, t: Tally)
    requires s.w.buckets != [] && |s.w.buckets| <= s.w.periods && Conserves(s, t) && s.pc.Shifting?
    ensures Conserves(Next(s, DoShift), t)
  {
    hide Shift, Expiring, StartsAfter, Unsent, Sum, Value;
    var popped := Expiring(s.w, s.pc.stamp);
    ShiftConserves(s.w, s.pc.stamp, s.last, t);
    if popped.Some? && StartsAfter(popped.value.start, s.last) {
      SumConcat(s.lost, [popped.value], t);
      SumOne(popped.value, t);
    } else {
      assert s.lost + [] == s.lost;
    }
  }

  lemma ExportKeepsConserved(s: Sys, t: Tally)
    requires Core(s) && Conserves(s, t)
    ensures Conserves(Next(s, Export(true)), t)
  {
    ChainedDecreasing(s.w.buckets);
    ExportConserves(s.sent, s.last, s.w.buckets, t);
    SumConcat(s.sent, Pending(s.w.buckets, s.last), t);
  }

  lemma ConservesNext(s: Sys, step: Step, t: Tally)
    requires Core(s) && Conserves(s, t) && Enabled(s, step)
    ensures Conserves(Next(s, step), t)
  {
    match step
    case Test(_, _, _) =>
    case DoShift =>
      ShiftKeepsConserved(s, t);
    case DoCount =>
      SumLive(s.w.buckets, Count(s.w, s.pc.deep).buckets[0], s.last, t);
    case EndStream(stamp) =>
      SumLive(s.w.buckets, Close(s.w.buckets[0], stamp), s.last, t);
    case StartAt(stamp) =>
      SumLive(s.w.buckets, s.w.buckets[0].(start := stamp), s.last, t);
    case Export(ok) =>
      if ok {
        ExportKeepsConserved(s, t);
      }
  }

  lemma ConservedNext(s: Sys, step: Step)
    requires Core(s) && Conserved(s) && Enabled(s, step)
    ensures Conserved(Next(s, step))
  {
    ConservesNext(s, step, Events);
    ConservesNext(s, step, Samples);
  }

  // ---------------------------------------------------------------------------------------------
  // Every window is sent, lost or pending, and only one of these
  // ---------------------------------------------------------------------------------------------

  predicate HasStart(bs: seq<Bucket>, t: Timespec) {
    exists k :: 0 <= k < |bs| && bs[k].start == t
  }

  /** The windows popped so far come before those held, in order. */
  predicate ExpiredInOrder(s: Sys)
    requires s.w.buckets != []
  {
    && Increasing(s.expired)
    && forall k | 0 <= k < |s.expired| :: s.expired[k].start.sec < s.w.buckets[|s.w.buckets| - 1].start.sec
  }

  predicate Accounted(s: Sys)
    requires s.w.buckets != []
  {
    && (forall k | 0 <= k < |s.expired| :: HasStart(s.sent, s.expired[k].start) <==>
        !HasStart(s.lost, s.expired[k].start))
    && (forall i | 0 <= i < |s.w.buckets| :: HasStart(s.sent, s.w.buckets[i].start) <==>
        !StartsAfter(s.w.buckets[i].start, s.last))
    && (forall k | 0 <= k < |s.sent| :: HasStart(s.expired, s.sent[k].start) || HasStart(s.w.buckets, s.sent[k].start))
    && (forall k | 0 <= k < |s.lost| :: HasStart(s.expired, s.lost[k].start))
  }

  lemma ShiftExpired(s: Sys)
    requires Core(s) && ExpiredInOrder(s) && Enabled(s, DoShift)
    ensures ExpiredInOrder(Next(s, DoShift))
  {
    hide StartsAfter, InOrder;
    var s' := Next(s, DoShift);
    ShiftedBuckets(s.w, s.pc.stamp);
    var bs, bs' := s.w.buckets, s'.w.buckets;
    if |bs| == s.w.periods {
      assert s'.expired == s.expired + [bs[|bs| - 1]];
      assert bs'[|bs'| - 1].start == bs[|bs| - 2].start;
    } else {
      assert s'.expired == s.expired;
      assert bs'[|bs'| - 1].start == bs[|bs| - 1].start;
    }
  }

  lemma ExpiredNext(s: Sys, step: Step)
    requires Core(s) && ExpiredInOrder(s) && Enabled(s, step)
    ensures Next(s, step).w.buckets != [] && ExpiredInOrder(Next(s, step))
  {
    if step.DoShift? {
      ShiftExpired(s);
    }
  }

  lemma HasStartConcat(a: seq<Bucket>, b: seq<Bucket>, t: Timespec)
    ensures HasStart(a + b, t) <==> HasStart(a, t) || HasStart(b, t)
  {
    if HasStart(a, t) {
      var k :| 0 <= k < |a| && a[k].start == t;
      assert (a + b)[k].start == t;
    }
    if HasStart(b, t) {
      var k :| 0 <= k < |b| && b[k].start == t;
      assert (a + b)[|a| + k].start == t;
    }
  }

  /** Of the held windows, an export leaves out of `sent` exactly the live one, unless it is closed. */
  lemma ExportHeld(sent: seq<Bucket>, last: Option<Timespec>, bs: seq<Bucket>, i: nat)
    requires bs != [] && Decreasing(bs) && Chained(bs) && i < |bs|
    requires HasStart(sent, bs[i].start) <==> !StartsAfter(bs[i].start, last)
    requires i < NewestClosed(bs) ==> StartsAfter(bs[i].start, last)
    ensures HasStart(sent + Pending(bs, last), bs[i].start) <==> NewestClosed(bs) <= i
  {
    var out := Pending(bs, last);
    var newest := NewestClosed(bs);
    PendingNewest(bs, last);
    HasStartConcat(sent, out, bs[i].start);
    if newest <= i && StartsAfter(bs[i].start, last) {
      assert out[newest + |out| - 1 - i] == bs[i];
    }
    if i < newest {
      forall k | 0 <= k < |out| ensures out[k].start != bs[i].start {
        assert out[k] == bs[newest + |out| - 1 - k];
      }
    }
  }

  /** What an export hands out is held, so it has not expired. */
  lemma ExportNotExpired(bs: seq<Bucket>, last: Option<Timespec>, t: Timespec)
    requires bs != [] && Decreasing(bs) && Chained(bs) && t.sec < bs[|bs| - 1].start.sec
    ensures !HasStart(Pending(bs, last), t)
  {
    var out := Pending(bs, last);
    PendingNewest(bs, last);
    forall k | 0 <= k < |out| ensures out[k].start != t {
      assert out[k] == bs[NewestClosed(bs) + |out| - 1 - k];
    }
  }

  lemma ExportAccounted(s: Sys)
    requires Core(s) && ExpiredInOrder(s) && Accounted(s)
    ensures Accounted(Next(s, Export(true)))
  {
    hide HasStart, StartsAfter, Decreasing, Increasing, Pending, LastSent;
    var bs := s.w.buckets;
    ChainedDecreasing(bs);
    MarkAfterExport(bs, s.last);
    forall k | 0 <= k < |s.expired|
      ensures HasStart(s.sent + Pending(bs, s.last), s.expired[k].start) <==> HasStart(s.sent, s.expired[k].start)
    {
      ExportNotExpired(bs, s.last, s.expired[k].start);
      HasStartConcat(s.sent, Pending(bs, s.last), s.expired[k].start);
    }
    forall i | 0 <= i < |bs| ensures HasStart(s.sent + Pending(bs, s.last), bs[i].start) <==> NewestClosed(bs) <= i {
      ExportHeld(s.sent, s.last, bs, i);
    }
    ExportKnown(s.sent, s.expired, s.last, bs);
  }

  lemma ExportKnown(sent: seq<Bucket>, expired: seq<Bucket>, last: Option<Timespec>, bs: seq<Bucket>)
    requires bs != [] && Decreasing(bs) && Chained(bs)
    requires forall k | 0 <= k < |sent| :: HasStart(expired, sent[k].start) || HasStart(bs, sent[k].start)
    ensures var all := sent + Pending(bs, last);
            forall k | 0 <= k < |all| :: HasStart(expired, all[k].start) || HasStart(bs, all[k].start)
  {
    var out := Pending(bs, last);
    PendingNewest(bs, last);
    forall k | 0 <= k < |out| ensures HasStart(bs, out[k].start) {
      assert out[k] == bs[NewestClosed(bs) + |out| - 1 - k];
    }
  }

  /** No window sent or lost starts as late as the next live one. */
  lemma StampIsNew(s: Sys, t: Timespec)
    requires Core(s) && ExpiredInOrder(s) && Accounted(s) && s.w.buckets[0].start.sec < t.sec
    ensures !HasStart(s.sent, t) && StartsAfter(t, s.last)
  {
    ChainedDecreasing(s.w.buckets);
    forall k | 0 <= k < |s.sent| ensures s.sent[k].start != t {
      assert HasStart(s.expired, s.sent[k].start) || HasStart(s.w.buckets, s.sent[k].start);
    }
  }

  lemma ShiftAccounted(s: Sys)
    requires Core(s) && ExpiredInOrder(s) && Accounted(s) && Enabled(s, DoShift)
    ensures Next(s, DoShift).w.buckets != [] && Accounted(Next(s, DoShift))
  {
    var s' := Next(s, DoShift);
    var bs, bs' := s.w.buckets, s'.w.buckets;
    ShiftedBuckets(s.w, s.pc.stamp);
    StampIsNew(s, s.pc.stamp);
    forall i | 0 <= i < |bs'| ensures HasStart(s'.sent, bs'[i].start) <==> !StartsAfter(bs'[i].start, s'.last) {
      assert 0 < i ==> bs'[i].start == bs[i - 1].start;
    }
    if |bs| == s.w.periods {
      PopAccounted(s, s', bs[|bs| - 1]);
    } else {
      assert s'.expired == s.expired && s'.lost == s.lost;
    }
    forall k | 0 <= k < |s.sent| ensures HasStart(s'.expired, s.sent[k].start) || HasStart(bs', s.sent[k].start) {
      ShiftStillThere(s, s.sent[k].start);
    }
  }

  /** Popping the oldest bucket accounts for it, as sent or as lost. */
  lemma PopAccounted(s: Sys, s': Sys, oldest: Bucket)
    requires s.w.buckets != [] && ExpiredInOrder(s) && Accounted(s) && oldest == s.w.buckets[|s.w.buckets| - 1]
    requires s'.sent == s.sent && s'.expired == s.expired + [oldest]
    requires s'.lost == s.lost + if StartsAfter(oldest.start, s.last) then [oldest] else []
    ensures forall k | 0 <= k < |s'.expired| :: HasStart(s'.sent, s'.expired[k].start) <==>
            !HasStart(s'.lost, s'.expired[k].start)
    ensures forall k | 0 <= k < |s'.lost| :: HasStart(s'.expired, s'.lost[k].start)
  {
    var more := if StartsAfter(oldest.start, s.last) then [oldest] else [];
    assert !HasStart(s.lost, oldest.start);
    forall k | 0 <= k < |s'.expired|
        ensures HasStart(s'.sent, s'.expired[k].start) <==> !HasStart(s'.lost, s'.expired[k].start) {
      HasStartConcat(s.lost, more, s'.expired[k].start);
      assert more != [] ==> more[0].start == oldest.start;
    }
    forall k | 0 <= k < |s'.lost| ensures HasStart(s'.expired, s'.lost[k].start) {
      HasStartConcat(s.expired, [oldest], s'.lost[k].start);
      assert [oldest][0].start == oldest.start;
    }
  }

  /** A shift keeps every window, held or expired. */
  lemma ShiftStillThere(s: Sys, t: Timespec)
    requires Core(s) && Enabled(s, DoShift) && (HasStart(s.expired, t) || HasStart(s.w.buckets, t))
    ensures var s' := Next(s, DoShift); HasStart(s'.expired, t) || HasStart(s'.w.buckets, t)
  {
    var s' := Next(s, DoShift);
    var bs, bs' := s.w.buckets, s'.w.buckets;
    ShiftedBuckets(s.w, s.pc.stamp);
    if HasStart(s.expired, t) {
      HasStartConcat(s.expired, s'.expired[|s.expired|..], t);
      assert s'.expired == s.expired + s'.expired[|s.expired|..];
    } else {
      var i :| 0 <= i < |bs| && bs[i].start == t;
      if i + 1 < |bs'| {
        assert bs'[i + 1].start == t;
      } else {
        assert s'.expired[|s.expired|].start == t;
      }
    }
  }

  lemma AccountedNext(s: Sys, step: Step)
    requires Core(s) && ExpiredInOrder(s) && Accounted(s) && Enabled(s, step)
    ensures Next(s, step).w.buckets != [] && Accounted(Next(s, step))
  {
    match step
    case Test(_, _, _) =>
    case DoShift => ShiftAccounted(s);
    case DoCount => SameStarts(s, Next(s, step));
    case EndStream(_) => SameStarts(s, Next(s, step));
    case StartAt(_) =>
    case Export(ok) =>
      if ok {
        ExportAccounted(s);
      }
  }

  lemma SameStarts(s: Sys, s': Sys)
    requires s.w.buckets != [] && Accounted(s) && |s'.w.buckets| == |s.w.buckets|
    requires s'.last == s.last && s'.sent == s.sent && s'.expired == s.expired && s'.lost == s.lost
    requires forall i | 0 <= i < |s.w.buckets| :: s'.w.buckets[i].start == s.w.buckets[i].start
    ensures Accounted(s')
  {
    forall k | 0 <= k < |s.sent|
        ensures HasStart(s.expired, s.sent[k].start) || HasStart(s'.w.buckets, s.sent[k].start) {
      if HasStart(s.w.buckets, s.sent[k].start) {
        var i :| 0 <= i < |s.w.buckets| && s.w.buckets[i].start == s.sent[k].start;
        assert s'.w.buckets[i].start == s.sent[k].start;
      }
    }
  }

  // ---------------------------------------------------------------------------------------------
  // Loss
  // ---------------------------------------------------------------------------------------------

  /** At most the live bucket and one closed bucket per shift since the last export are unsent. */
  predicate Bounded(s: Sys) {
    |Unsent(s.w.buckets, s.last)| <= s.since + 1
  }

  /** A shift loses a window exactly if every bucket of a full window is unsent. */
  lemma ShiftUnsent(w: Window, stamp: Timespec, last: Option<Timespec>)
    requires MetricsWindow.Inv(w) && WillShift(w, stamp) && StartsAfter(stamp, last)
    ensures var popped := Expiring(w, stamp); var n := |Unsent(w.buckets, last)|;
            && (popped.Some? && StartsAfter(popped.value.start, last) <==> n == w.periods)
            && |Unsent(Shift(w, stamp).buckets, last)| == if n == w.periods then n else n + 1
  {
    hide Unsent, Decreasing;
    var bs, bs' := w.buckets, Shift(w, stamp).buckets;
    ShiftKeeps(w, stamp);
    ShiftedBuckets(w, stamp);
    ChainedDecreasing(bs);
    ChainedDecreasing(bs');
    UnsentNewest(bs, last);
    UnsentNewest(bs', last);
    var n, n' := |Unsent(bs, last)|, |Unsent(bs', last)|;
    if n < |bs'| {
      assert 0 < n ==> bs'[n].start == bs[n - 1].start;
      assert StartsAfter(bs'[n].start, last);
      assert n + 1 < |bs'| ==> bs'[n + 1].start == bs[n].start;
    } else {
      assert bs'[|bs'| - 1].start == bs[|bs'| - 2].start;
    }
  }

  lemma ExportUnsent(sent: seq<Bucket>, last: Option<Timespec>, bs: seq<Bucket>)
    requires bs != [] && Decreasing(bs) && Chained(bs) && InOrder(sent, last, bs)
    ensures |Unsent(bs, LastSent(Pending(bs, last), last))| == NewestClosed(bs)
  {
    var mark := LastSent(Pending(bs, last), last);
    MarkAfterExport(bs, last);
    UnsentNewest(bs, mark);
    assert StartsAfter(bs[0].start, mark) <==> NewestClosed(bs) == 1;
    assert 1 < |bs| ==> !StartsAfter(bs[1].start, mark);
  }

  lemma UnsentLive(bs: seq<Bucket>, b: Bucket, after: Option<Timespec>)
    requires bs != [] && (StartsAfter(b.start, after) <==> StartsAfter(bs[0].start, after))
    ensures |Unsent(bs[0 := b], after)| == |Unsent(bs, after)|
  {
    assert bs[0 := b][1..] == bs[1..];
  }

  lemma ShiftStampLater(s: Sys)
    requires Core(s) && s.pc.Shifting?
    ensures StartsAfter(s.pc.stamp, s.last)
  {
  }

  /** The number of unsent buckets after a step. */
  lemma UnsentNext(s: Sys, step: Step)
    requires Core(s) && Enabled(s, step)
    ensures var n, n' := |Unsent(s.w.buckets, s.last)|, |Unsent(Next(s, step).w.buckets, Next(s, step).last)|;
            n' == if step.DoShift? then (if n == s.w.periods then n else n + 1)
                  else if step == Export(true) then NewestClosed(s.w.buckets) else n
    ensures Next(s, step).lost != s.lost <==> step.DoShift? && |Unsent(s.w.buckets, s.last)| == s.w.periods
  {
    match step
    case Test(_, _, _) =>
    case DoShift =>
      ShiftStampLater(s);
      ShiftUnsent(s.w, s.pc.stamp, s.last);
    case DoCount =>
      UnsentLive(s.w.buckets, Count(s.w, s.pc.deep).buckets[0], s.last);
    case EndStream(stamp) =>
      UnsentLive(s.w.buckets, Close(s.w.buckets[0], stamp), s.last);
    case StartAt(stamp) =>
      UnsentLive(s.w.buckets, s.w.buckets[0].(start := stamp), s.last);
    case Export(_) =>
      ChainedDecreasing(s.w.buckets);
      ExportUnsent(s.sent, s.last, s.w.buckets);
  }

  /** While the stream has not ended, the unsent buckets are exactly the live one and those closed since the last
      export, as far as they are still held. */
  predicate Exact(s: Sys)
    requires s.w.buckets != []
  {
    var n := |Unsent(s.w.buckets, s.last)|;
    !s.w.buckets[0].readOnly && n == if s.since + 1 < s.w.periods then s.since + 1 else s.w.periods
  }

  lemma ExactNext(s: Sys, step: Step)
    requires Core(s) && Exact(s) && Enabled(s, step) && !step.EndStream?
    ensures Next(s, step).w.buckets != [] && Exact(Next(s, step))
  {
    UnsentNext(s, step);
    if step.DoShift? {
      ShiftedBuckets(s.w, s.pc.stamp);
    }
  }

  // ---------------------------------------------------------------------------------------------
  // Over whole runs
  // ---------------------------------------------------------------------------------------------

  predicate Good(s: Sys) {
    Core(s) && ExpiredInOrder(s) && Accounted(s) && Conserved(s) && Bounded(s)
  }

  lemma GoodInit(s: Sys)
    requires Init(s)
    ensures Good(s)
  {
    CoreInit(s);
    AccountedInit(s);
    ConservedInit(s);
  }

  lemma AccountedInit(s: Sys)
    requires Init(s)
    ensures ExpiredInOrder(s) && Accounted(s)
  {
  }

  lemma ConservedInit(s: Sys)
    requires Init(s)
    ensures Conserved(s) && Bounded(s)
  {
    var bs := s.w.buckets;
    assert bs[1..] == [];
    assert Unsent(bs, None) == [bs[0]];
    SumOne(bs[0], Events);
    SumOne(bs[0], Samples);
  }

  lemma GoodNext(s: Sys, step: Step)
    requires Good(s) && Enabled(s, step)
    ensures Good(Next(s, step))
  {
    CoreNext(s, step);
    ExpiredNext(s, step);
    AccountedNext(s, step);
    ConservedNext(s, step);
    UnsentNext(s, step);
  }

  /** In every reachable state: windows were handed out in strictly increasing order of start, each is sent, lost or
      pending and no two of these, no event is missing, and the unsent buckets are bounded by the shifts. */
  lemma {:induction false} RunGood(trace: seq<Sys>, steps: seq<Step>, k: nat)
    requires Run(trace, steps) && k < |trace|
    ensures Good(trace[k])
  {
    if k == 0 {
      GoodInit(trace[0]);
    } else {
      RunGood(trace, steps, k - 1);
      GoodNext(trace[k - 1], steps[k - 1]);
    }
  }

  /** With fewer than `periods - 1` shifts behind it since the last export, no shift loses a window. */
  lemma {:induction false} NoLoss(trace: seq<Sys>, steps: seq<Step>, k: nat)
    requires Run(trace, steps) && k < |trace|
    requires forall j | 0 <= j < k :: steps[j].DoShift? ==> trace[j].since < trace[j].w.periods - 1
    ensures trace[k].lost == []
  {
    if k > 0 {
      NoLoss(trace, steps, k - 1);
      RunGood(trace, steps, k - 1);
      UnsentNext(trace[k - 1], steps[k - 1]);
    }
  }

  /** The bound is tight: while the stream has not ended, a shift beyond it does lose a window. */
  lemma {:induction false} LossIff(trace: seq<Sys>, steps: seq<Step>, k: nat)
    requires Run(trace, steps) && k < |steps| && forall j | 0 <= j <= k :: !steps[j].EndStream?
    ensures trace[k + 1].lost != trace[k].lost <==> steps[k].DoShift? && trace[k].w.periods - 1 <= trace[k].since
  {
    RunExact(trace, steps, k);
    RunGood(trace, steps, k);
    UnsentNext(trace[k], steps[k]);
  }

  lemma {:induction false} RunExact(trace: seq<Sys>, steps: seq<Step>, k: nat)
    requires Run(trace, steps) && k < |trace| && forall j | 0 <= j < k :: !steps[j].EndStream?
    ensures trace[k].w.buckets != [] && Exact(trace[k])
  {
    if k == 0 {
      UnsentNewest(trace[0].w.buckets, None);
    } else {
      RunExact(trace, steps, k - 1);
      RunGood(trace, steps, k - 1);
      ExactNext(trace[k - 1], steps[k - 1]);
    }
  }

  lemma RunOn(trace: seq<Sys>, steps: seq<Step>, step: Step)
    requires Run(trace, steps) && Enabled(trace[|steps|], step)
    ensures Run(trace + [Next(trace[|steps|], step)], steps + [step])
  {
    hide Next, Enabled, Init;
  }

  lemma CountOne(zero: Timespec, first: Timespec) returns (trace: seq<Sys>, steps: seq<Step>)
    requires zero.sec + PERIOD_SEC == first.sec
    ensures Run(trace, steps) && forall k | 0 <= k < |steps| :: !steps[k].Export?
    ensures var b := NewBucket(zero, false).(events := 1);
            trace[|steps|] == Sys(Window(2, [b], first, false), Idle, None, false, [], [], [], 1, 0, 0, 0, 0)
  {
    var w := Window(2, [NewBucket(zero, false)], first, false);
    trace, steps := [Sys(w, Idle, None, false, [], [], [], 0, 0, 0, 0, 0)], [];
    RunOn(trace, steps, Test(zero, true, false));
    trace, steps := trace + [Next(trace[0], Test(zero, true, false))], [Test(zero, true, false)];
    RunOn(trace, steps, DoCount);
    trace, steps := trace + [Next(trace[1], DoCount)], steps + [DoCount];
  }

  /** A run, and the shift at `stamp` after it. */
  lemma ShiftOnce(trace: seq<Sys>, steps: seq<Step>, stamp: Timespec) returns (trace': seq<Sys>, steps': seq<Step>)
    requires Run(trace, steps) && (forall k | 0 <= k < |steps| :: !steps[k].Export?)
    requires var s := trace[|steps|]; s.pc.Idle? && s.w.buckets != [] && WillShift(s.w, stamp)
    ensures Run(trace', steps') && (forall k | 0 <= k < |steps'| :: !steps'[k].Export?)
    ensures trace'[|steps'|] == Next(trace[|steps|].(pc := Shifting(stamp, false, false)), DoShift)
  {
    RunOn(trace, steps, Test(stamp, false, false));
    trace' := trace + [Next(trace[|steps|], Test(stamp, false, false))];
    steps' := steps + [Test(stamp, false, false)];
    RunOn(trace', steps', DoShift);
    trace', steps' := trace' + [Next(trace'[|steps'|], DoShift)], steps' + [DoShift];
  }

  /** A manager of two periods that shifts twice with no export between loses its first window and the event in it. */
  lemma TwoShiftsLose() returns (trace: seq<Sys>, steps: seq<Step>)
    ensures Run(trace, steps) && forall k | 0 <= k < |steps| :: !steps[k].Export?
    ensures var s := trace[|steps|]; s.w.periods == 2 && s.sent == [] && Sum(s.lost, Events) == 1 == s.received
  {
    hide Sum;
    var zero, first, second := Timespec(0, 0), Timespec(60, 0), Timespec(120, 0);
    trace, steps := CountOne(zero, first);
    trace, steps := ShiftOnce(trace, steps, first);
    trace, steps := ShiftOnce(trace, steps, second);
    var s := trace[|steps|];
    assert |s.lost| == 1;
    assert s.lost == [s.lost[0]];
    SumOne(s.lost[0], Events);
  }

  lemma OpenIsUnsent(s: Sys)
    requires Good(s) && !s.w.buckets[0].readOnly
    ensures StartsAfter(s.w.buckets[0].start, s.last)
  {
    hide Accounted, Conserved, Bounded;
  }

  /** An event comes too late only if its stream has ended: while each is counted in an open bucket, none does. */
  lemma {:induction false} NoneLate(trace: seq<Sys>, steps: seq<Step>, k: nat)
    requires Run(trace, steps) && k < |trace|
    requires forall j | 0 <= j < k :: steps[j].DoCount? ==> !trace[j].w.buckets[0].readOnly
    ensures trace[k].late == 0 == trace[k].lateSampled
  {
    hide Good, StartsAfter, Shift, Expiring, Count, Pending, MetricsWindow.Inv;
    if k > 0 {
      NoneLate(trace, steps, k - 1);
      RunGood(trace, steps, k - 1);
      if steps[k - 1].DoCount? {
        OpenIsUnsent(trace[k - 1]);
      }
    }
  }

  /** If nothing was lost, an export leaves no closed window unsent. */
  lemma ExportSendsAll(s: Sys)
    requires Good(s) && s.lost == []
    ensures var s' := Next(s, Export(true));
            && (forall k | 0 <= k < |s.expired| :: HasStart(s'.sent, s.expired[k].start))
            && (forall i | NewestClosed(s.w.buckets) <= i < |s.w.buckets| :: HasStart(s'.sent, s.w.buckets[i].start))
  {
    ExportAccounted(s);
    ChainedDecreasing(s.w.buckets);
    MarkAfterExport(s.w.buckets, s.last);
  }

  // ---------------------------------------------------------------------------------------------
  // How long a window lasts
  // ---------------------------------------------------------------------------------------------

  /** The next window is due a period after the live bucket began. */
  predicate Due(w: Window)
    requires w.buckets != []
  {
    w.next.sec == w.buckets[0].start.sec + PERIOD_SEC
  }

  lemma DueNext(s: Sys, step: Step)
    requires Core(s) && Enabled(s, step) && (Due(s.w) || step.DoShift? || step.StartAt?)
    ensures Next(s, step).w.buckets != [] && Due(Next(s, step).w)
  {
    if step.DoShift? {
      ShiftedBuckets(s.w, s.pc.stamp);
    }
  }

  lemma {:induction false} StaysDue(trace: seq<Sys>, steps: seq<Step>, j: nat, k: nat)
    requires Run(trace, steps) && j < k < |trace| && (steps[j].DoShift? || steps[j].StartAt?)
    ensures trace[k].w.buckets != [] && Due(trace[k].w)
    decreases k
  {
    hide Next, Due;
    RunGood(trace, steps, k - 1);
    if j < k - 1 {
      StaysDue(trace, steps, j, k - 1);
    }
    DueNext(trace[k - 1], steps[k - 1]);
  }

  /** Once a window began with a shift or at a recorded stream's first stamp, a test lets the next shift come exactly if
      a period has passed since, so that the window lasts at least that long. */
  lemma LastsAPeriod(trace: seq<Sys>, steps: seq<Step>, j: nat, k: nat)
    requires Run(trace, steps) && j < k < |steps| && (steps[j].DoShift? || steps[j].StartAt?)
    ensures trace[k].w.buckets != []
    ensures steps[k].Test? ==>
              (trace[k + 1].pc.Shifting? <==>
               trace[k].w.periods > 1 && steps[k].stamp.sec - trace[k].w.buckets[0].start.sec >= 60)
    ensures steps[k].DoShift? ==>
              var after := trace[k + 1].w.buckets;
              && |after| > 1 && after[1].start == trace[k].w.buckets[0].start
              && after[1].end.sec - after[1].start.sec >= 60
  {
    StaysDue(trace, steps, j, k);
    RunGood(trace, steps, k);
    if steps[k].DoShift? {
      ShiftedBuckets(trace[k].w, trace[k].pc.stamp);
    }
  }

  // ---------------------------------------------------------------------------------------------
  // Real time
  // ---------------------------------------------------------------------------------------------

  const SECOND: int := 1_000_000_000

  /** Each shift is stamped with the second it happens in. */
  ghost predicate RealTime(trace: seq<Sys>, steps: seq<Step>, times: seq<int>)
    requires Run(trace, steps)
  {
    && |times| == |steps| && (forall j, k | 0 <= j < k < |times| :: times[j] <= times[k])
    && forall k | 0 <= k < |steps| :: steps[k].DoShift? ==> trace[k].pc.stamp.sec == times[k] / SECOND
  }

  /** Exports that work are at most 30 seconds apart: between two steps further apart than that, there is one. */
  ghost predicate Checked(steps: seq<Step>, times: seq<int>)
    requires |times| == |steps|
  {
    forall j, k | 0 <= j < k < |steps| && times[k] - times[j] > 30 * SECOND :: Exported(steps, j, k)
  }

  ghost predicate Exported(steps: seq<Step>, j: nat, k: nat)
    requires j < k < |steps|
  {
    exists e :: j < e < k && steps[e] == Export(true)
  }

  /** If there was a shift since the last export, it set when the next one is due. */
  lemma {:induction false} LastShift(trace: seq<Sys>, steps: seq<Step>, k: nat)
    requires Run(trace, steps) && k < |trace| && 0 < trace[k].since
    ensures trace[k].shifted
    ensures exists j :: 0 <= j < k && steps[j].DoShift? && trace[k].w.next.sec == trace[j].pc.stamp.sec + PERIOD_SEC
                     && forall e | j < e < k :: steps[e] != Export(true)
  {
    hide Expiring, Pending, StartsAfter;
    if steps[k - 1].DoShift? {
      assert trace[k].w.next.sec == trace[k - 1].pc.stamp.sec + PERIOD_SEC;
    } else {
      LastShift(trace, steps, k - 1);
    }
  }

  lemma FarApart(t: int, u: int)
    requires t / SECOND + PERIOD_SEC <= u / SECOND
    ensures u - t > 30 * SECOND
  {
  }

  /** Two shifts with no export between are further apart than that. */
  lemma ShiftsFarApart(trace: seq<Sys>, steps: seq<Step>, times: seq<int>, n: nat)
    requires Run(trace, steps) && RealTime(trace, steps, times) && n < |steps| && steps[n].DoShift?
    requires 0 < trace[n].since
    ensures exists j :: 0 <= j < n && times[n] - times[j] > 30 * SECOND && !Exported(steps, j, n)
  {
    RunGood(trace, steps, n);
    LastShift(trace, steps, n);
    var j :| 0 <= j < n && steps[j].DoShift? && trace[n].w.next.sec == trace[j].pc.stamp.sec + PERIOD_SEC
          && forall e | j < e < n :: steps[e] != Export(true);
    FarApart(times[j], times[n]);
    assert !Exported(steps, j, n);
  }

  /** With real-time stamps and an export at least every 30 seconds, no window is ever lost. */
  lemma NoLossInRealTime(trace: seq<Sys>, steps: seq<Step>, times: seq<int>, k: nat)
    requires Run(trace, steps) && RealTime(trace, steps, times) && Checked(steps, times) && k < |trace|
    ensures trace[k].lost == []
  {
    forall n | 0 <= n < k && steps[n].DoShift? ensures trace[n].since < trace[n].w.periods - 1 {
      RunGood(trace, steps, n);
      if 0 < trace[n].since {
        ShiftsFarApart(trace, steps, times, n);
      }
    }
    NoLoss(trace, steps, k);
  }
}
