/** When a merged export stays in step: an exact bound on the shifts of each handler, and what keeps to it in real
    time. */
module MergedTime {
  import opened MergedExport
  import opened MergedRuns
  import opened MetricsWindow
  import opened WindowRuns
  import opened Wrappers

  // ---------------------------------------------------------------------------------------------
  // Shifts against pushes
  // ---------------------------------------------------------------------------------------------

  /** A handler keeps every bucket until it has as many as it may. Under a merged export it does not export by
      itself, so that `since` counts all its shifts. */
  predicate Counted(s: Sys) {
    && |s.w.buckets| == (if s.since < s.w.periods then s.since + 1 else s.w.periods)
    && |s.expired| + |s.w.buckets| == s.since + 1
  }

  lemma CountedNext(s: Sys, step: Step)
    requires Core(s) && Counted(s) && Enabled(s, step) && !step.Export?
    ensures Counted(Next(s, step))
  {
    hide InOrder, Chained, LengthsOk;
    if step.DoShift? {
      ShiftedBuckets(s.w, s.pc.stamp);
    }
  }

  predicate AllCounted(hs: seq<Sys>) {
    forall i | 0 <= i < |hs| :: Counted(hs[i])
  }

  /** What a move does to one handler. */
  lemma HandlerAfter(l: Lock, m: Move, i: nat)
    requires Ready(l, m) && i < |l.handlers|
    ensures |After(l, m).handlers| == |l.handlers|
    ensures m.Handle? && m.i == i ==> Enabled(l.handlers[i], m.step) && !m.step.Export?
    ensures After(l, m).handlers[i] == if m.Handle? && m.i == i then Next(l.handlers[i], m.step) else l.handlers[i]
  {
    hide Next, Picked, StillHeld;
  }

  lemma SameMany(l: Lock, m: Move)
    requires Ready(l, m)
    ensures |After(l, m).handlers| == |l.handlers|
  {
    hide Next, Picked, StillHeld;
  }

  lemma SoundIsCore(s: Sys)
    requires Sound(s)
    ensures Core(s)
  {
  }

  lemma RunMove(trace: seq<Lock>, moves: seq<Move>, k: nat)
    requires MergedRun(trace, moves) && (k < |moves| || k + 1 < |trace|)
    ensures |trace| == |moves| + 1 && Ready(trace[k], moves[k]) && trace[k + 1] == After(trace[k], moves[k])
  {
  }

  lemma {:induction false} RunCounted(trace: seq<Lock>, moves: seq<Move>, k: nat)
    requires MergedRun(trace, moves) && k < |trace|
    ensures |trace[k].handlers| == |trace[0].handlers| && AllSound(trace[k].handlers) && AllCounted(trace[k].handlers)
  {
    PushedOnce(trace, moves, k);
    if k > 0 {
      RunCounted(trace, moves, k - 1);
      var l, m := trace[k - 1], moves[k - 1];
      hide Rising, Sound, Next, After, Counted, MergedRun;
      RunMove(trace, moves, k - 1);
      if trace[0].handlers != [] {
        HandlerAfter(l, m, 0);
      } else {
        SameMany(l, m);
      }
      forall i | 0 <= i < |l.handlers| ensures Counted(After(l, m).handlers[i]) {
        HandlerAfter(l, m, i);
        if m.Handle? && m.i == i {
          SoundIsCore(l.handlers[i]);
          CountedNext(l.handlers[i], m.step);
        }
      }
    }
  }

  /** Each handler has shifted fewer times than it keeps buckets, beyond the windows pushed. */
  predicate Within(l: Lock) {
    forall i | 0 <= i < |l.handlers| :: l.handlers[i].since < |l.pushes| + l.handlers[i].w.periods
  }

  /** No window has expired unmerged exactly while every handler is within its bound. */
  lemma NoneSkippedIff(trace: seq<Lock>, moves: seq<Move>, k: nat)
    requires MergedRun(trace, moves) && k < |trace|
    ensures NoneSkipped(trace[k]) <==> Within(trace[k])
  {
    RunCounted(trace, moves, k);
    var l := trace[k];
    hide MergedRun, Sound;
    forall i | 0 <= i < |l.handlers|
      ensures |l.handlers[i].expired| <= |l.pushes| <==> l.handlers[i].since < |l.pushes| + l.handlers[i].w.periods
    {
      assert Counted(l.handlers[i]);
    }
  }

  /** As long as every pick before was within the bounds, the next push is in step exactly if this pick is. */
  lemma PickInStepIff(trace: seq<Lock>, moves: seq<Move>, k: nat)
    requires MergedRun(trace, moves) && k < |moves| && moves[k].Pick? && Picked(trace[k]).Some?
    requires forall j | 0 <= j < k && moves[j].Pick? :: Within(trace[j])
    ensures Held(trace[k].handlers)
    ensures OnRow(trace[k].handlers, Picked(trace[k]).value, |trace[k].pushes|) <==> Within(trace[k])
  {
    hide Within, NoneSkipped, InStep, OnRow, AllSound;
    forall j | 0 <= j < k && moves[j].Pick? ensures NoneSkipped(trace[j]) {
      NoneSkippedIff(trace, moves, j);
    }
    LockStep(trace, moves, k);
    NoneSkippedIff(trace, moves, k);
    PickInStep(trace[k]);
  }

  lemma MergedOn(trace: seq<Lock>, moves: seq<Move>, m: Move)
    requires MergedRun(trace, moves) && Ready(trace[|moves|], m)
    ensures MergedRun(trace + [After(trace[|moves|], m)], moves + [m])
  {
    hide After, Ready, Init;
  }

  predicate NoPicks(moves: seq<Move>) {
    forall k | 0 <= k < |moves| :: !moves[k].Pick?
  }

  function ShiftedAt(s: Sys, stamp: Timespec): Sys
    requires s.w.buckets != []
  {
    Next(s.(pc := Shifting(stamp, false, false)), DoShift)
  }

  /** A run, and the shift of handler `i` at `stamp` after it. */
  lemma ShiftOf(trace: seq<Lock>, moves: seq<Move>, i: nat, stamp: Timespec)
    returns (trace': seq<Lock>, moves': seq<Move>)
    requires MergedRun(trace, moves) && NoPicks(moves) && Held(trace[|moves|].handlers)
    requires var hs := trace[|moves|].handlers; i < |hs| && hs[i].pc.Idle? && WillShift(hs[i].w, stamp)
    ensures MergedRun(trace', moves') && NoPicks(moves') && |trace'| == |moves'| + 1
    ensures var l := trace[|moves|];
            trace'[|moves'|] == l.(handlers := l.handlers[i := ShiftedAt(l.handlers[i], stamp)])
  {
    var test, shift := Handle(i, Test(stamp, false, false)), Handle(i, DoShift);
    MergedOn(trace, moves, test);
    trace', moves' := trace + [After(trace[|moves|], test)], moves + [test];
    MergedOn(trace', moves', shift);
    trace', moves' := trace' + [After(trace'[|moves'|], shift)], moves' + [shift];
    var hs := trace[|moves|].handlers;
    assert hs[i := Next(hs[i], test.step)][i := ShiftedAt(hs[i], stamp)] == hs[i := ShiftedAt(hs[i], stamp)];
  }

  lemma OnePending(bs: seq<Bucket>)
    requires |bs| == 2 && !bs[0].readOnly
    ensures Pending(bs, None) == [bs[1]]
  {
    var closed := bs[1..];
    assert closed == [bs[1]] && closed[1..] == [] && Unsent([], None) == [];
    assert Unsent(closed, None) == Unsent(closed[1..], None) + [closed[0]];
  }

  lemma FirstPicked(l: Lock, first: Timespec, second: Timespec)
    requires Held(l.handlers) && |l.handlers| == 2 && l.last == [] && l.picked == None
    requires var a := l.handlers[0].w.buckets; |a| == 2 && !a[0].readOnly && a[1].start == first
    requires var b := l.handlers[1].w.buckets; |b| == 2 && !b[0].readOnly && b[1].start == second
    ensures Ready(l, Pick) && Picked(l) == Some([first, second])
  {
    hide Pending;
    OnePending(l.handlers[0].w.buckets);
    OnePending(l.handlers[1].w.buckets);
    assert Picked(l).value == [first, second];
  }

  lemma MergedStart(hs: seq<Sys>)
    requires forall i | 0 <= i < |hs| :: Init(hs[i])
    ensures MergedRun([Lock(hs, [], None, [])], [])
  {
  }

  /** Of two handlers that keep two buckets each, one shifts twice before the other shifts once: the first push then
      holds the second window of the one and the first of the other. */
  lemma PickSkips() returns (trace: seq<Lock>, moves: seq<Move>)
    ensures MergedRun(trace, moves) && NoPicks(moves)
    ensures var l := trace[|moves|];
            && Ready(l, Pick) && Picked(l) == Some([Timespec(60, 0), Timespec(0, 0)]) && l.pushes == []
            && !OnRow(l.handlers, Picked(l).value, 0)
  {
    hide OnRow, MergedRun, InStep, Sound, Picked, After;
    var zero, first, second := Timespec(0, 0), Timespec(60, 0), Timespec(120, 0);
    var s := Sys(Window(2, [NewBucket(zero, false)], first, false), Idle, None, false, [], [], [], 0, 0, 0, 0, 0);
    MergedStart([s, s]);
    trace, moves := [Lock([s, s], [], None, [])], [];
    trace, moves := ShiftOf(trace, moves, 0, first);
    trace, moves := ShiftOf(trace, moves, 0, second);
    trace, moves := ShiftOf(trace, moves, 1, first);
    var l := trace[|moves|];
    FirstPicked(l, first, zero);
    LockStep(trace, moves, |moves|);
    PickInStep(l);
  }

  // ---------------------------------------------------------------------------------------------
  // Real time
  // ---------------------------------------------------------------------------------------------

  /** Each shift is stamped with the second it happens in. */
  ghost predicate Stamped(trace: seq<Lock>, moves: seq<Move>, times: seq<int>)
    requires MergedRun(trace, moves)
  {
    && |times| == |moves| && (forall j, k | 0 <= j < k < |times| :: times[j] <= times[k])
    && forall k | 0 <= k < |moves| && moves[k].Handle? && moves[k].step.DoShift? ::
         trace[k].handlers[moves[k].i].pc.stamp.sec == times[k] / SECOND
  }

  /** A pick that finds nothing more to push ends an export that worked. */
  ghost predicate Drained(l: Lock, m: Move) {
    m.Pick? && Ready(l, m) && Picked(l).None?
  }

  ghost predicate DrainedBetween(trace: seq<Lock>, moves: seq<Move>, j: nat, k: nat)
    requires j <= k <= |moves| <= |trace|
  {
    exists e :: j <= e < k && Drained(trace[e], moves[e])
  }

  /** Exports that work are at most 30 seconds apart. */
  ghost predicate DrainedOften(trace: seq<Lock>, moves: seq<Move>, times: seq<int>)
    requires |times| == |moves| <= |trace|
  {
    forall j, k | 0 <= j < k < |moves| && times[k] - times[j] > 30 * SECOND :: DrainedBetween(trace, moves, j, k)
  }

  /** Streams that are not at their end. */
  ghost predicate Running(moves: seq<Move>) {
    forall k | 0 <= k < |moves| && moves[k].Handle? :: !moves[k].step.EndStream?
  }

  /** No handler runs ahead of another by more windows than it keeps closed, less one. */
  predicate Together(l: Lock) {
    forall i, k | 0 <= i < |l.handlers| && 0 <= k < |l.handlers| ::
      l.handlers[i].since + 2 <= l.handlers[k].since + l.handlers[i].w.periods
  }

  /** A step that is no shift. */
  lemma NoShift(s: Sys, step: Step)
    requires Enabled(s, step) && !step.DoShift? && !step.Export?
    ensures var s' := Next(s, step); s'.since == s.since && (s.shifted ==> s'.shifted && s'.w.next == s.w.next)
  {
  }

  lemma ShiftDue(s: Sys)
    requires Enabled(s, DoShift)
    ensures var s' := Next(s, DoShift);
            s'.since == s.since + 1 && s'.shifted && s'.w.next.sec == s.pc.stamp.sec + PERIOD_SEC
  {
  }

  /** The shift of handler `i` by move `j` sets when its next one is due after `n` moves. */
  ghost predicate ShiftSets(trace: seq<Lock>, j: nat, i: nat, n: nat) {
    && j < n < |trace| && i < |trace[j].handlers| && i < |trace[n].handlers| && trace[j].handlers[i].pc.Shifting?
    && trace[n].handlers[i].w.next.sec == trace[j].handlers[i].pc.stamp.sec + PERIOD_SEC
  }

  /** If a handler has shifted since move `d`, its last shift set when the next is due. */
  lemma {:induction false} LastShiftOf(trace: seq<Lock>, moves: seq<Move>, i: nat, d: nat, n: nat)
    requires MergedRun(trace, moves) && d <= n < |trace| && i < |trace[d].handlers| == |trace[n].handlers|
    requires trace[d].handlers[i].since < trace[n].handlers[i].since
    ensures trace[n].handlers[i].shifted
    ensures exists j :: d <= j < n && moves[j] == Handle(i, DoShift) && ShiftSets(trace, j, i, n)
  {
    hide Next, After, MergedRun, Ready;
    RunMove(trace, moves, n - 1);
    RunCounted(trace, moves, n - 1);
    RunCounted(trace, moves, n);
    var l, m := trace[n - 1], moves[n - 1];
    HandlerAfter(l, m, i);
    if m == Handle(i, DoShift) {
      ShiftDue(l.handlers[i]);
      assert ShiftSets(trace, n - 1, i, n);
    } else {
      if m.Handle? && m.i == i {
        NoShift(l.handlers[i], m.step);
      }
      LastShiftOf(trace, moves, i, d, n - 1);
      var j :| d <= j < n - 1 && moves[j] == Handle(i, DoShift) && ShiftSets(trace, j, i, n - 1);
      assert ShiftSets(trace, j, i, n);
    }
  }

  lemma DueBefore(s: Sys)
    requires Sound(s) && s.pc.Shifting?
    ensures s.w.next.sec <= s.pc.stamp.sec
  {
  }

  lemma TwoShifts(trace: seq<Lock>, moves: seq<Move>, times: seq<int>, i: nat, d: nat, n: nat)
    requires MergedRun(trace, moves) && Stamped(trace, moves, times) && DrainedOften(trace, moves, times)
    requires d <= n < |moves| && i < |trace[d].handlers| == |trace[n].handlers|
    requires trace[d].handlers[i].since < trace[n].handlers[i].since && moves[n] == Handle(i, DoShift)
    ensures DrainedBetween(trace, moves, d, n)
  {
    hide Drained;
    LastShiftOf(trace, moves, i, d, n);
    var j :| d <= j < n && moves[j] == Handle(i, DoShift) && ShiftSets(trace, j, i, n);
    PushedOnce(trace, moves, n);
    DueBefore(trace[n].handlers[i]);
    RunMove(trace, moves, n);
    FarApart(times[j], times[n]);
    assert DrainedBetween(trace, moves, j, n);
  }

  /** Between two exports that work, a handler shifts at most once. */
  lemma {:induction false} OneShift(trace: seq<Lock>, moves: seq<Move>, times: seq<int>, i: nat, d: nat, n: nat)
    requires MergedRun(trace, moves) && Stamped(trace, moves, times) && DrainedOften(trace, moves, times)
    requires d <= n < |trace| && i < |trace[0].handlers| && !DrainedBetween(trace, moves, d, n)
    ensures |trace[d].handlers| == |trace[n].handlers| == |trace[0].handlers|
    ensures trace[n].handlers[i].since <= trace[d].handlers[i].since + 1
    decreases n
  {
    hide Stamped, DrainedOften, MergedRun, After, Next, Ready, AllSound, AllCounted, Drained;
    RunCounted(trace, moves, d);
    RunCounted(trace, moves, n);
    if d < n {
      RunMove(trace, moves, n - 1);
      OneShift(trace, moves, times, i, d, n - 1);
      HandlerAfter(trace[n - 1], moves[n - 1], i);
      if moves[n - 1] == Handle(i, DoShift) {
        ShiftDue(trace[n - 1].handlers[i]);
        if trace[d].handlers[i].since < trace[n - 1].handlers[i].since {
          TwoShifts(trace, moves, times, i, d, n - 1);
        }
      } else if moves[n - 1].Handle? && moves[n - 1].i == i {
        NoShift(trace[n - 1].handlers[i], moves[n - 1].step);
      }
    }
  }

  lemma OpenNext(s: Sys, step: Step)
    requires Core(s) && Enabled(s, step) && !step.EndStream? && !s.w.buckets[0].readOnly
    ensures var bs := Next(s, step).w.buckets; bs != [] && !bs[0].readOnly
  {
    if step.DoShift? {
      ShiftedBuckets(s.w, s.pc.stamp);
    }
  }

  lemma {:induction false} StillOpen(trace: seq<Lock>, moves: seq<Move>, k: nat)
    requires MergedRun(trace, moves) && Running(moves) && k < |trace|
    ensures Held(trace[k].handlers)
    ensures forall i | 0 <= i < |trace[k].handlers| :: !trace[k].handlers[i].w.buckets[0].readOnly
  {
    RunCounted(trace, moves, k);
    if k > 0 {
      StillOpen(trace, moves, k - 1);
      hide MergedRun, After, Next, Ready, Sound;
      RunMove(trace, moves, k - 1);
      RunCounted(trace, moves, k - 1);
      forall i | 0 <= i < |trace[k].handlers|
        ensures trace[k].handlers[i].w.buckets != [] && !trace[k].handlers[i].w.buckets[0].readOnly
      {
        HandlerAfter(trace[k - 1], moves[k - 1], i);
        if moves[k - 1].Handle? && moves[k - 1].i == i {
          SoundIsCore(trace[k - 1].handlers[i]);
          OpenNext(trace[k - 1].handlers[i], moves[k - 1].step);
        }
      }
    }
  }

  /** When a pick finds nothing, some handler has all the windows it closed pushed. */
  lemma DrainedOne(l: Lock)
    requires AllSound(l.handlers) && AllCounted(l.handlers) && Held(l.handlers) && InStep(l) && NoneSkipped(l)
    requires l.handlers != [] && l.picked.None? && Picked(l).None?
    requires forall i | 0 <= i < |l.handlers| :: !l.handlers[i].w.buckets[0].readOnly
    ensures exists i :: 0 <= i < |l.handlers| && l.handlers[i].since <= |l.pushes|
  {
    hide InStep, Sound;
    var i :| 0 <= i < |Buckets(l)| && PendingOf(Buckets(l), l.last, i) == [];
    MarkInHistory(l, i);
    NextInHistory(l.handlers[i], MarkOf(Buckets(l), l.last, i), |l.pushes|);
    HistoryNth(l.handlers[i]);
    assert l.handlers[i].since <= |l.pushes|;
  }

  lemma {:induction false} PushesGrow(trace: seq<Lock>, moves: seq<Move>, d: nat, n: nat)
    requires MergedRun(trace, moves) && d <= n < |trace|
    ensures |trace[d].pushes| <= |trace[n].pushes|
  {
    if d < n {
      PushesGrow(trace, moves, d, n - 1);
    }
  }

  /** Some handler is at most one window ahead of the pushes. `m` is a move after which no export has worked. */
  lemma {:induction false} OneNear(trace: seq<Lock>, moves: seq<Move>, times: seq<int>, m: nat, n: nat)
    requires MergedRun(trace, moves) && Stamped(trace, moves, times) && DrainedOften(trace, moves, times)
    requires Running(moves)
    requires m <= n < |trace| && !DrainedBetween(trace, moves, m, n) && trace[0].handlers != []
    requires forall j | 0 <= j < n && moves[j].Pick? :: NoneSkipped(trace[j])
    ensures exists i :: 0 <= i < |trace[n].handlers| && trace[n].handlers[i].since <= |trace[n].pushes| + 1
    decreases m
  {
    hide Stamped, DrainedOften, Running, InStep, AllSound, AllCounted, NoneSkipped, Next, Picked;
    if m == 0 {
      OneShift(trace, moves, times, 0, 0, n);
    } else if Drained(trace[m - 1], moves[m - 1]) {
      var l := trace[m - 1];
      LockStep(trace, moves, m - 1);
      RunCounted(trace, moves, m - 1);
      StillOpen(trace, moves, m - 1);
      DrainedOne(l);
      var i :| 0 <= i < |l.handlers| && l.handlers[i].since <= |l.pushes|;
      RunMove(trace, moves, m - 1);
      HandlerAfter(l, moves[m - 1], i);
      OneShift(trace, moves, times, i, m, n);
      PushesGrow(trace, moves, m - 1, n);
    } else {
      OneNear(trace, moves, times, m - 1, n);
    }
  }

  lemma NearIsWithin(l: Lock)
    requires Together(l) && exists i :: 0 <= i < |l.handlers| && l.handlers[i].since <= |l.pushes| + 1
    ensures Within(l)
  {
  }

  /** With real-time stamps, an export at least every 30 seconds and no handler too far ahead of another, no window is
      ever skipped, so that every push is in step. */
  lemma {:induction false} InStepInRealTime(trace: seq<Lock>, moves: seq<Move>, times: seq<int>, k: nat)
    requires MergedRun(trace, moves) && Stamped(trace, moves, times) && DrainedOften(trace, moves, times)
    requires Running(moves)
    requires k < |trace| && forall j | 0 <= j < k && moves[j].Pick? :: Together(trace[j])
    ensures forall j | 0 <= j < k && moves[j].Pick? :: NoneSkipped(trace[j])
    ensures Held(trace[k].handlers) && InStep(trace[k])
  {
    if k > 0 {
      InStepInRealTime(trace, moves, times, k - 1);
      RunCounted(trace, moves, k - 1);
      if moves[k - 1].Pick? && trace[0].handlers != [] {
        OneNear(trace, moves, times, k - 1, k - 1);
        NearIsWithin(trace[k - 1]);
        NoneSkippedIff(trace, moves, k - 1);
      }
    }
    LockStep(trace, moves, k);
  }
}
