/** Every run of a policy's handlers under its merged export: while no window expires before it is merged, the
    `j`-th push holds the `j`-th closed window of every handler, whichever handler closes its window first. */
module MergedRuns {
  import opened MetricsWindow
  import opened WindowRuns
  import opened MergedExport
  import opened Wrappers

  /** The handlers, the mark, the windows picked for the push under way, and the pushes done, by their starts. */
  datatype Lock = Lock(handlers: seq<Sys>, last: seq<Timespec>, picked: Option<seq<Timespec>>,
                       pushes: seq<seq<Timespec>>)

  /** A step of one handler's event thread; picking the next windows; merging, writing and marking them. */
  datatype Move = Handle(i: nat, step: Step) | Pick | Push(ok: bool)

  function Buckets(l: Lock): (bs: seq<seq<Bucket>>)
    ensures |bs| == |l.handlers| && forall i | 0 <= i < |bs| :: bs[i] == l.handlers[i].w.buckets
  {
    seq(|l.handlers|, i requires 0 <= i < |l.handlers| => l.handlers[i].w.buckets)
  }

  /** Every handler has a live bucket. */
  predicate Held(hs: seq<Sys>) {
    forall i | 0 <= i < |hs| :: hs[i].w.buckets != []
  }

  predicate Ready(l: Lock, m: Move) {
    && Held(l.handlers)
    && match m
       case Handle(i, step) => i < |l.handlers| && !step.Export? && Enabled(l.handlers[i], step)
       case Pick => l.picked.None?
       case Push(_) => l.picked.Some? && |l.picked.value| == |l.handlers|
  }

  /** What a pick finds: the first pending window of every handler, unless some handler has none. */
  ghost function Picked(l: Lock): Option<seq<Timespec>>
    requires Held(l.handlers)
  {
    var bs := Buckets(l);
    if bs == [] || exists i :: 0 <= i < |bs| && PendingOf(bs, l.last, i) == [] then None
    else Some(seq(|bs|, i requires 0 <= i < |bs| && PendingOf(bs, l.last, i) != [] =>
                          PendingOf(bs, l.last, i)[0].start))
  }

  /** The windows picked are all still held. */
  predicate StillHeld(l: Lock)
    requires Ready(l, Push(true))
  {
    forall i | 0 <= i < |l.handlers| :: HeldAt(l.handlers[i].w.buckets, l.picked.value[i]).Some?
  }

  ghost function After(l: Lock, m: Move): Lock
    requires Ready(l, m)
  {
    match m
    case Handle(i, step) => l.(handlers := l.handlers[i := Next(l.handlers[i], step)])
    case Pick => l.(picked := Picked(l))
    case Push(ok) =>
      if ok && StillHeld(l) then l.(last := l.picked.value, pushes := l.pushes + [l.picked.value], picked := None)
      else l.(picked := None)
  }

  /** The windows a handler has closed, oldest first. */
  function History(s: Sys): seq<Bucket>
    requires s.w.buckets != []
  {
    s.expired + Pending(s.w.buckets, None)
  }

  // ---------------------------------------------------------------------------------------------
  // Histories only grow
  // ---------------------------------------------------------------------------------------------

  /** `t` has the windows of `s`, and perhaps more. */
  predicate Extends(t: seq<Bucket>, s: seq<Bucket>) {
    |s| <= |t| && forall k | 0 <= k < |s| :: t[k].start == s[k].start
  }

  /** With no mark, everything closed is pending: the buckets from the newest closed on, oldest first. */
  lemma AllPending(bs: seq<Bucket>)
    requires bs != [] && Decreasing(bs)
    ensures var out := Pending(bs, None);
            |out| == |bs| - NewestClosed(bs) && forall k | 0 <= k < |out| :: out[k] == bs[|bs| - 1 - k]
  {
    var closed := bs[NewestClosed(bs)..];
    UnsentNewest(closed, None);
    assert closed != [] ==> StartsAfter(closed[|closed| - 1].start, None);
  }

  /** A handler's histories are in order, and its steps only add to them. */
  predicate Sound(s: Sys) {
    Core(s) && ExpiredInOrder(s)
  }

  lemma SoundNext(s: Sys, step: Step)
    requires Sound(s) && Enabled(s, step)
    ensures Sound(Next(s, step))
  {
    CoreNext(s, step);
    ExpiredNext(s, step);
  }

  lemma HistoryInOrder(s: Sys)
    requires Sound(s)
    ensures Increasing(History(s))
  {
    var bs := s.w.buckets;
    ChainedDecreasing(bs);
    AllPending(bs);
  }

  /** The `k`-th window a handler closed: popped already, or counted from the oldest bucket held. */
  function Nth(s: Sys, k: nat): Bucket
    requires s.w.buckets != [] && k < |s.expired| + |s.w.buckets|
  {
    if k < |s.expired| then s.expired[k] else s.w.buckets[|s.w.buckets| - 1 - (k - |s.expired|)]
  }

  lemma HistoryNth(s: Sys)
    requires Sound(s)
    ensures |History(s)| == |s.expired| + |s.w.buckets| - NewestClosed(s.w.buckets)
    ensures forall k | 0 <= k < |History(s)| :: History(s)[k] == Nth(s, k)
  {
    ChainedDecreasing(s.w.buckets);
    AllPending(s.w.buckets);
  }

  lemma ShiftNth(s: Sys, k: nat)
    requires Sound(s) && s.pc.Shifting? && k < |s.expired| + |s.w.buckets|
    ensures var s' := Next(s, DoShift);
            && s'.w.buckets != [] && |s'.expired| + |s'.w.buckets| == |s.expired| + |s.w.buckets| + 1
            && Nth(s', k).start == Nth(s, k).start
  {
    var s' := Next(s, DoShift);
    var bs, bs' := s.w.buckets, s'.w.buckets;
    ShiftedBuckets(s.w, s.pc.stamp);
    if |s.expired| <= k {
      var i := |bs| - 1 - (k - |s.expired|);
      if i + 1 < |bs'| {
        assert bs'[i + 1].start == bs[i].start;
      }
    }
  }

  lemma ShiftExtends(s: Sys)
    requires Sound(s) && s.pc.Shifting?
    ensures Sound(Next(s, DoShift)) && Extends(History(Next(s, DoShift)), History(s))
  {
    var s' := Next(s, DoShift);
    SoundNext(s, DoShift);
    HistoryNth(s);
    HistoryNth(s');
    ShiftNth(s, 0);
    forall k | 0 <= k < |History(s)| ensures k < |History(s')| && History(s')[k].start == History(s)[k].start {
      ShiftNth(s, k);
    }
  }

  lemma EndExtends(s: Sys, stamp: Timespec)
    requires Sound(s) && s.pc.Idle?
    ensures Sound(Next(s, EndStream(stamp))) && Extends(History(Next(s, EndStream(stamp))), History(s))
  {
    var s' := Next(s, EndStream(stamp));
    SoundNext(s, EndStream(stamp));
    ChainedDecreasing(s.w.buckets);
    ChainedDecreasing(s'.w.buckets);
    AllPending(s.w.buckets);
    AllPending(s'.w.buckets);
  }

  lemma CountExtends(s: Sys)
    requires Sound(s) && s.pc.Counting?
    ensures Sound(Next(s, DoCount)) && Extends(History(Next(s, DoCount)), History(s))
  {
    var s' := Next(s, DoCount);
    SoundNext(s, DoCount);
    ChainedDecreasing(s.w.buckets);
    ChainedDecreasing(s'.w.buckets);
    AllPending(s.w.buckets);
    AllPending(s'.w.buckets);
  }

  lemma StepExtends(s: Sys, step: Step)
    requires Sound(s) && Enabled(s, step) && !step.Export?
    ensures Sound(Next(s, step)) && Extends(History(Next(s, step)), History(s))
  {
    match step
    case Test(_, _, _) =>
    case DoShift => ShiftExtends(s);
    case DoCount => CountExtends(s);
    case EndStream(stamp) => EndExtends(s, stamp);
    case StartAt(stamp) =>
      SoundNext(s, step);
      AllPending(s.w.buckets);
  }

  // ---------------------------------------------------------------------------------------------
  // Lock step
  // ---------------------------------------------------------------------------------------------

  /** If the mark splits what is held, the windows after it are pending. */
  lemma {:induction false} UnsentAfterMark(bs: seq<Bucket>, mark: Option<Timespec>, k: nat)
    requires k <= |Unsent(bs, None)|
    requires forall i | 0 <= i < |Unsent(bs, None)| :: StartsAfter(Unsent(bs, None)[i].start, mark) <==> k <= i
    ensures Unsent(bs, mark) == Unsent(bs, None)[k..]
  {
    if bs != [] {
      var rest := Unsent(bs[1..], None);
      var all := Unsent(bs, None);
      assert all == rest + [bs[0]];
      hide StartsAfter;
      assert all[|rest|] == bs[0];
      forall i | 0 <= i < |rest| ensures StartsAfter(rest[i].start, mark) <==> k <= i {
        assert all[i] == rest[i];
      }
      if k == |all| {
        UnsentAfterMark(bs[1..], mark, k - 1);
      } else {
        UnsentAfterMark(bs[1..], mark, k);
        assert all[k..] == rest[k..] + [bs[0]];
      }
    }
  }

  /** A handler that merged the first `j` windows it closed, and expired no more than these, merges the next one
      next. */
  lemma NextInHistory(s: Sys, mark: Option<Timespec>, j: nat)
    requires Sound(s) && |s.expired| <= j <= |History(s)|
    requires mark == if j == 0 then None else Some(History(s)[j - 1].start)
    ensures Pending(s.w.buckets, mark) == History(s)[j..]
  {
    var h := History(s);
    var all := Pending(s.w.buckets, None);
    HistoryInOrder(s);
    ChainedDecreasing(s.w.buckets);
    forall i | 0 <= i < |all| ensures StartsAfter(all[i].start, mark) <==> j - |s.expired| <= i {
      assert all[i] == h[|s.expired| + i];
    }
    UnsentAfterMark(s.w.buckets[NewestClosed(s.w.buckets)..], mark, j - |s.expired|);
    assert h[j..] == all[j - |s.expired|..];
  }

  predicate AllSound(hs: seq<Sys>) {
    forall i | 0 <= i < |hs| :: Sound(hs[i])
  }

  /** `row` holds the `j`-th closed window of every handler. */
  predicate OnRow(hs: seq<Sys>, row: seq<Timespec>, j: nat)
    requires Held(hs)
  {
    |row| == |hs| && forall i | 0 <= i < |row| :: j < |History(hs[i])| && row[i] == History(hs[i])[j].start
  }

  predicate InStep(l: Lock)
    requires Held(l.handlers)
  {
    && l.last == (if l.pushes == [] then [] else l.pushes[|l.pushes| - 1])
    && (forall j | 0 <= j < |l.pushes| :: OnRow(l.handlers, l.pushes[j], j))
    && (l.picked.Some? ==> OnRow(l.handlers, l.picked.value, |l.pushes|))
  }

  /** No handler's window has expired before it was merged. */
  predicate NoneSkipped(l: Lock) {
    forall i | 0 <= i < |l.handlers| :: |l.handlers[i].expired| <= |l.pushes|
  }

  lemma HandleInStep(l: Lock, i: nat, step: Step)
    requires AllSound(l.handlers) && Held(l.handlers) && InStep(l) && Ready(l, Handle(i, step))
    ensures AllSound(After(l, Handle(i, step)).handlers) && Held(After(l, Handle(i, step)).handlers)
    ensures InStep(After(l, Handle(i, step)))
  {
    var l' := After(l, Handle(i, step));
    StepExtends(l.handlers[i], step);
    assert AllSound(l'.handlers);
    forall row, j: nat | OnRow(l.handlers, row, j) ensures OnRow(l'.handlers, row, j) {
      RowStays(l.handlers, l'.handlers, row, j, i);
    }
  }

  lemma RowStays(hs: seq<Sys>, hs': seq<Sys>, row: seq<Timespec>, j: nat, i: nat)
    requires Held(hs) && Held(hs') && OnRow(hs, row, j) && i < |hs| == |hs'|
    requires forall k | 0 <= k < |hs| && k != i :: hs'[k] == hs[k]
    requires Extends(History(hs'[i]), History(hs[i]))
    ensures OnRow(hs', row, j)
  {
  }

  /** What a pick finds for a handler. */
  lemma PickedAt(l: Lock, i: nat)
    requires AllSound(l.handlers) && Ready(l, Pick) && Picked(l).Some?
    ensures |Picked(l).value| == |l.handlers|
    ensures i < |l.handlers| ==>
              PendingOf(Buckets(l), l.last, i) != []
              && Picked(l).value[i] == PendingOf(Buckets(l), l.last, i)[0].start
  {
  }

  /** A pick is in step exactly if no handler has skipped a window. */
  lemma PickInStep(l: Lock)
    requires AllSound(l.handlers) && Held(l.handlers) && InStep(l) && Ready(l, Pick) && Picked(l).Some?
    ensures OnRow(l.handlers, Picked(l).value, |l.pushes|) <==> NoneSkipped(l)
  {
    PickedAt(l, 0);
    var n := |l.pushes|;
    if NoneSkipped(l) {
      forall i | 0 <= i < |l.handlers|
        ensures n < |History(l.handlers[i])| && Picked(l).value[i] == History(l.handlers[i])[n].start
      {
        PickedAt(l, i);
        MarkInHistory(l, i);
        NextInHistory(l.handlers[i], MarkOf(Buckets(l), l.last, i), n);
      }
    } else {
      var i :| 0 <= i < |l.handlers| && n < |l.handlers[i].expired|;
      PickedAt(l, i);
      PickedIsHeld(l.handlers[i], MarkOf(Buckets(l), l.last, i), n);
    }
  }

  lemma MarkInHistory(l: Lock, i: nat)
    requires AllSound(l.handlers) && Held(l.handlers) && InStep(l) && i < |l.handlers| && NoneSkipped(l)
    ensures var n := |l.pushes|; var h := History(l.handlers[i]);
            n <= |h| && MarkOf(Buckets(l), l.last, i) == if n == 0 then None else Some(h[n - 1].start)
  {
    if |l.pushes| > 0 {
      assert OnRow(l.handlers, l.pushes[|l.pushes| - 1], |l.pushes| - 1);
    }
  }

  /** A window that is picked is held, so it is none of the expired. */
  lemma PickedIsHeld(s: Sys, mark: Option<Timespec>, n: nat)
    requires Sound(s) && n < |s.expired| && Pending(s.w.buckets, mark) != []
    ensures Pending(s.w.buckets, mark)[0].start != History(s)[n].start
  {
    var bs := s.w.buckets;
    ChainedDecreasing(bs);
    PendingNewest(bs, mark);
    var out := Pending(bs, mark);
    assert out[0] == bs[NewestClosed(bs) + |out| - 1];
    assert History(s)[n] == s.expired[n];
  }

  lemma PickKeepsStep(l: Lock)
    requires Ready(l, Pick) && InStep(l) && (Picked(l).Some? ==> OnRow(l.handlers, Picked(l).value, |l.pushes|))
    ensures After(l, Pick).handlers == l.handlers && InStep(After(l, Pick))
  {
    hide Held, OnRow, Picked;
  }

  lemma PushKeepsStep(l: Lock, ok: bool)
    requires Held(l.handlers) && InStep(l) && Ready(l, Push(ok))
    ensures After(l, Push(ok)).handlers == l.handlers && InStep(After(l, Push(ok)))
  {
    hide Held, OnRow, Picked;
  }

  lemma InStepAfter(l: Lock, m: Move)
    requires AllSound(l.handlers) && Held(l.handlers) && InStep(l) && Ready(l, m) && (m.Pick? ==> NoneSkipped(l))
    ensures AllSound(After(l, m).handlers) && Held(After(l, m).handlers) && InStep(After(l, m))
  {
    match m
    case Handle(i, step) => HandleInStep(l, i, step);
    case Pick =>
      if Picked(l).Some? {
        PickInStep(l);
      }
      PickKeepsStep(l);
    case Push(ok) => PushKeepsStep(l, ok);
  }

  ghost predicate MergedRun(trace: seq<Lock>, moves: seq<Move>) {
    && |trace| == |moves| + 1
    && (forall i | 0 <= i < |trace[0].handlers| :: Init(trace[0].handlers[i]))
    && trace[0].last == [] && trace[0].picked == None && trace[0].pushes == []
    && forall k | 0 <= k < |moves| :: Ready(trace[k], moves[k]) && trace[k + 1] == After(trace[k], moves[k])
  }

  /** In every run in which no window had expired unmerged when a pick was made, the `j`-th push holds exactly the
      `j`-th closed window of every handler. */
  lemma {:induction false} LockStep(trace: seq<Lock>, moves: seq<Move>, k: nat)
    requires MergedRun(trace, moves) && k < |trace|
    requires forall j | 0 <= j < k :: moves[j].Pick? ==> NoneSkipped(trace[j])
    ensures AllSound(trace[k].handlers) && Held(trace[k].handlers) && InStep(trace[k])
  {
    if k == 0 {
      forall i | 0 <= i < |trace[0].handlers| ensures Sound(trace[0].handlers[i]) {
        CoreInit(trace[0].handlers[i]);
      }
    } else {
      LockStep(trace, moves, k - 1);
      InStepAfter(trace[k - 1], moves[k - 1]);
    }
  }

  // ---------------------------------------------------------------------------------------------
  // Without that condition, no window is pushed twice
  // ---------------------------------------------------------------------------------------------

  predicate Later(row: seq<Timespec>, earlier: seq<Timespec>) {
    |row| == |earlier| && forall i | 0 <= i < |row| :: StartsAfter(row[i], Some(earlier[i]))
  }

  /** Each push is later than those before it, for every handler, and so is the pick under way. */
  predicate Rising(l: Lock) {
    && l.last == (if l.pushes == [] then [] else l.pushes[|l.pushes| - 1])
    && (forall j | 0 <= j < |l.pushes| :: |l.pushes[j]| == |l.handlers|)
    && (forall j, k | 0 <= j < k < |l.pushes| :: Later(l.pushes[k], l.pushes[j]))
    && (l.picked.Some? ==> |l.picked.value| == |l.handlers| && (l.pushes != [] ==> Later(l.picked.value, l.last)))
  }

  lemma RisingAfter(l: Lock, m: Move)
    requires AllSound(l.handlers) && Rising(l) && Ready(l, m)
    ensures AllSound(After(l, m).handlers) && Rising(After(l, m))
  {
    match m
    case Handle(i, step) => SoundNext(l.handlers[i], step);
    case Pick =>
      if Picked(l).Some? {
        PickLater(l);
      }
    case Push(ok) =>
      PushRising(l, After(l, m));
  }

  lemma PushRising(l: Lock, l': Lock)
    requires Rising(l) && l.picked.Some? && l'.handlers == l.handlers && l'.picked == None
    requires (l'.pushes == l.pushes && l'.last == l.last)
             || (l'.pushes == l.pushes + [l.picked.value] && l'.last == l.picked.value)
    ensures Rising(l')
  {
    forall j, k | 0 <= j < k < |l'.pushes| ensures Later(l'.pushes[k], l'.pushes[j]) {
      if k == |l.pushes| && j < |l.pushes| - 1 {
        assert Later(l.pushes[|l.pushes| - 1], l.pushes[j]);
      }
    }
  }

  lemma PickLater(l: Lock)
    requires AllSound(l.handlers) && Rising(l) && Ready(l, Pick) && Picked(l).Some?
    ensures |Picked(l).value| == |l.handlers| && (l.pushes != [] ==> Later(Picked(l).value, l.last))
  {
    PickedAt(l, 0);
    if l.pushes != [] {
      forall i | 0 <= i < |l.handlers| ensures StartsAfter(Picked(l).value[i], Some(l.last[i])) {
        PickedAt(l, i);
        var bs := l.handlers[i].w.buckets;
        ChainedDecreasing(bs);
        PendingNewest(bs, Some(l.last[i]));
        var out := Pending(bs, Some(l.last[i]));
        assert out[0] == bs[NewestClosed(bs) + |out| - 1];
      }
    }
  }

  /** In every run, whatever expires, no handler's window is pushed twice, and each handler's go out in order. */
  lemma {:induction false} PushedOnce(trace: seq<Lock>, moves: seq<Move>, k: nat)
    requires MergedRun(trace, moves) && k < |trace|
    ensures AllSound(trace[k].handlers) && Rising(trace[k])
  {
    if k == 0 {
      forall i | 0 <= i < |trace[0].handlers| ensures Sound(trace[0].handlers[i]) {
        CoreInit(trace[0].handlers[i]);
      }
    } else {
      PushedOnce(trace, moves, k - 1);
      RisingAfter(trace[k - 1], moves[k - 1]);
    }
  }
}
