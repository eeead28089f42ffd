/** Every run of the I/O thread with its producers and the caller that destroys it. A producer tests for shutdown and
    inserts in separate steps; the thread takes one frame at a time; destroying waits for the thread to end. */
module IoRuns {
  import opened IoThread

  /** Where the thread is, and, once it has ended, where the caller that destroys it is. */
  datatype Pc = Top | Scanning(i: nat, total: nat, draining: bool) | Waiting | Closing | Done | Freeing(i: nat) | Gone

  /** `inFlight` counts the producers that passed the shutdown test and have not inserted yet. */
  datatype Sys = Sys(io: Io, pc: Pc, shutting: bool, inFlight: nat)

  datatype Step =
    | Check
    | Insert(q: nat, data: nat, len: nat)
    | Shut
    | Turn(opens: bool)
    | Take
    | EndScan
    | Wake(timedOut: bool)
    | Finish
    | Join
    | Free
    | EndFree

  predicate Init(s: Sys) {
    var n := |s.io.queues|;
    && s == Sys(Io(s.io.queues, s.io.counts, [], 0, s.io.open, 0, [], [], [], []), Top, false, 0)
    && |s.io.counts| == n && forall i | 0 <= i < n :: s.io.queues[i] == [] && s.io.counts[i] == 0
  }

  /** The queues are freed only once no producer is between its test and its insertion. */
  predicate Enabled(s: Sys, step: Step) {
    && |s.io.queues| == |s.io.counts|
    && match step
       case Check => !s.shutting
       case Insert(q, data, len) => 0 < s.inFlight && q < |s.io.queues| && data != 0 && ValidLength(len)
       case Shut => true
       case Turn(_) => s.pc.Top?
       case Take => s.pc.Scanning? && s.pc.i < |s.io.queues|
       case EndScan => s.pc.Scanning? && s.pc.i == |s.io.queues|
       case Wake(_) => s.pc.Waiting?
       case Finish => s.pc.Closing?
       case Join => s.pc.Done? && s.shutting && s.inFlight == 0
       case Free => s.pc.Freeing? && s.pc.i < |s.io.queues|
       case EndFree => s.pc.Freeing? && s.pc.i == |s.io.queues|
  }

  function Next(s: Sys, step: Step, o: Options, ok: nat -> bool): Sys
    requires Enabled(s, step)
  {
    match step
    case Check => s.(inFlight := s.inFlight + 1)
    case Insert(q, data, len) =>
      s.(inFlight := s.inFlight - 1,
         io := if |s.io.queues[q]| + 1 < o.inputQueueSize then Accepted(s.io, Frame(data, len, q, s.io.counts[q]))
             else s.io)
    case Shut => s.(shutting := true)
    case Turn(opens) =>
      if s.shutting then s.(pc := Scanning(0, 0, true))
      else s.(pc := Scanning(0, 0, false), io := s.io.(open := s.io.open || opens))
    case Take =>
      s.(io := Took(s.io, o, ok, s.pc.i),
         pc := Scanning(s.pc.i + 1, s.pc.total + if s.io.queues[s.pc.i] != [] then 1 else 0, s.pc.draining))
    case EndScan =>
      s.(pc := if s.pc.draining then if s.pc.total > 0 then Scanning(0, 0, true) else Closing
               else if s.pc.total > 0 then Top else Waiting)
    case Wake(timedOut) => s.(pc := Top, io := if timedOut then Flushed(s.io, ok) else s.io)
    case Finish => s.(pc := Done, io := Flushed(s.io, ok).(open := false))
    case Join => s.(pc := Freeing(0))
    case Free =>
      if s.io.queues[s.pc.i] == [] then s.(pc := Freeing(s.pc.i + 1)) else s.(io := Discarded(s.io, s.pc.i))
    case EndFree => s.(pc := Gone)
  }

  ghost predicate Run(trace: seq<Sys>, steps: seq<Step>, o: Options, ok: nat -> bool) {
    && ValidOptions(o) && |trace| == |steps| + 1 && Init(trace[0])
    && forall k | 0 <= k < |steps| :: Enabled(trace[k], steps[k]) && trace[k + 1] == Next(trace[k], steps[k], o, ok)
  }

  // ---------------------------------------------------------------------------------------------
  // What every step keeps
  // ---------------------------------------------------------------------------------------------

  predicate Stopped(s: Sys) {
    s.pc.Done? || s.pc.Freeing? || s.pc.Gone?
  }

  /** Once the thread has ended, nothing is pending; the queues are emptied one by one after the last insertion. */
  predicate EndsOk(s: Sys) {
    && (Stopped(s) ==> s.io.outq == [])
    && (s.pc.Freeing? || s.pc.Gone? ==> s.shutting && s.inFlight == 0)
    && (s.pc.Freeing? ==> s.pc.i <= |s.io.queues| && forall i | 0 <= i < s.pc.i :: s.io.queues[i] == [])
    && (s.pc.Gone? ==> forall i | 0 <= i < |s.io.queues| :: s.io.queues[i] == [])
  }

  lemma EndsNext(s: Sys, step: Step, o: Options, ok: nat -> bool)
    requires EndsOk(s) && Enabled(s, step)
    ensures EndsOk(Next(s, step, o, ok))
  {
    hide Took;
  }

  lemma SameOutq(s: Io, t: Io, o: Options)
    requires OutqOk(s, o) && t.outq == s.outq && t.nbytes == s.nbytes && (s.open ==> t.open)
    ensures OutqOk(t, o)
  {
  }

  lemma ClosedOutq(s: Io, o: Options, ok: nat -> bool)
    ensures OutqOk(Flushed(s, ok).(open := false), o)
  {
  }

  lemma OutqNext(s: Sys, step: Step, o: Options, ok: nat -> bool)
    requires ValidOptions(o) && OutqOk(s.io, o) && QueuesOk(s.io, o) && Enabled(s, step)
    ensures OutqOk(Next(s, step, o, ok).io, o)
  {
    hide Took, BytesOk;
    match step
    case Take =>
      assert QueueOk(s.io, o, s.pc.i);
      TookOutq(s.io, o, ok, s.pc.i);
    case Wake(_) => FlushedOutq(s.io, o, ok);
    case Finish => ClosedOutq(s.io, o, ok);
    case Insert(q, data, len) => SameOutq(s.io, Next(s, step, o, ok).io, o);
    case Turn(_) => SameOutq(s.io, Next(s, step, o, ok).io, o);
    case Free => SameOutq(s.io, Next(s, step, o, ok).io, o);
    case _ =>
  }

  lemma OpenOrdered(s: Io, o: Options, open: bool)
    requires Ordered(s, o)
    ensures Ordered(s.(open := open), o)
  {
    hide InOrder, Below, Left, QueueOk;
    QueuesSameOk(s, s.(open := open), o);
  }

  lemma OrderedNext(s: Sys, step: Step, o: Options, ok: nat -> bool)
    requires Ordered(s.io, o) && Enabled(s, step)
    ensures Ordered(Next(s, step, o, ok).io, o)
  {
    hide Took, InOrder, Below, Left, QueueOk;
    match step
    case Insert(q, data, len) =>
      if |s.io.queues[q]| + 1 < o.inputQueueSize {
        AcceptedOrdered(s.io, o, q, data, len);
      }
    case Turn(opens) => OpenOrdered(s.io, o, s.io.open || opens);
    case Take => TookOrdered(s.io, o, ok, s.pc.i);
    case Wake(_) => FlushedOrdered(s.io, o, ok);
    case Finish =>
      FlushedOrdered(s.io, o, ok);
      OpenOrdered(Flushed(s.io, ok), o, false);
    case Free =>
      if s.io.queues[s.pc.i] != [] {
        DiscardedOrdered(s.io, o, s.pc.i);
      }
    case _ =>
  }

  lemma OwnedNext(s: Sys, step: Step, o: Options, ok: nat -> bool, f: Frame)
    requires Owned(s.io, f) && Enabled(s, step)
    ensures Owned(Next(s, step, o, ok).io, f)
  {
    hide Took, Times, TimesQueued;
    match step
    case Insert(q, data, len) => AcceptedOwned(s.io, Frame(data, len, q, s.io.counts[q]), f);
    case Take => TookOwned(s.io, o, ok, s.pc.i, f);
    case Wake(_) => FlushedOwned(s.io, ok, f);
    case Finish => FlushedOwned(s.io, ok, f);
    case Free =>
      if s.io.queues[s.pc.i] != [] {
        DiscardedOwned(s.io, s.pc.i, f);
      }
    case _ =>
  }

  // ---------------------------------------------------------------------------------------------
  // Over whole runs
  // ---------------------------------------------------------------------------------------------

  predicate Good(s: Sys, o: Options) {
    OutqOk(s.io, o) && Ordered(s.io, o) && EndsOk(s)
  }

  lemma GoodInit(s: Sys, o: Options)
    requires Init(s) && ValidOptions(o)
    ensures Good(s, o)
  {
    assert s.io.handed + s.io.outq == [];
  }

  /** In every reachable state the output queue fits, and each queue's frames were handed over in order. */
  lemma {:induction false} RunGood(trace: seq<Sys>, steps: seq<Step>, o: Options, ok: nat -> bool, k: nat)
    requires Run(trace, steps, o, ok) && k < |trace|
    ensures Good(trace[k], o)
  {
    if k == 0 {
      GoodInit(trace[0], o);
    } else {
      hide Next, OutqOk, QueueOk, InOrder, Below, Left, EndsOk;
      RunGood(trace, steps, o, ok, k - 1);
      OutqNext(trace[k - 1], steps[k - 1], o, ok);
      OrderedNext(trace[k - 1], steps[k - 1], o, ok);
      EndsNext(trace[k - 1], steps[k - 1], o, ok);
    }
  }

  /** What was handed to the writer so far: each queue's frames in the order of acceptance, none twice. */
  lemma HandedInOrder(trace: seq<Sys>, steps: seq<Step>, o: Options, ok: nat -> bool, k: nat)
    requires Run(trace, steps, o, ok) && k < |trace|
    ensures InOrder(trace[k].io.handed) && |trace[k].io.outq| <= o.outputQueueSize
  {
    RunGood(trace, steps, o, ok, k);
    var s := trace[k].io;
    forall i, j | 0 <= i < j < |s.handed| && s.handed[i].queue == s.handed[j].queue
      ensures s.handed[i].number < s.handed[j].number
    {
      assert (s.handed + s.outq)[i] == s.handed[i] && (s.handed + s.outq)[j] == s.handed[j];
    }
  }

  /** Two or more pending frames total less than the hint exactly if the first does not wrap the byte counter. */
  lemma PendingUnderHint(trace: seq<Sys>, steps: seq<Step>, o: Options, ok: nat -> bool, k: nat)
    requires Run(trace, steps, o, ok) && k < |trace| && 2 <= |trace[k].io.outq|
    ensures Bytes(trace[k].io.outq) < o.bufferHint <==> trace[k].io.outq[0].len < WRAP - 4
  {
    RunGood(trace, steps, o, ok, k);
    UnderHint(trace[k].io, o);
  }

  lemma {:induction false} RunOwned(trace: seq<Sys>, steps: seq<Step>, o: Options, ok: nat -> bool, k: nat, f: Frame)
    requires Run(trace, steps, o, ok) && k < |trace|
    ensures Owned(trace[k].io, f)
  {
    hide Next;
    if k == 0 {
      QueuedNone(trace[0].io.queues, f);
    } else {
      RunOwned(trace, steps, o, ok, k - 1, f);
      OwnedNext(trace[k - 1], steps[k - 1], o, ok, f);
    }
  }

  lemma {:induction false} OnceInOrder(fs: seq<Frame>, f: Frame)
    requires InOrder(fs)
    ensures Times(fs, f) <= 1 && (f in fs <==> Times(fs, f) == 1)
  {
    if fs != [] {
      var rest, last := fs[..|fs| - 1], fs[|fs| - 1];
      assert fs == rest + [last];
      OnceInOrder(rest, f);
      if last == f {
        assert f !in rest;
      }
    }
  }

  /** By the time destroying ends, every accepted frame was freed exactly once, and nothing else was freed. */
  lemma FreedOnce(trace: seq<Sys>, steps: seq<Step>, o: Options, ok: nat -> bool, k: nat, f: Frame)
    requires Run(trace, steps, o, ok) && k < |trace| && trace[k].pc.Gone?
    ensures Times(trace[k].io.freed, f) == if f in trace[k].io.accepted then 1 else 0
    ensures Times(trace[k].io.freed, f) == Times(trace[k].io.handed, f) + Times(trace[k].io.dropped, f)
  {
    RunGood(trace, steps, o, ok, k);
    RunOwned(trace, steps, o, ok, k, f);
    QueuedNone(trace[k].io.queues, f);
    OnceInOrder(trace[k].io.accepted, f);
  }

  /** Before that, no frame is freed twice, or freed while it is queued or pending. */
  lemma NotFreedEarly(trace: seq<Sys>, steps: seq<Step>, o: Options, ok: nat -> bool, k: nat, f: Frame)
    requires Run(trace, steps, o, ok) && k < |trace|
    ensures var s := trace[k].io; Times(s.freed, f) + Times(s.outq, f) + TimesQueued(s.queues, f) <= 1
  {
    RunGood(trace, steps, o, ok, k);
    RunOwned(trace, steps, o, ok, k, f);
    OnceInOrder(trace[k].io.accepted, f);
  }

  // ---------------------------------------------------------------------------------------------
  // A writer that stays open
  // ---------------------------------------------------------------------------------------------

  /** The writer is open whenever the thread takes a frame or flushes, and no queue is freed yet. */
  predicate StaysOpen(s: Sys, step: Step) {
    (step.Take? || step.Wake? || step.Finish? ==> s.io.open) && !step.Free?
  }

  lemma FlushedComplete(s: Io, ok: nat -> bool, open: bool)
    requires Complete(s) && s.open
    ensures Complete(Flushed(s, ok)) && Complete(Flushed(s, ok).(open := open)) && Flushed(s, ok).dropped == s.dropped
  {
    var t := Flushed(s, ok);
    assert t.handed + t.outq == s.handed + s.outq;
  }

  lemma CompleteNext(s: Sys, step: Step, o: Options, ok: nat -> bool)
    requires Complete(s.io) && Ordered(s.io, o) && Enabled(s, step) && StaysOpen(s, step)
    ensures var t := Next(s, step, o, ok).io; Complete(t) && t.dropped == s.io.dropped
  {
    hide Took, Of, InOrder, Below, Left, QueueOk;
    match step
    case Insert(q, data, len) => AcceptedComplete(s.io, Frame(data, len, q, s.io.counts[q]));
    case Take => TookComplete(s.io, o, ok, s.pc.i);
    case Wake(_) => FlushedComplete(s.io, ok, false);
    case Finish => FlushedComplete(s.io, ok, false);
    case _ =>
  }

  /** As long as the writer stays open, it gets exactly the accepted frames of each queue, in order: those handed over,
      then those pending, then those still queued. */
  lemma {:induction false} NothingSkipped(trace: seq<Sys>, steps: seq<Step>, o: Options, ok: nat -> bool, k: nat)
    requires Run(trace, steps, o, ok) && k < |trace| && forall j | 0 <= j < k :: StaysOpen(trace[j], steps[j])
    ensures Complete(trace[k].io) && trace[k].io.dropped == []
  {
    hide Next;
    if k == 0 {
      assert trace[0].io.handed + trace[0].io.outq == [];
    } else {
      NothingSkipped(trace, steps, o, ok, k - 1);
      RunGood(trace, steps, o, ok, k - 1);
      CompleteNext(trace[k - 1], steps[k - 1], o, ok);
    }
  }

  // ---------------------------------------------------------------------------------------------
  // A writer that fails
  // ---------------------------------------------------------------------------------------------

  /** A step that flushes: a wait that timed out, the end of the thread, or a frame taken for an open writer that finds
      the output queue full or would bring it to the hint. */
  predicate Flushes(s: Sys, step: Step, o: Options)
    requires Enabled(s, step)
  {
    || step == Wake(true) || step.Finish?
    || (step.Take? && s.io.queues[s.pc.i] != []
        && (|s.io.outq| >= o.outputQueueSize || s.io.nbytes + 4 + s.io.queues[s.pc.i][0].len >= o.bufferHint))
  }

  /** A step that writes: it flushes, there is something pending, and the writer is open. */
  predicate Writes(s: Sys, step: Step, o: Options)
    requires Enabled(s, step)
  {
    Flushes(s, step, o) && s.io.outq != [] && s.io.open
  }

  /** A step that may open the writer. */
  predicate Opens(s: Sys, step: Step) {
    step == Turn(true) && !s.shutting
  }

  /** The writer is closed by a write that fails and by the end of the thread, and opened only by a turn that opens
      it. */
  lemma OpenNext(s: Sys, step: Step, o: Options, ok: nat -> bool)
    requires Enabled(s, step)
    ensures var t := Next(s, step, o, ok).io;
            t.open <==> Opens(s, step)
                        || (s.io.open && !step.Finish? && (Writes(s, step, o) ==> ok(s.io.calls)))
  {
  }

  /** What a step hands to the writer: all that is pending, in one write, or nothing. */
  lemma WritesNext(s: Sys, step: Step, o: Options, ok: nat -> bool)
    requires Enabled(s, step)
    ensures var t := Next(s, step, o, ok).io;
            if Writes(s, step, o) then t.calls == s.io.calls + 1 && t.handed == s.io.handed + s.io.outq
            else t.calls == s.io.calls && t.handed == s.io.handed
  {
  }

  /** What becomes of a frame that is taken: it is pending, after what is not flushed, exactly if the writer was
      open. */
  lemma TakeNext(s: Sys, o: Options, ok: nat -> bool)
    requires Enabled(s, Take) && s.io.queues[s.pc.i] != []
    ensures var t := Next(s, Take, o, ok).io; var f := s.io.queues[s.pc.i][0];
            if s.io.open
            then t.outq == (if Writes(s, Take, o) then [] else s.io.outq) + [f] && t.dropped == s.io.dropped
            else t.outq == s.io.outq && t.dropped == s.io.dropped + [f]
  {
  }

  lemma ClosedNext(s: Sys, step: Step, o: Options, ok: nat -> bool)
    requires Enabled(s, step) && !s.io.open
    ensures var t := Next(s, step, o, ok).io; (t.outq == s.io.outq || t.outq == []) && s.io.dropped <= t.dropped
  {
  }

  /** While the writer is closed and not opened again, nothing is written, and what was pending is at most dropped. */
  lemma {:induction false} StaysClosed(trace: seq<Sys>, steps: seq<Step>, o: Options, ok: nat -> bool, j: nat, k: nat)
    requires Run(trace, steps, o, ok) && j <= k < |trace| && !trace[j].io.open
    requires forall i | j <= i < k :: !Opens(trace[i], steps[i])
    ensures var s, t := trace[j].io, trace[k].io;
            && !t.open && t.calls == s.calls && t.handed == s.handed && s.dropped <= t.dropped
            && (t.outq == s.outq || t.outq == [])
  {
    if j < k {
      StaysClosed(trace, steps, o, ok, j, k - 1);
      OpenNext(trace[k - 1], steps[k - 1], o, ok);
      WritesNext(trace[k - 1], steps[k - 1], o, ok);
      ClosedNext(trace[k - 1], steps[k - 1], o, ok);
    }
  }

  /** After a write that failed there is no other before a turn opens the writer. */
  lemma ReopenedBetween(trace: seq<Sys>, steps: seq<Step>, o: Options, ok: nat -> bool, a: nat, b: nat)
    requires Run(trace, steps, o, ok) && a < b < |steps|
    requires Writes(trace[a], steps[a], o) && !ok(trace[a].io.calls) && Writes(trace[b], steps[b], o)
    ensures exists c :: a < c < b && Opens(trace[c], steps[c])
  {
    OpenNext(trace[a], steps[a], o, ok);
    if forall c | a < c < b :: !Opens(trace[c], steps[c]) {
      hide Next, Opens;
      StaysClosed(trace, steps, o, ok, a + 1, b);
    }
  }

  /** From a write that failed until a turn opens the writer, every frame that is taken is dropped. */
  lemma DroppedAfterFailure(trace: seq<Sys>, steps: seq<Step>, o: Options, ok: nat -> bool, a: nat, k: nat)
    requires Run(trace, steps, o, ok) && a < k < |steps| && Writes(trace[a], steps[a], o) && !ok(trace[a].io.calls)
    requires forall c | a < c < k :: !Opens(trace[c], steps[c])
    ensures trace[k].io.handed == trace[a].io.handed + trace[a].io.outq && trace[k].io.calls == trace[a].io.calls + 1
    ensures steps[k].Take? && trace[k].io.queues[trace[k].pc.i] != [] ==>
              trace[k + 1].io.dropped == trace[k].io.dropped + [trace[k].io.queues[trace[k].pc.i][0]]
  {
    OpenNext(trace[a], steps[a], o, ok);
    WritesNext(trace[a], steps[a], o, ok);
    hide Next, Opens;
    StaysClosed(trace, steps, o, ok, a + 1, k);
    if steps[k].Take? && trace[k].io.queues[trace[k].pc.i] != [] {
      TakeNext(trace[k], o, ok);
    }
  }
}
