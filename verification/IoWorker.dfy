/** The I/O thread's own code, on its queues and its fixed output array. */
module IoWorker {
  import opened IoThread

  /** Frames in all queues. */
  function Load(queues: seq<seq<Frame>>): nat {
    if queues == [] then 0 else Load(queues[..|queues| - 1]) + |queues[|queues| - 1]|
  }

  lemma {:induction false} LoadUpdate(queues: seq<seq<Frame>>, i: nat, q: seq<Frame>)
    requires i < |queues|
    ensures Load(queues[i := q]) + |queues[i]| == Load(queues) + |q|
  {
    var n := |queues| - 1;
    if i < n {
      LoadUpdate(queues[..n], i, q);
      assert queues[i := q][..n] == queues[..n][i := q];
    } else {
      assert queues[i := q][..n] == queues[..n];
    }
  }

  predicate Empty(queues: seq<seq<Frame>>) {
    forall i | 0 <= i < |queues| :: queues[i] == []
  }

  /** What every operation of the thread keeps. */
  ghost predicate Sound(s: Io, o: Options) {
    ValidOptions(o) && OutqOk(s, o) && Ordered(s, o) && forall f: Frame :: Owned(s, f)
  }

  lemma TookSound(s: Io, o: Options, ok: nat -> bool, i: nat)
    requires Sound(s, o) && i < |s.queues|
    ensures Sound(Took(s, o, ok, i), o)
  {
    hide Took, Owned, InOrder, Below, Left, BytesOk;
    assert QueueOk(s, o, i);
    TookOutq(s, o, ok, i);
    TookOrdered(s, o, ok, i);
    forall f: Frame ensures Owned(Took(s, o, ok, i), f) {
      TookOwned(s, o, ok, i, f);
    }
  }

  lemma {:induction false} ScannedSound(s: Io, o: Options, ok: nat -> bool, i: nat)
    requires Sound(s, o) && i <= |s.queues|
    ensures Sound(Scanned(s, o, ok, i), o)
    decreases |s.queues| - i
  {
    hide Took, Sound;
    if i < |s.queues| {
      TookSound(s, o, ok, i);
      TookSize(s, o, ok, i);
      ScannedSound(Took(s, o, ok, i), o, ok, i + 1);
    }
  }

  lemma TookSize(s: Io, o: Options, ok: nat -> bool, i: nat)
    requires i < |s.queues|
    ensures |Took(s, o, ok, i).queues| == |s.queues|
  {
  }

  lemma FlushedSound(s: Io, o: Options, ok: nat -> bool)
    requires Sound(s, o)
    ensures Sound(Flushed(s, ok), o)
  {
    hide Flushed, Owned, InOrder, Below, Left, BytesOk;
    FlushedOutq(s, o, ok);
    FlushedOrdered(s, o, ok);
    forall f: Frame ensures Owned(Flushed(s, ok), f) {
      FlushedOwned(s, ok, f);
    }
  }

  lemma DiscardedSound(s: Io, o: Options, i: nat)
    requires Sound(s, o) && i < |s.queues| && s.queues[i] != []
    ensures Sound(Discarded(s, i), o)
  {
    hide Owned, InOrder, Below, Left, QueueOk;
    DiscardedOrdered(s, o, i);
    forall f: Frame ensures Owned(Discarded(s, i), f) {
      DiscardedOwned(s, i, f);
    }
  }

  lemma ClosedSound(s: Io, o: Options)
    requires Sound(s, o) && s.outq == []
    ensures Sound(s.(open := false), o)
  {
    hide InOrder, Below, Left, QueueOk;
    var t := s.(open := false);
    QueuesSameOk(s, t, o);
    forall f: Frame ensures Owned(t, f) {
      assert Owned(s, f);
    }
  }

  lemma AllFreed(s: Io, o: Options, f: Frame)
    requires Sound(s, o) && s.outq == [] && Empty(s.queues)
    ensures Times(s.freed, f) == Times(s.accepted, f)
  {
    hide OutqOk, Ordered;
    assert Owned(s, f);
    QueuedNone(s.queues, f);
  }

  lemma AcceptedSound(s: Io, o: Options, q: nat, data: nat, len: nat)
    requires Sound(s, o) && q < |s.queues| && ValidLength(len) && |s.queues[q]| + 1 < o.inputQueueSize
    ensures |s.counts| == |s.queues| && Sound(Accepted(s, Frame(data, len, q, s.counts[q])), o)
  {
    hide Owned, InOrder, Below, Left, QueueOk;
    var g := Frame(data, len, q, s.counts[q]);
    AcceptedOrdered(s, o, q, data, len);
    forall f: Frame ensures Owned(Accepted(s, g), f) {
      AcceptedOwned(s, g, f);
    }
  }

  lemma {:induction false} ScannedAccepted(s: Io, o: Options, ok: nat -> bool, i: nat)
    requires i <= |s.queues|
    ensures var t := Scanned(s, o, ok, i); t.accepted == s.accepted && |t.queues| == |s.queues|
    decreases |s.queues| - i
  {
    if i < |s.queues| {
      ScannedAccepted(Took(s, o, ok, i), o, ok, i + 1);
    }
  }

  lemma FlushedRest(s: Io, ok: nat -> bool)
    ensures var t := Flushed(s, ok); t.accepted == s.accepted && t.queues == s.queues && t.outq == []
  {
  }

  /** `ok` says which writes the writer lets through. */
  class Worker {
    const opt: Options
    const ok: nat -> bool
    var queues: seq<seq<Frame>>
    var counts: seq<nat>
    var outqEntries: array<Frame>
    var outqIdx: nat
    var outqNbytes: nat
    var open: bool
    var shuttingDown: bool
    var calls: nat
    ghost var accepted: seq<Frame>
    ghost var handed: seq<Frame>
    ghost var dropped: seq<Frame>
    ghost var freed: seq<Frame>

    ghost predicate Valid()
      reads this, outqEntries
    {
      ValidOptions(opt) && outqEntries.Length == opt.outputQueueSize && outqIdx <= outqEntries.Length
          && |counts| == |queues|
    }

    ghost function View(): Io
      requires outqIdx <= outqEntries.Length
      reads this, outqEntries
    {
      Io(queues, counts, outqEntries[..outqIdx], outqNbytes, open, calls, accepted, handed, dropped, freed)
    }

    constructor (opt: Options, n: nat, ok: nat -> bool)
      requires ValidOptions(opt)
      ensures Valid() && fresh(outqEntries) && this.opt == opt && this.ok == ok && !shuttingDown
      ensures View() == Io(seq(n, _ => []), seq(n, _ => 0), [], 0, false, 0, [], [], [], [])
      ensures Sound(View(), opt)
    {
      this.opt, this.ok := opt, ok;
      queues, counts := seq(n, _ => []), seq(n, _ => 0);
      outqEntries := new Frame[opt.outputQueueSize](_ => Frame(0, 0, 0, 0));
      outqIdx, outqNbytes, open, shuttingDown, calls := 0, 0, false, false, 0;
      accepted, handed, dropped, freed := [], [], [], [];
      new;
      assert View().handed + View().outq == [];
      forall f: Frame ensures Owned(View(), f) {
        QueuedNone(queues, f);
      }
    }

    /** The caller's thread: refused while shutting down, for bad arguments, or if the queue is full. */
    method Submit(q: nat, data: nat, len: nat) returns (r: Outcome)
      requires Valid() && q < |queues|
      modifies this
      ensures Valid() && outqEntries == old(outqEntries) && shuttingDown == old(shuttingDown)
      ensures r == if old(shuttingDown) then Failure
                   else if data == 0 || !ValidLength(len) then Invalid
                   else if old(|queues[q]|) + 1 < opt.inputQueueSize then Success else Again
      ensures View() == if r == Success then Accepted(old(View()), Frame(data, len, q, old(counts)[q])) else old(View())
      ensures old(Sound(View(), opt)) ==> Sound(View(), opt)
    {
      if shuttingDown {
        return Failure;
      }
      if len < 1 || len >= 0xFFFF_FFFF || data == 0 {
        return Invalid;
      }
      if |queues[q]| + 1 >= opt.inputQueueSize {
        return Again;
      }
      ghost var s := View();
      var f := Frame(data, len, q, counts[q]);
      queues := queues[q := queues[q] + [f]];
      counts := counts[q := counts[q] + 1];
      accepted := accepted + [f];
      if Sound(s, opt) {
        AcceptedSound(s, opt, q, data, len);
      }
      return Success;
    }

    /** The deallocation callback of a frame, once it is done with. */
    method FreeBytes(f: Frame)
      modifies this`freed
      ensures freed == old(freed) + [f]
    {
      freed := freed + [f];
    }

    /** Writes what is pending if the writer is open, which a write that fails closes; in any case nothing is pending
        afterwards and all of it is freed. */
    method FlushOutput()
      requires Valid()
      modifies this
      ensures Valid() && outqEntries == old(outqEntries) && shuttingDown == old(shuttingDown)
      ensures View() == Flushed(old(View()), ok)
      ensures open == (old(open) && (old(outqIdx) == 0 || ok(old(calls))))
      ensures outqIdx == 0 == outqNbytes && freed == old(freed) + old(outqEntries[..outqIdx])
      ensures if old(open) && old(outqIdx) > 0
              then calls == old(calls) + 1 && handed == old(handed) + old(outqEntries[..outqIdx])
              else calls == old(calls) && handed == old(handed)
    {
      ghost var s := View();
      if open && outqIdx > 0 {
        var res := ok(calls);
        calls := calls + 1;
        handed := handed + s.outq;
        if !res {
          open := false;
        }
      } else {
        dropped := dropped + s.outq;
      }
      FreeEntries();
      outqIdx, outqNbytes := 0, 0;
    }

    /** The deferred deallocations. */
    method FreeEntries()
      requires outqIdx <= outqEntries.Length
      modifies this`freed
      ensures freed == old(freed) + outqEntries[..outqIdx]
    {
      var i := 0;
      while i < outqIdx
        invariant i <= outqIdx && freed == old(freed) + outqEntries[..i]
      {
        FreeBytes(outqEntries[i]);
        i := i + 1;
      }
    }

    method MaybeFlushOutput(nbytes: nat)
      requires Valid()
      modifies this
      ensures Valid() && outqEntries == old(outqEntries) && shuttingDown == old(shuttingDown)
      ensures View() == MaybeFlushed(old(View()), opt, ok, nbytes)
      ensures outqIdx < outqEntries.Length
    {
      if outqIdx > 0 {
        if outqIdx >= opt.outputQueueSize || outqNbytes + nbytes >= opt.bufferHint {
          FlushOutput();
        }
      }
    }

    method ProcessQueueEntry(f: Frame)
      requires Valid()
      modifies this, outqEntries
      ensures Valid() && outqEntries == old(outqEntries) && shuttingDown == old(shuttingDown)
      ensures View() == Processed(old(View()), opt, ok, f)
    {
      if open {
        var nbytes := 4 + f.len;
        MaybeFlushOutput(nbytes);
        ghost var s := View();
        outqEntries[outqIdx] := f;
        outqIdx := outqIdx + 1;
        outqNbytes := (outqNbytes + nbytes) % WRAP;
        assert outqEntries[..outqIdx] == s.outq + [f];
      } else {
        FreeBytes(f);
        dropped := dropped + [f];
      }
    }

    /** One frame from each queue; counts them. */
    method ProcessQueues() returns (total: nat)
      requires Valid()
      modifies this, outqEntries
      ensures Valid() && outqEntries == old(outqEntries) && shuttingDown == old(shuttingDown)
      ensures View() == Scanned(old(View()), opt, ok, 0)
      ensures Load(queues) + total == old(Load(queues))
      ensures total == 0 ==> Empty(queues)
    {
      total := 0;
      var i := 0;
      while i < |queues|
        invariant Valid() && i <= |queues| && outqEntries == old(outqEntries) && shuttingDown == old(shuttingDown)
        invariant Scanned(View(), opt, ok, i) == Scanned(old(View()), opt, ok, 0)
        invariant Load(queues) + total == old(Load(queues))
        invariant total == 0 ==> forall k | 0 <= k < i :: queues[k] == []
        decreases |queues| - i
      {
        hide Took, Load;
        var n := TakeOne(i);
        total := total + n;
        i := i + 1;
      }
    }

    method TakeOne(i: nat) returns (n: nat)
      requires Valid() && i < |queues|
      modifies this, outqEntries
      ensures Valid() && outqEntries == old(outqEntries) && shuttingDown == old(shuttingDown)
      ensures View() == Took(old(View()), opt, ok, i) && |queues| == old(|queues|)
      ensures Load(queues) + n == old(Load(queues))
      ensures if old(queues[i]) == [] then n == 0 && queues == old(queues) else n == 1
    {
      n := 0;
      if queues[i] != [] {
        var f := queues[i][0];
        LoadUpdate(queues, i, queues[i][1..]);
        queues := queues[i := queues[i][1..]];
        ProcessQueueEntry(f);
        n := 1;
      }
    }

    /** What the thread does once it sees the shutdown: empty the queues, flush, close. */
    method ShutDown()
      requires Valid() && Sound(View(), opt)
      modifies this, outqEntries
      ensures Valid() && outqEntries == old(outqEntries) && shuttingDown == old(shuttingDown)
      ensures Sound(View(), opt) && Empty(queues) && outqIdx == 0 && !open && accepted == old(accepted)
    {
      hide Sound, Scanned, Flushed;
      var total: nat := 1;
      while total > 0
        invariant Valid() && outqEntries == old(outqEntries) && shuttingDown == old(shuttingDown)
        invariant Sound(View(), opt) && accepted == old(accepted) && (total == 0 ==> Empty(queues))
        decreases Load(queues) + if total > 0 then 1 else 0
      {
        ScannedSound(View(), opt, ok, 0);
        ScannedAccepted(View(), opt, ok, 0);
        total := ProcessQueues();
      }
      FlushedSound(View(), opt, ok);
      FlushedRest(View(), ok);
      FlushOutput();
      ClosedSound(View(), opt);
      open := false;
    }

    /** Frees what came too late for the thread. */
    method FreeQueues()
      requires Valid() && Sound(View(), opt)
      modifies this
      ensures Valid() && outqEntries == old(outqEntries) && shuttingDown == old(shuttingDown)
      ensures Sound(View(), opt) && Empty(queues) && accepted == old(accepted)
      ensures outqIdx == old(outqIdx) && handed == old(handed) && open == old(open)
    {
      var i := 0;
      while i < |queues|
        invariant Valid() && i <= |queues| && outqEntries == old(outqEntries) && shuttingDown == old(shuttingDown)
        invariant Sound(View(), opt) && accepted == old(accepted) && forall k | 0 <= k < i :: queues[k] == []
        invariant outqIdx == old(outqIdx) && handed == old(handed) && open == old(open)
        decreases |queues| - i, if i < |queues| then |queues[i]| else 0
      {
        hide Sound;
        if queues[i] == [] {
          i := i + 1;
        } else {
          DiscardedSound(View(), opt, i);
          var f := queues[i][0];
          queues := queues[i := queues[i][1..]];
          FreeBytes(f);
          dropped := dropped + [f];
        }
      }
    }

    /** Waits for the thread to end, then frees the rest: every accepted frame has been freed exactly as often as it was
        accepted, which is once. */
    method Destroy()
      requires Valid() && Sound(View(), opt)
      modifies this, outqEntries
      ensures Valid() && shuttingDown && !open && Empty(queues) && outqIdx == 0
      ensures accepted == old(accepted) && forall f: Frame :: Times(freed, f) == Times(accepted, f)
    {
      shuttingDown := true;
      ShutDown();
      FreeQueues();
      forall f: Frame ensures Times(freed, f) == Times(accepted, f) {
        AllFreed(View(), opt, f);
      }
    }
  }
}
