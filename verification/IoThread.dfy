/** The Frame Streams I/O thread: producers put frames in bounded queues, the thread moves them to an output queue and
    hands that to the writer, and every accepted frame is freed once. */
module IoThread {

  const WRAP: nat := 0x1_0000_0000

  /** A frame that was accepted as number `number` of queue `queue`. */
  datatype Frame = Frame(data: nat, len: nat, queue: nat, number: nat)

  /** `inputQueueSize` counts one slot that the ring buffer keeps free. */
  datatype Options = Options(bufferHint: nat, outputQueueSize: nat, inputQueueSize: nat)

  predicate ValidOptions(o: Options) {
    1024 <= o.bufferHint <= 65536 && 2 <= o.outputQueueSize && 2 <= o.inputQueueSize
  }

  datatype Outcome = Success | Again | Invalid | Failure

  /** The queues and the output queue, and what became of each frame: `handed` to the writer, `dropped` unwritten, and
      in either case `freed`. `calls` counts the writes, `counts` the frames accepted by each queue. */
  datatype Io = Io(queues: seq<seq<Frame>>, counts: seq<nat>, outq: seq<Frame>, nbytes: nat, open: bool, calls: nat,
                   accepted: seq<Frame>, handed: seq<Frame>, dropped: seq<Frame>, freed: seq<Frame>)

  predicate ValidLength(len: nat) {
    1 <= len < WRAP - 1
  }

  /** Bytes a frame takes on the wire: its length field and itself. */
  function Size(f: Frame): nat {
    4 + f.len
  }

  function Bytes(fs: seq<Frame>): nat {
    if fs == [] then 0 else Bytes(fs[..|fs| - 1]) + Size(fs[|fs| - 1])
  }

  // ---------------------------------------------------------------------------------------------
  // What the thread does, as functions; `ok` says which writes succeed
  // ---------------------------------------------------------------------------------------------

  function Flushed(s: Io, ok: nat -> bool): Io {
    if s.open && s.outq != [] then
      s.(outq := [], nbytes := 0, open := ok(s.calls), calls := s.calls + 1,
         handed := s.handed + s.outq, freed := s.freed + s.outq)
    else
      s.(outq := [], nbytes := 0, dropped := s.dropped + s.outq, freed := s.freed + s.outq)
  }

  predicate MustFlush(s: Io, o: Options, nbytes: nat) {
    s.outq != [] && (o.outputQueueSize <= |s.outq| || o.bufferHint <= s.nbytes + nbytes)
  }

  function MaybeFlushed(s: Io, o: Options, ok: nat -> bool, nbytes: nat): Io {
    if MustFlush(s, o, nbytes) then Flushed(s, ok) else s
  }

  function Queued(s: Io, f: Frame): Io {
    s.(outq := s.outq + [f], nbytes := (s.nbytes + Size(f)) % WRAP)
  }

  function Processed(s: Io, o: Options, ok: nat -> bool, f: Frame): Io {
    if s.open then Queued(MaybeFlushed(s, o, ok, Size(f)), f)
    else s.(dropped := s.dropped + [f], freed := s.freed + [f])
  }

  /** One frame taken from queue `i`, if there is one, and processed. */
  function Took(s: Io, o: Options, ok: nat -> bool, i: nat): Io
    requires i < |s.queues|
  {
    if s.queues[i] == [] then s
    else Processed(s.(queues := s.queues[i := s.queues[i][1..]]), o, ok, s.queues[i][0])
  }

  /** One frame taken from each queue from `i` on. */
  function Scanned(s: Io, o: Options, ok: nat -> bool, i: nat): Io
    requires i <= |s.queues|
    decreases |s.queues| - i
  {
    if i == |s.queues| then s else Scanned(Took(s, o, ok, i), o, ok, i + 1)
  }

  function Accepted(s: Io, f: Frame): Io
    requires f.queue < |s.queues| == |s.counts|
  {
    var q := f.queue;
    s.(queues := s.queues[q := s.queues[q] + [f]], counts := s.counts[q := s.counts[q] + 1],
        accepted := s.accepted + [f])
  }

  /** A frame still queued when everything stopped. */
  function Discarded(s: Io, i: nat): Io
    requires i < |s.queues| && s.queues[i] != []
  {
    var f := s.queues[i][0];
    s.(queues := s.queues[i := s.queues[i][1..]], dropped := s.dropped + [f], freed := s.freed + [f])
  }

  // ---------------------------------------------------------------------------------------------
  // The output queue
  // ---------------------------------------------------------------------------------------------

  /** What a frame takes beyond the range of the byte counter. */
  function Wrapped(f: Frame): nat {
    if WRAP <= Size(f) then WRAP else 0
  }

  /** The byte counter is right up to wrap-around, and can wrap only by a huge first frame. */
  predicate BytesOk(s: Io, o: Options) {
    && (forall k | 0 <= k < |s.outq| :: ValidLength(s.outq[k].len))
    && s.nbytes == Bytes(s.outq) % WRAP
    && (2 <= |s.outq| ==> s.nbytes < o.bufferHint && Bytes(s.outq) == s.nbytes + Wrapped(s.outq[0]))
  }

  predicate OutqOk(s: Io, o: Options) {
    |s.outq| <= o.outputQueueSize && (!s.open ==> |s.outq| <= 1) && BytesOk(s, o)
  }

  lemma BytesOne(f: Frame)
    ensures Bytes([f]) == Size(f) && Bytes([]) == 0
  {
    assert [f][..0] == [];
  }

  lemma BytesAppend(fs: seq<Frame>, f: Frame)
    ensures Bytes(fs + [f]) == Bytes(fs) + Size(f)
  {
    assert (fs + [f])[..|fs|] == fs;
  }

  lemma FlushedOutq(s: Io, o: Options, ok: nat -> bool)
    ensures OutqOk(Flushed(s, ok), o)
  {
  }

  lemma CounterAdds(total: nat, nbytes: nat, size: nat)
    requires nbytes == total % WRAP
    ensures (nbytes + size) % WRAP == (total + size) % WRAP
  {
  }

  lemma CounterWraps(f: Frame)
    requires ValidLength(f.len)
    ensures Size(f) % WRAP == Size(f) - Wrapped(f)
  {
  }

  lemma QueuedOutq(s: Io, o: Options, f: Frame)
    requires ValidOptions(o) && BytesOk(s, o) && !MustFlush(s, o, Size(f)) && ValidLength(f.len)
    ensures BytesOk(Queued(s, f), o)
  {
    hide Bytes;
    BytesAppend(s.outq, f);
    CounterAdds(Bytes(s.outq), s.nbytes, Size(f));
    if s.outq == [] {
      assert s.outq + [f] == [f];
    } else {
      var first := s.outq[0];
      if |s.outq| == 1 {
        BytesOne(first);
        assert s.outq == [first];
        CounterWraps(first);
      }
      assert Bytes(s.outq) == s.nbytes + Wrapped(first);
      assert s.nbytes + Size(f) < WRAP;
      assert Queued(s, f).outq[0] == first;
    }
  }

  lemma TookOutq(s: Io, o: Options, ok: nat -> bool, i: nat)
    requires ValidOptions(o) && OutqOk(s, o) && i < |s.queues|
    requires s.queues[i] != [] ==> ValidLength(s.queues[i][0].len)
    ensures OutqOk(Took(s, o, ok, i), o)
  {
    if s.queues[i] != [] && s.open {
      var f := s.queues[i][0];
      var t := s.(queues := s.queues[i := s.queues[i][1..]]);
      FlushedOutq(t, o, ok);
      QueuedOutq(MaybeFlushed(t, o, ok, Size(f)), o, f);
    }
  }

  /** Two or more pending frames stay under the hint exactly if the first one's size does not wrap the counter. */
  lemma UnderHint(s: Io, o: Options)
    requires ValidOptions(o) && OutqOk(s, o) && 2 <= |s.outq|
    ensures Bytes(s.outq) < o.bufferHint <==> s.outq[0].len < WRAP - 4
  {
  }

  /** It can: a first frame of 2^32 - 3 bytes counts as one byte, so a second joins it. */
  lemma OverHint(o: Options, ok: nat -> bool)
    requires ValidOptions(o)
    ensures var first, second := Frame(1, WRAP - 3, 0, 0), Frame(2, 1, 0, 1);
            var s := Io([[first, second]], [2], [], 0, true, 0, [first, second], [], [], []);
            var t := Took(Took(s, o, ok, 0), o, ok, 0);
            OutqOk(s, o) && ValidLength(first.len) && t.outq == [first, second] && o.bufferHint <= Bytes(t.outq)
  {
    var first, second := Frame(1, WRAP - 3, 0, 0), Frame(2, 1, 0, 1);
    var s := Io([[first, second]], [2], [], 0, true, 0, [first, second], [], [], []);
    var s1 := Took(s, o, ok, 0);
    assert s1.outq == [first] && s1.nbytes == 1 && s1.queues[0] == [second];
    var t := Took(s1, o, ok, 0);
    assert t.outq == [first] + [second];
    BytesOne(first);
    BytesAppend([first], second);
  }

  // ---------------------------------------------------------------------------------------------
  // Ownership
  // ---------------------------------------------------------------------------------------------

  /** How often `f` is in `fs`. */
  function Times(fs: seq<Frame>, f: Frame): nat {
    if fs == [] then 0 else Times(fs[..|fs| - 1], f) + if fs[|fs| - 1] == f then 1 else 0
  }

  function TimesQueued(queues: seq<seq<Frame>>, f: Frame): nat {
    if queues == [] then 0 else TimesQueued(queues[..|queues| - 1], f) + Times(queues[|queues| - 1], f)
  }

  /** Each acceptance of `f` left it in a queue, in the output queue or freed; a freed one was handed over or
      dropped. */
  predicate Owned(s: Io, f: Frame) {
    && Times(s.freed, f) + Times(s.outq, f) + TimesQueued(s.queues, f) == Times(s.accepted, f)
    && Times(s.freed, f) == Times(s.handed, f) + Times(s.dropped, f)
  }

  lemma TimesAppend(fs: seq<Frame>, g: Frame, f: Frame)
    ensures Times(fs + [g], f) == Times(fs, f) + if g == f then 1 else 0
  {
    assert (fs + [g])[..|fs|] == fs;
  }

  lemma {:induction false} TimesConcat(a: seq<Frame>, b: seq<Frame>, f: Frame)
    ensures Times(a + b, f) == Times(a, f) + Times(b, f)
  {
    if b == [] {
      assert a + b == a;
    } else {
      TimesConcat(a, b[..|b| - 1], f);
      TimesAppend(a + b[..|b| - 1], b[|b| - 1], f);
      assert a + b == a + b[..|b| - 1] + [b[|b| - 1]];
    }
  }

  lemma {:induction false} QueuedUpdate(queues: seq<seq<Frame>>, i: nat, q: seq<Frame>, f: Frame)
    requires i < |queues|
    ensures TimesQueued(queues[i := q], f) + Times(queues[i], f) == TimesQueued(queues, f) + Times(q, f)
  {
    var n := |queues| - 1;
    if i < n {
      QueuedUpdate(queues[..n], i, q, f);
      assert queues[i := q][..n] == queues[..n][i := q];
    } else {
      assert queues[i := q][..n] == queues[..n];
    }
  }

  lemma {:induction false} QueuedNone(queues: seq<seq<Frame>>, f: Frame)
    requires forall i | 0 <= i < |queues| :: queues[i] == []
    ensures TimesQueued(queues, f) == 0
  {
    if queues != [] {
      QueuedNone(queues[..|queues| - 1], f);
    }
  }

  lemma QueuedPop(queues: seq<seq<Frame>>, i: nat, f: Frame)
    requires i < |queues| && queues[i] != []
    ensures TimesQueued(queues, f) == TimesQueued(queues[i := queues[i][1..]], f) + if queues[i][0] == f then 1 else 0
  {
    var q := queues[i];
    QueuedUpdate(queues, i, q[1..], f);
    TimesConcat([q[0]], q[1..], f);
    assert q == [q[0]] + q[1..];
    TimesAppend([], q[0], f);
    assert [] + [q[0]] == [q[0]];
  }

  lemma FlushedOwned(s: Io, ok: nat -> bool, f: Frame)
    requires Owned(s, f)
    ensures Owned(Flushed(s, ok), f)
  {
    TimesConcat(s.freed, s.outq, f);
    TimesConcat(s.handed, s.outq, f);
    TimesConcat(s.dropped, s.outq, f);
  }

  lemma FlushedTimes(s: Io, o: Options, ok: nat -> bool, nbytes: nat, f: Frame)
    requires Times(s.freed, f) == Times(s.handed, f) + Times(s.dropped, f)
    ensures var t := MaybeFlushed(s, o, ok, nbytes);
            && Times(t.freed, f) + Times(t.outq, f) == Times(s.freed, f) + Times(s.outq, f)
            && Times(t.freed, f) == Times(t.handed, f) + Times(t.dropped, f)
            && t.queues == s.queues && t.accepted == s.accepted
  {
    TimesConcat(s.freed, s.outq, f);
    TimesConcat(s.handed, s.outq, f);
    TimesConcat(s.dropped, s.outq, f);
  }

  lemma ProcessedOwned(s: Io, o: Options, ok: nat -> bool, g: Frame, f: Frame)
    requires Times(s.freed, f) + Times(s.outq, f) + TimesQueued(s.queues, f) + (if g == f then 1 else 0)
             == Times(s.accepted, f)
    requires Times(s.freed, f) == Times(s.handed, f) + Times(s.dropped, f)
    ensures Owned(Processed(s, o, ok, g), f)
  {
    hide Times, TimesQueued, MaybeFlushed;
    var t := MaybeFlushed(s, o, ok, Size(g));
    FlushedTimes(s, o, ok, Size(g), f);
    TimesAppend(t.outq, g, f);
    TimesAppend(s.freed, g, f);
    TimesAppend(s.dropped, g, f);
  }

  lemma TookOwned(s: Io, o: Options, ok: nat -> bool, i: nat, f: Frame)
    requires Owned(s, f) && i < |s.queues|
    ensures Owned(Took(s, o, ok, i), f)
  {
    if s.queues[i] != [] {
      QueuedPop(s.queues, i, f);
      ProcessedOwned(s.(queues := s.queues[i := s.queues[i][1..]]), o, ok, s.queues[i][0], f);
    }
  }

  lemma AcceptedOwned(s: Io, g: Frame, f: Frame)
    requires Owned(s, f) && g.queue < |s.queues| == |s.counts|
    ensures Owned(Accepted(s, g), f)
  {
    var q := s.queues[g.queue];
    QueuedUpdate(s.queues, g.queue, q + [g], f);
    TimesAppend(q, g, f);
    TimesAppend(s.accepted, g, f);
  }

  lemma DiscardedOwned(s: Io, i: nat, f: Frame)
    requires Owned(s, f) && i < |s.queues| && s.queues[i] != []
    ensures Owned(Discarded(s, i), f)
  {
    QueuedPop(s.queues, i, f);
    TimesAppend(s.freed, s.queues[i][0], f);
    TimesAppend(s.dropped, s.queues[i][0], f);
  }

  // ---------------------------------------------------------------------------------------------
  // Order
  // ---------------------------------------------------------------------------------------------

  /** The frames of each queue come in the order they were accepted in, none twice. */
  predicate InOrder(fs: seq<Frame>) {
    forall i, k | 0 <= i < k < |fs| && fs[i].queue == fs[k].queue :: fs[i].number < fs[k].number
  }

  /** The frames come from these queues, and have numbers below these bounds. */
  predicate Below(fs: seq<Frame>, bounds: seq<int>) {
    forall k | 0 <= k < |fs| :: fs[k].queue < |bounds| && fs[k].number < bounds[fs[k].queue]
  }

  /** Queue `i` holds the last frames it accepted. */
  predicate QueueOk(s: Io, o: Options, i: nat)
    requires i < |s.queues| == |s.counts|
  {
    var q := s.queues[i];
    && |q| < o.inputQueueSize && |q| <= s.counts[i]
    && forall k | 0 <= k < |q| :: q[k].queue == i && q[k].number == s.counts[i] - |q| + k && ValidLength(q[k].len)
  }

  /** How many frames have left each queue. */
  function Left(s: Io): seq<int>
    requires |s.queues| == |s.counts|
  {
    seq(|s.queues|, i requires 0 <= i < |s.queues| => s.counts[i] - |s.queues[i]|)
  }

  predicate QueuesOk(s: Io, o: Options) {
    |s.queues| == |s.counts| && forall i | 0 <= i < |s.queues| :: QueueOk(s, o, i)
  }

  predicate Ordered(s: Io, o: Options) {
    && QueuesOk(s, o)
    && InOrder(s.accepted) && Below(s.accepted, s.counts)
    && InOrder(s.handed + s.outq) && Below(s.handed + s.outq, Left(s))
  }

  /** A frame whose number is not below the bound of its queue can be put last. */
  lemma InOrderAppend(fs: seq<Frame>, f: Frame, bounds: seq<int>)
    requires InOrder(fs) && Below(fs, bounds) && f.queue < |bounds| && bounds[f.queue] <= f.number
    ensures InOrder(fs + [f])
  {
  }

  lemma BelowAppend(fs: seq<Frame>, f: Frame, bounds: seq<int>, bounds': seq<int>)
    requires Below(fs, bounds) && |bounds'| == |bounds| && f.queue < |bounds| && f.number < bounds'[f.queue]
    requires forall i | 0 <= i < |bounds| :: bounds[i] <= bounds'[i]
    ensures Below(fs + [f], bounds') && Below(fs, bounds')
  {
  }

  lemma AcceptedOrdered(s: Io, o: Options, q: nat, data: nat, len: nat)
    requires Ordered(s, o) && q < |s.queues| && ValidLength(len) && |s.queues[q]| + 1 < o.inputQueueSize
    ensures Ordered(Accepted(s, Frame(data, len, q, s.counts[q])), o)
  {
    var f := Frame(data, len, q, s.counts[q]);
    var s' := Accepted(s, f);
    InOrderAppend(s.accepted, f, s.counts);
    BelowAppend(s.accepted, f, s.counts, s'.counts);
    forall i | 0 <= i < |s.queues| ensures QueueOk(s', o, i) {
      assert QueueOk(s, o, i);
    }
    assert Left(s') == Left(s);
  }

  /** Taking the first frame of a queue. */
  lemma PoppedOrdered(s: Io, o: Options, i: nat)
    requires Ordered(s, o) && i < |s.queues| && s.queues[i] != []
    ensures var f := s.queues[i][0]; var t := s.(queues := s.queues[i := s.queues[i][1..]]);
            && Ordered(t, o) && ValidLength(f.len)
            && InOrder(s.handed + s.outq + [f]) && Below(s.handed + s.outq + [f], Left(t))
  {
    var f := s.queues[i][0];
    var t := s.(queues := s.queues[i := s.queues[i][1..]]);
    assert QueueOk(s, o, i);
    forall k | 0 <= k < |s.queues| ensures QueueOk(t, o, k) {
      assert QueueOk(s, o, k);
    }
    InOrderAppend(s.handed + s.outq, f, Left(s));
    BelowAppend(s.handed + s.outq, f, Left(s), Left(t));
  }

  /** Handing frames over or dropping them keeps the order of the rest. */
  lemma FlushedOrdered(s: Io, o: Options, ok: nat -> bool)
    requires Ordered(s, o)
    ensures Ordered(Flushed(s, ok), o)
  {
    var t := Flushed(s, ok);
    var all := s.handed + s.outq;
    assert t.handed + t.outq == all || t.handed + t.outq == all[..|s.handed|];
    assert QueuesSame(s, t, o) by { QueuesSameOk(s, t, o); }
  }

  ghost predicate QueuesSame(s: Io, t: Io, o: Options) {
    QueuesOk(s, o) && QueuesOk(t, o) && Left(t) == Left(s)
  }

  lemma QueuesSameOk(s: Io, t: Io, o: Options)
    requires QueuesOk(s, o) && t.queues == s.queues && t.counts == s.counts
    ensures QueuesSame(s, t, o)
  {
    forall i | 0 <= i < |s.queues| ensures QueueOk(t, o, i) {
      assert QueueOk(s, o, i);
    }
  }

  lemma TookOrdered(s: Io, o: Options, ok: nat -> bool, i: nat)
    requires Ordered(s, o) && i < |s.queues|
    ensures Ordered(Took(s, o, ok, i), o)
  {
    if s.queues[i] != [] {
      var f := s.queues[i][0];
      var t := s.(queues := s.queues[i := s.queues[i][1..]]);
      PoppedOrdered(s, o, i);
      var r := Processed(t, o, ok, f);
      QueuesSameOk(t, r, o);
      if s.open {
        assert r.handed + r.outq == s.handed + s.outq + [f];
      }
    }
  }

  lemma DiscardedOrdered(s: Io, o: Options, i: nat)
    requires Ordered(s, o) && i < |s.queues| && s.queues[i] != []
    ensures Ordered(Discarded(s, i), o)
  {
    PoppedOrdered(s, o, i);
    QueuesSameOk(s.(queues := s.queues[i := s.queues[i][1..]]), Discarded(s, i), o);
  }

  // ---------------------------------------------------------------------------------------------
  // While nothing is dropped
  // ---------------------------------------------------------------------------------------------

  /** The frames of queue `q`. */
  function Of(fs: seq<Frame>, q: nat): seq<Frame> {
    if fs == [] then []
    else Of(fs[..|fs| - 1], q) + if fs[|fs| - 1].queue == q then [fs[|fs| - 1]] else []
  }

  /** Per queue, what was handed over, then what is pending, then what is queued, is exactly what was accepted. */
  ghost predicate Complete(s: Io) {
    forall q | 0 <= q < |s.queues| :: Of(s.handed + s.outq, q) + s.queues[q] == Of(s.accepted, q)
  }

  lemma OfAppend(fs: seq<Frame>, f: Frame, q: nat)
    ensures Of(fs + [f], q) == Of(fs, q) + if f.queue == q then [f] else []
  {
    assert (fs + [f])[..|fs|] == fs;
  }

  lemma AcceptedComplete(s: Io, f: Frame)
    requires Complete(s) && f.queue < |s.queues| == |s.counts|
    ensures Complete(Accepted(s, f))
  {
    forall q | 0 <= q < |s.queues|
      ensures Of(s.handed + s.outq, q) + Accepted(s, f).queues[q] == Of(s.accepted + [f], q)
    {
      OfAppend(s.accepted, f, q);
    }
  }

  /** An open writer is handed every frame taken, sooner or later. */
  lemma TookMoves(s: Io, o: Options, ok: nat -> bool, i: nat)
    requires i < |s.queues| && s.open && s.queues[i] != []
    ensures var t := Took(s, o, ok, i);
            && t.handed + t.outq == s.handed + s.outq + [s.queues[i][0]]
            && t.queues == s.queues[i := s.queues[i][1..]] && t.accepted == s.accepted && t.dropped == s.dropped
  {
  }

  lemma MovedComplete(s: Io, t: Io, i: nat)
    requires Complete(s) && i < |s.queues| && s.queues[i] != [] && s.queues[i][0].queue == i
    requires t.handed + t.outq == s.handed + s.outq + [s.queues[i][0]]
    requires t.queues == s.queues[i := s.queues[i][1..]] && t.accepted == s.accepted
    ensures Complete(t)
  {
    var f := s.queues[i][0];
    forall q | 0 <= q < |t.queues| ensures Of(t.handed + t.outq, q) + t.queues[q] == Of(t.accepted, q) {
      OfAppend(s.handed + s.outq, f, q);
      if q == i {
        assert [f] + t.queues[q] == s.queues[q];
      } else {
        assert Of(t.handed + t.outq, q) == Of(s.handed + s.outq, q);
      }
    }
  }

  lemma TookComplete(s: Io, o: Options, ok: nat -> bool, i: nat)
    requires Complete(s) && Ordered(s, o) && i < |s.queues| && s.open
    ensures Complete(Took(s, o, ok, i)) && Took(s, o, ok, i).dropped == s.dropped
  {
    if s.queues[i] != [] {
      assert QueueOk(s, o, i);
      TookMoves(s, o, ok, i);
      MovedComplete(s, Took(s, o, ok, i), i);
    }
  }
}
