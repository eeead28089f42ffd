/** The merged export of a policy's handlers: one window of every handler per push, in lock step. */
module MergedExport {
  import opened MetricsWindow
  import opened WindowMerge
  import opened WindowRuns
  import opened Wrappers

  // ---------------------------------------------------------------------------------------------
  // One push loop over windows that stay as they are
  // ---------------------------------------------------------------------------------------------

  function MarkOf(handlers: seq<seq<Bucket>>, last: seq<Timespec>, i: nat): Option<Timespec>
    requires i < |handlers|
  {
    if |last| == |handlers| then Some(last[i]) else None
  }

  /** What a handler has pending after the window it merged last; none merged yet means all of it. */
  function PendingOf(handlers: seq<seq<Bucket>>, last: seq<Timespec>, i: nat): seq<Bucket>
    requires i < |handlers| && handlers[i] != []
  {
    Pending(handlers[i], MarkOf(handlers, last, i))
  }

  predicate AllHold(handlers: seq<seq<Bucket>>) {
    forall i | 0 <= i < |handlers| :: handlers[i] != [] && Decreasing(handlers[i]) && Chained(handlers[i])
  }

  /** The first pending window of every handler, by its start; nothing if some handler has none pending. */
  method NextMergedWindows(handlers: seq<seq<Bucket>>, last: seq<Timespec>) returns (starts: Option<seq<Timespec>>)
    requires forall i | 0 <= i < |handlers| :: handlers[i] != []
    ensures starts.None? <==> handlers == [] || exists i :: 0 <= i < |handlers| && PendingOf(handlers, last, i) == []
    ensures starts.Some? ==> |starts.value| == |handlers|
    ensures starts.Some? ==>
              forall i | 0 <= i < |handlers| :: PendingOf(handlers, last, i) != []
                  && starts.value[i] == PendingOf(handlers, last, i)[0].start
  {
    if handlers == [] {
      return None;
    }
    var found: seq<Timespec> := [];
    var i := 0;
    while i < |handlers|
      invariant i <= |handlers| && |found| == i
      invariant forall k | 0 <= k < i ::
                  PendingOf(handlers, last, k) != []
                  && found[k] == PendingOf(handlers, last, k)[0].start
    {
      var after := None;
      if |last| == |handlers| {
        after := Some(last[i]);
      }
      var start := FirstPendingStart(handlers[i], after);
      if start.None? {
        assert PendingOf(handlers, last, i) == [];
        return None;
      }
      found := found + [start.value];
      i := i + 1;
    }
    return Some(found);
  }

  /** Handing out one window leaves the rest pending. */
  lemma {:induction false} UnsentAfterFirst(bs: seq<Bucket>, after: Option<Timespec>)
    requires Decreasing(bs) && Unsent(bs, after) != []
    ensures Unsent(bs, Some(Unsent(bs, after)[0].start)) == Unsent(bs, after)[1..]
  {
    var rest := bs[1..];
    var mark := Some(Unsent(bs, after)[0].start);
    if Unsent(rest, after) == [] {
      NoneUnsent(rest, mark);
    } else {
      UnsentAfterFirst(rest, after);
      UnsentNewest(rest, after);
      assert StartsAfter(bs[0].start, mark);
      UnsentNewest(bs, after);
      assert StartsAfter(bs[0].start, after);
    }
  }

  lemma {:induction false} FindAt(bs: seq<Bucket>, i: nat)
    requires Decreasing(bs) && i < |bs|
    ensures Find(bs, bs[i].start) == Some(bs[i])
  {
    if i > 0 {
      FindAt(bs[1..], i - 1);
    }
  }

  /** What is pending is held, and is found by its start. */
  lemma PendingHeld(bs: seq<Bucket>, after: Option<Timespec>, j: nat)
    requires bs != [] && Decreasing(bs) && j < |Pending(bs, after)|
    ensures HeldAt(bs, Pending(bs, after)[j].start) == Some(Pending(bs, after)[j])
  {
    var closed := bs[NewestClosed(bs)..];
    UnsentNewest(closed, after);
    FindAt(closed, |Pending(bs, after)| - 1 - j);
  }

  /** `starts` are those of each handler's oldest pending window. */
  predicate Firsts(handlers: seq<seq<Bucket>>, last: seq<Timespec>, starts: seq<Timespec>)
    requires AllHold(handlers) && |starts| == |handlers|
  {
    forall i | 0 <= i < |handlers| :: PendingOf(handlers, last, i) != []
        && starts[i] == PendingOf(handlers, last, i)[0].start
  }

  /** `batch` is each handler's `j`-th pending window. */
  predicate Batch(handlers: seq<seq<Bucket>>, last: seq<Timespec>, j: nat, batch: seq<Bucket>)
    requires AllHold(handlers)
  {
    && |batch| == |handlers|
    && forall i | 0 <= i < |handlers| :: j < |PendingOf(handlers, last, i)|
        && batch[i] == PendingOf(handlers, last, i)[j]
  }

  function StartsOf(batch: seq<Bucket>): (starts: seq<Timespec>)
    ensures |starts| == |batch| && forall i | 0 <= i < |batch| :: starts[i] == batch[i].start
  {
    seq(|batch|, i requires 0 <= i < |batch| => batch[i].start)
  }

  /** Since `before`, `n` windows of every handler were used up. */
  predicate Advanced(handlers: seq<seq<Bucket>>, before: seq<Timespec>, last: seq<Timespec>, n: nat)
    requires AllHold(handlers)
  {
    forall i | 0 <= i < |handlers| ::
      n <= |PendingOf(handlers, before, i)| && PendingOf(handlers, last, i) == PendingOf(handlers, before, i)[n..]
  }

  /** The `j`-th push holds each handler's `j`-th pending window, those are used up, and the last push is marked. */
  predicate Progress(handlers: seq<seq<Bucket>>, before: seq<Timespec>, last: seq<Timespec>, pushes: seq<seq<Bucket>>)
    requires AllHold(handlers)
  {
    && (forall j | 0 <= j < |pushes| :: Batch(handlers, before, j, pushes[j]))
    && Advanced(handlers, before, last, |pushes|)
    && last == if pushes == [] then before else StartsOf(pushes[|pushes| - 1])
  }

  /** How many windows the first handler has left. */
  function Left(handlers: seq<seq<Bucket>>, last: seq<Timespec>): nat
    requires AllHold(handlers)
  {
    if handlers == [] then 0 else |PendingOf(handlers, last, 0)|
  }

  /** Writing the `n` buckets of push `j` goes well. */
  predicate Goes(fails: (nat, nat) -> bool, j: nat, n: nat) {
    forall k | 0 <= k < n :: !fails(j, k)
  }

  predicate AllGo(fails: (nat, nat) -> bool, written: seq<seq<Entry>>) {
    forall j | 0 <= j < |written| :: Goes(fails, j, |written[j]|)
  }

  /** Writing one of the buckets of push `j` fails. */
  ghost predicate FailsAt(fails: (nat, nat) -> bool, j: nat, handlers: nat) {
    exists k :: 0 <= k < handlers && fails(j, k)
  }

  /** Some handler had only `n` windows pending. */
  ghost predicate Spent(handlers: seq<seq<Bucket>>, last: seq<Timespec>, n: nat)
    requires AllHold(handlers)
  {
    handlers == [] || exists i :: 0 <= i < |handlers| && |PendingOf(handlers, last, i)| == n
  }

  lemma Exhausted(handlers: seq<seq<Bucket>>, before: seq<Timespec>, last: seq<Timespec>, pushes: seq<seq<Bucket>>)
    requires AllHold(handlers) && Progress(handlers, before, last, pushes)
    requires handlers == [] || exists i :: 0 <= i < |handlers| && PendingOf(handlers, last, i) == []
    ensures Spent(handlers, before, |pushes|)
  {
    if handlers != [] {
      var i :| 0 <= i < |handlers| && PendingOf(handlers, last, i) == [];
      assert |PendingOf(handlers, before, i)| == |pushes|;
    }
  }

  /** Finds the windows that start at `starts`, one of each handler. */
  method WindowsAt(handlers: seq<seq<Bucket>>, starts: seq<Timespec>, ghost mark: seq<Timespec>)
    returns (windows: seq<Bucket>)
    requires AllHold(handlers) && |starts| == |handlers| && Firsts(handlers, mark, starts)
    ensures |windows| == |handlers| && Batch(handlers, mark, 0, windows)
  {
    windows := [];
    while |windows| < |handlers|
      invariant |windows| <= |handlers|
      invariant forall i | 0 <= i < |windows| ::
                  PendingOf(handlers, mark, i) != [] && windows[i] == PendingOf(handlers, mark, i)[0]
    {
      var i := |windows|;
      assert PendingOf(handlers, mark, i) != [];
      PendingHeld(handlers[i], MarkOf(handlers, mark, i), 0);
      windows := windows + [HeldAt(handlers[i], starts[i]).value];
    }
  }

  /** A push uses up one pending window of every handler. */
  lemma PushAdvances(handlers: seq<seq<Bucket>>, before: seq<Timespec>, last: seq<Timespec>, n: nat,
                     starts: seq<Timespec>, batch: seq<Bucket>)
    requires AllHold(handlers) && |starts| == |handlers| && Firsts(handlers, last, starts)
    requires Advanced(handlers, before, last, n)
    requires Batch(handlers, last, 0, batch)
    ensures Advanced(handlers, before, starts, n + 1) && Batch(handlers, before, n, batch) && starts == StartsOf(batch)
    ensures handlers != [] ==> |PendingOf(handlers, starts, 0)| < |PendingOf(handlers, last, 0)|
  {
    forall i | 0 <= i < |handlers|
      ensures n + 1 <= |PendingOf(handlers, before, i)|
      ensures PendingOf(handlers, starts, i) == PendingOf(handlers, before, i)[n + 1..]
      ensures batch[i] == PendingOf(handlers, before, i)[n] && starts[i] == batch[i].start
      ensures |PendingOf(handlers, starts, i)| < |PendingOf(handlers, last, i)|
    {
      var bs := handlers[i];
      assert PendingOf(handlers, last, i) != [];
      UnsentAfterFirst(bs[NewestClosed(bs)..], MarkOf(handlers, last, i));
      assert PendingOf(handlers, before, i)[n..][1..] == PendingOf(handlers, before, i)[n + 1..];
    }
    assert starts == StartsOf(batch);
  }

  lemma PushProgress(handlers: seq<seq<Bucket>>, before: seq<Timespec>, last: seq<Timespec>, pushes: seq<seq<Bucket>>,
                     starts: seq<Timespec>, batch: seq<Bucket>)
    requires AllHold(handlers) && handlers != [] && Progress(handlers, before, last, pushes)
    requires |starts| == |handlers| && Firsts(handlers, last, starts) && Batch(handlers, last, 0, batch)
    ensures Progress(handlers, before, starts, pushes + [batch]) && Left(handlers, starts) < Left(handlers, last)
  {
    hide AllHold, Batch, Advanced, Firsts;
    PushAdvances(handlers, before, last, |pushes|, starts, batch);
  }

  // ---------------------------------------------------------------------------------------------
  // What a push writes
  // ---------------------------------------------------------------------------------------------

  /** Each handler merges the window of it that was picked. */
  function Merging(windows: seq<Bucket>, now: Timespec): Merge {
    (h: nat, external: Option<Bucket>) =>
      if h < |windows| then MergedBucket(windows[h], external, now) else NewBucket(now, false)
  }

  function Written(m: seq<Entry>): seq<Bucket> {
    if m == [] then [] else Written(m[..|m| - 1]) + [m[|m| - 1].bucket]
  }

  function AllWritten(written: seq<seq<Entry>>): seq<Bucket> {
    if written == [] then [] else AllWritten(written[..|written| - 1]) + Written(written[|written| - 1])
  }

  function SumAll(pushes: seq<seq<Bucket>>, t: Tally): nat {
    if pushes == [] then 0 else SumAll(pushes[..|pushes| - 1], t) + Sum(pushes[|pushes| - 1], t)
  }

  /** The windows of some of the handlers. */
  function PartsOf(windows: seq<Bucket>, parts: seq<nat>): seq<Bucket> {
    if parts == [] then []
    else var p := parts[|parts| - 1];
      PartsOf(windows, parts[..|parts| - 1]) + if p < |windows| then [windows[p]] else []
  }

  lemma PartsNext(windows: seq<Bucket>, parts: seq<nat>, p: nat)
    requires p < |windows|
    ensures PartsOf(windows, parts + [p]) == PartsOf(windows, parts) + [windows[p]]
  {
    assert (parts + [p])[..|parts|] == parts;
  }

  lemma LengthsNext(bs: seq<Bucket>, b: Bucket, now: Timespec)
    ensures Lengths(bs + [b], now) == Lengths(bs, now) + PeriodLength(b, now)
  {
    assert (bs + [b])[..|bs|] == bs;
  }

  lemma NoParts(windows: seq<Bucket>, now: Timespec)
    ensures PartsOf(windows, []) == [] && Lengths([], now) == 0
  {
  }

  /** What handlers make together spans the windows of all of them. */
  lemma {:induction false} ChainSpans(windows: seq<Bucket>, now: Timespec, parts: seq<nat>)
    requires parts != [] && forall i | 0 <= i < |parts| :: parts[i] < |windows|
    ensures var all := PartsOf(windows, parts);
            Spans(Chain(Merging(windows, now), parts), all, now, Lengths(all, now))
  {
    hide Spans, Lengths, PartsOf, PeriodLength, Merged;
    var n := |parts| - 1;
    var front, b := parts[..n], windows[parts[n]];
    assert parts == front + [parts[n]];
    PartsNext(windows, front, parts[n]);
    LengthsNext(PartsOf(windows, front), b, now);
    if n == 0 {
      NoParts(windows, now);
      assert front == [];
      SpansOne(b, now);
      assert [] + [b] == [b];
    } else {
      ChainSpans(windows, now, front);
      var before := PartsOf(windows, front);
      SpansNext(Chain(Merging(windows, now), front), before, now, Lengths(before, now), b, now);
    }
  }

  /** What the windows of the first `n` handlers count, by class. */
  function ClassSum(m: seq<Entry>, likes: seq<Like>, windows: seq<Bucket>, n: nat, t: Tally): nat
    requires n <= |likes|
  {
    if m == [] then 0
    else ClassSum(m[..|m| - 1], likes, windows, n, t) + Sum(PartsOf(windows, Of(likes, n, m[|m| - 1].cls)), t)
  }

  lemma OfNext(likes: seq<Like>, windows: seq<Bucket>, n: nat, cls: int, t: Tally)
    requires n < |likes| == |windows|
    ensures Sum(PartsOf(windows, Of(likes, n + 1, cls)), t) ==
            Sum(PartsOf(windows, Of(likes, n, cls)), t) + if likes[n].cls == cls then Value(windows[n], t) else 0
  {
    hide Sum, PartsOf;
    var before := Of(likes, n, cls);
    if likes[n].cls == cls {
      PartsNext(windows, before, n);
      SumConcat(PartsOf(windows, before), [windows[n]], t);
      SumOne(windows[n], t);
    } else {
      assert Of(likes, n + 1, cls) == before;
    }
  }

  lemma HasClassFront(m: seq<Entry>, cls: int)
    requires m != [] && OneEach(m)
    ensures HasClass(m, cls) <==> HasClass(m[..|m| - 1], cls) || m[|m| - 1].cls == cls
    ensures m[|m| - 1].cls == cls ==> !HasClass(m[..|m| - 1], cls)
  {
    var front := m[..|m| - 1];
    if HasClass(m, cls) && m[|m| - 1].cls != cls {
      var i :| 0 <= i < |m| && m[i].cls == cls;
      assert front[i].cls == cls;
    }
    if HasClass(front, cls) {
      var i :| 0 <= i < |front| && front[i].cls == cls;
      assert m[i].cls == cls;
    }
  }

  /** One more handler adds what its window counts to the one entry of its class, if there is one. */
  lemma {:induction false} ClassSumNext(m: seq<Entry>, likes: seq<Like>, windows: seq<Bucket>, n: nat, t: Tally)
    requires n < |likes| == |windows| && OneEach(m)
    ensures ClassSum(m, likes, windows, n + 1, t) ==
            ClassSum(m, likes, windows, n, t) + if HasClass(m, likes[n].cls) then Value(windows[n], t) else 0
  {
    hide Sum, PartsOf, Of;
    if m != [] {
      var front, e := m[..|m| - 1], m[|m| - 1];
      ClassSumNext(front, likes, windows, n, t);
      OfNext(likes, windows, n, e.cls, t);
      HasClassFront(m, likes[n].cls);
    }
  }

  lemma {:induction false} NoHandlers(m: seq<Entry>, likes: seq<Like>, windows: seq<Bucket>, t: Tally)
    ensures ClassSum(m, likes, windows, 0, t) == 0
  {
    if m != [] {
      NoHandlers(m[..|m| - 1], likes, windows, t);
    }
  }

  lemma {:induction false} ClassSumAll(m: seq<Entry>, likes: seq<Like>, windows: seq<Bucket>, n: nat, t: Tally)
    requires n <= |likes| == |windows| && OneEach(m) && forall h | 0 <= h < n :: HasClass(m, likes[h].cls)
    ensures ClassSum(m, likes, windows, n, t) == Sum(windows[..n], t)
  {
    hide OneEach, HasClass, ClassSum;
    if n == 0 {
      NoHandlers(m, likes, windows, t);
    } else {
      ClassSumAll(m, likes, windows, n - 1, t);
      ClassSumNext(m, likes, windows, n - 1, t);
      assert windows[..n][..n - 1] == windows[..n - 1];
    }
  }

  /** Every merged bucket spans the windows of the handlers of its class. */
  predicate AllSpan(m: seq<Entry>, windows: seq<Bucket>, now: Timespec) {
    forall i | 0 <= i < |m| ::
      var all := PartsOf(windows, m[i].parts); Spans(m[i].bucket, all, now, Lengths(all, now))
  }

  lemma MergeSpans(m: seq<Entry>, likes: seq<Like>, windows: seq<Bucket>, now: Timespec)
    requires |windows| == |likes| && Grouped(m, likes, |likes|, Merging(windows, now))
    ensures AllSpan(m, windows, now)
  {
    hide Spans, Lengths, PartsOf, Merging, Chain;
    forall i | 0 <= i < |m|
      ensures var all := PartsOf(windows, m[i].parts); Spans(m[i].bucket, all, now, Lengths(all, now))
    {
      assert EntryOk(m[i], likes, |likes|, Merging(windows, now));
      OfClass(likes, |likes|, m[i].cls);
      ChainSpans(windows, now, m[i].parts);
    }
  }

  lemma {:induction false} WrittenSum(m: seq<Entry>, likes: seq<Like>, windows: seq<Bucket>, now: Timespec, t: Tally)
    requires AllSpan(m, windows, now) && forall i | 0 <= i < |m| :: m[i].parts == Of(likes, |likes|, m[i].cls)
    ensures Sum(Written(m), t) == ClassSum(m, likes, windows, |likes|, t)
  {
    if m != [] {
      hide Of, PartsOf, Lengths, Earliest, Latest;
      var front, e := m[..|m| - 1], m[|m| - 1];
      WrittenSum(front, likes, windows, now, t);
      assert Written(m)[..|Written(m)| - 1] == Written(front);
      assert Value(e.bucket, t) == Sum(PartsOf(windows, e.parts), t);
    }
  }

  /** A push writes every event of the windows it merges, once. */
  lemma MergeConserves(m: seq<Entry>, likes: seq<Like>, windows: seq<Bucket>, now: Timespec, t: Tally)
    requires |windows| == |likes| && Grouped(m, likes, |likes|, Merging(windows, now))
    ensures Sum(Written(m), t) == Sum(windows, t)
  {
    hide AllSpan, Sum, Written, ClassSum, HasClass, Merging, Chain;
    MergeSpans(m, likes, windows, now);
    WrittenSum(m, likes, windows, now, t);
    ClassSumAll(m, likes, windows, |likes|, t);
    assert windows[..|likes|] == windows;
  }

  /** Each push was written whole, one bucket per class. */
  ghost predicate Complete(likes: seq<Like>, pushes: seq<seq<Bucket>>, written: seq<seq<Entry>>, now: nat -> Timespec) {
    && |written| == |pushes|
    && forall j | 0 <= j < |pushes| ::
         && |pushes[j]| == |likes| && Sorted(written[j])
         && Grouped(written[j], likes, |likes|, Merging(pushes[j], now(j)))
  }

  lemma CompleteNext(likes: seq<Like>, pushes: seq<seq<Bucket>>, written: seq<seq<Entry>>, now: nat -> Timespec,
                     windows: seq<Bucket>, m: seq<Entry>)
    requires Complete(likes, pushes, written, now) && |windows| == |likes| && Sorted(m)
    requires Grouped(m, likes, |likes|, Merging(windows, now(|pushes|)))
    ensures Complete(likes, pushes + [windows], written + [m], now)
  {
  }

  /** What all the pushes write counts every event of the windows they merge, once. */
  lemma {:induction false} PushesConserve(likes: seq<Like>, pushes: seq<seq<Bucket>>, written: seq<seq<Entry>>,
                                          now: nat -> Timespec, t: Tally)
    requires Complete(likes, pushes, written, now)
    ensures Sum(AllWritten(written), t) == SumAll(pushes, t)
  {
    if pushes != [] {
      var n := |pushes| - 1;
      PushesConserve(likes, pushes[..n], written[..n], now, t);
      MergeConserves(written[n], likes, pushes[n], now(n), t);
      SumConcat(AllWritten(written[..n]), Written(written[n]), t);
    }
  }

  lemma PushesSpan(likes: seq<Like>, pushes: seq<seq<Bucket>>, written: seq<seq<Entry>>, now: nat -> Timespec)
    requires Complete(likes, pushes, written, now)
    ensures |written| == |pushes| && forall j | 0 <= j < |pushes| :: AllSpan(written[j], pushes[j], now(j))
  {
    forall j | 0 <= j < |pushes| ensures AllSpan(written[j], pushes[j], now(j)) {
      MergeSpans(written[j], likes, pushes[j], now(j));
    }
  }

  /** Writes the merged buckets of push `j`; if writing one fails, what was written is dropped. */
  method ExportMerged(scope: seq<Bucket>, m: seq<Entry>, fails: (nat, nat) -> bool, j: nat)
    returns (ok: bool, scope': seq<Bucket>)
    ensures ok <==> Goes(fails, j, |m|)
    ensures scope' == if ok then scope + Written(m) else scope
  {
    ok, scope' := true, scope;
    var k := 0;
    while k < |m|
      invariant k <= |m| && Goes(fails, j, k)
      invariant scope' == scope + Written(m[..k])
    {
      if fails(j, k) {
        scope' := scope'[..|scope|];
        return false, scope';
      }
      assert m[..k + 1][..k] == m[..k];
      scope' := scope' + [m[k].bucket];
      k := k + 1;
    }
    assert m[..k] == m;
  }

  /** The handlers of a policy: what they hold, their classes, and where the buckets of each push are allocated. */
  datatype Group = Group(held: seq<seq<Bucket>>, likes: seq<Like>, addresses: nat -> seq<int>, now: nat -> Timespec)

  ghost predicate Proper(p: Group) {
    && AllHold(p.held) && |p.likes| == |p.held| && SchemaPerClass(p.likes)
    && forall j: nat :: |p.addresses(j)| == |p.likes| && Distinct(p.addresses(j))
  }

  lemma NothingPushed(p: Group, last: seq<Timespec>)
    requires Proper(p)
    ensures Progress(p.held, last, last, []) && Complete(p.likes, [], [], p.now)
  {
  }

  class Merger {
    /** The start of each handler's window merged last; empty while none was. */
    var last: seq<Timespec>

    /** Pushes one window of every handler at a time while every handler has one; stops at a push that fails. Each
        push merges the windows held by their starts, and is marked only once it is written. */
    method PushAll(p: Group, scope: seq<Bucket>, fails: (nat, nat) -> bool)
      returns (pushes: seq<seq<Bucket>>, written: seq<seq<Entry>>, scope': seq<Bucket>)
      requires Proper(p) && (last == [] || |last| == |p.held|)
      modifies this`last
      ensures Progress(p.held, old(last), last, pushes)
      ensures Complete(p.likes, pushes, written, p.now) && scope' == scope + AllWritten(written)
      ensures AllGo(fails, written)
      ensures FailsAt(fails, |pushes|, |p.held|) || Spent(p.held, old(last), |pushes|)
      ensures forall j | 0 <= j < |pushes| :: AllSpan(written[j], pushes[j], p.now(j))
      ensures forall t: Tally :: Sum(scope', t) == Sum(scope, t) + SumAll(pushes, t)
    {
      hide Complete, Progress, Spent, Left, Written, AllHold;
      ghost var before := last;
      NothingPushed(p, last);
      pushes, written, scope' := [], [], scope;
      var more := true;
      while more
        invariant Progress(p.held, before, last, pushes)
        invariant Complete(p.likes, pushes, written, p.now) && scope' == scope + AllWritten(written)
        invariant |written| == |pushes| && AllGo(fails, written)
        invariant more || FailsAt(fails, |pushes|, |p.held|) || Spent(p.held, before, |pushes|)
        decreases more, Left(p.held, last)
      {
        more, pushes, written, scope' := PushOne(p, before, pushes, written, scope', fails);
      }
      forall t: Tally ensures Sum(scope', t) == Sum(scope, t) + SumAll(pushes, t) {
        PushesConserve(p.likes, pushes, written, p.now, t);
        SumConcat(scope, AllWritten(written), t);
      }
      PushesSpan(p.likes, pushes, written, p.now);
    }

    /** One turn: no more if a handler has no window left, or the push fails. */
    method PushOne(p: Group, ghost before: seq<Timespec>, pushes: seq<seq<Bucket>>, written: seq<seq<Entry>>,
                   scope: seq<Bucket>, fails: (nat, nat) -> bool)
      returns (more: bool, pushes': seq<seq<Bucket>>, written': seq<seq<Entry>>, scope': seq<Bucket>)
      requires Proper(p) && Progress(p.held, before, last, pushes) && Complete(p.likes, pushes, written, p.now)
      modifies this`last
      ensures Progress(p.held, before, last, pushes') && Complete(p.likes, pushes', written', p.now)
      ensures more ==>
                var n := |pushes|;
                && |pushes'| == n + 1 == |written'| && written' == written + [written'[n]]
                    && scope' == scope + Written(written'[n])
                && Goes(fails, n, |written'[n]|)
                && Left(p.held, last) < Left(p.held, old(last))
      ensures !more ==>
                && pushes' == pushes && written' == written && scope' == scope && last == old(last)
                && (FailsAt(fails, |pushes|, |p.held|) || Spent(p.held, before, |pushes|))
    {
      hide Complete, Progress, Grouped, Sorted, SchemaPerClass, Distinct, Batch, PendingOf, Decreasing, Chained,
           Spent, Left;
      more, pushes', written', scope' := false, pushes, written, scope;
      var starts := NextMergedWindows(p.held, last);
      if starts.None? {
        Exhausted(p.held, before, last, pushes);
        return;
      }
      var n := |pushes|;
      var windows := WindowsAt(p.held, starts.value, last);
      var m := GetMergedBuckets(p.likes, p.addresses(n), Merging(windows, p.now(n)));
      more, scope' := ExportMerged(scope, m, fails, n);
      if !more {
        return;
      }
      PushProgress(p.held, before, last, pushes, starts.value, windows);
      CompleteNext(p.likes, pushes, written, p.now, windows, m);
      last := starts.value;
      pushes', written' := pushes + [windows], written + [m];
    }
  }
}
