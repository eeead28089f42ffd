/** Loading and removing policies as the managers do it, in place and one step at a time. A load may fail at any
    of its steps; its journal is what the rollback undoes. */
module PolicyManager {
  import opened Registry

  /** What a load has done so far, for its rollback. */
  datatype Journal = Journal(inputs: seq<InputName>, handlers: seq<Name>, attached: seq<InputName>,
                             resources: seq<Name>)

  // ---------------------------------------------------------------------------------------------
  // What the steps of a teardown make of the maps
  // ---------------------------------------------------------------------------------------------

  /** Stopping a policy detaches it from its inputs, and stops those that no other policy uses. */
  function StoppedInput(input: Input, p: Name): Input {
    Input(Without(input.policies, p), input.running && 1 < |input.policies|)
  }

  /** A policy was the only one attached exactly if none is left. */
  lemma LastDetached(policies: seq<Name>, p: Name)
    requires p in policies && Distinct(policies)
    ensures Without(policies, p) == [] <==> |policies| == 1
  {
    if |policies| == 1 {
      assert policies == [] + [p];
      WithoutAppend([], p, p);
    } else {
      var other := if policies[0] == p then policies[1] else policies[0];
      assert other in Without(policies, p);
    }
  }

  function StoppedInputs(inputs: map<InputName, Input>, names: seq<InputName>, p: Name): map<InputName, Input> {
    map i | i in inputs :: if i in names then StoppedInput(inputs[i], p) else inputs[i]
  }

  function StoppedHandlers(handlers: map<Name, bool>, names: seq<Name>): map<Name, bool> {
    map h | h in handlers :: handlers[h] && h !in names
  }

  /** An input that keeps one attachment which must be its resources policy's. */
  predicate Lone(s: State, i: InputName, leaving: Name)
    requires i in s.inputs
  {
    |s.inputs[i].policies| == 1 && leaving != Resources(i) && Resources(i) in s.policies
  }

  function UnusedRemoved(s: State, i: InputName, leaving: Name): State
    requires i in s.inputs
  {
    var lone := Lone(s, i, leaving);
    var input := if lone then StoppedInput(s.inputs[i], Resources(i)) else s.inputs[i];
    State(
      if lone then s.policies - {Resources(i)} else s.policies,
      if lone then s.handlers - {Resources(i)} else s.handlers,
      if input.policies == [] then s.inputs - {i} else s.inputs[i := input])
  }

  // ---------------------------------------------------------------------------------------------
  // What a journal accounts for
  // ---------------------------------------------------------------------------------------------

  /** Every registered module was there before, untouched, or is in the journal. */
  ghost predicate HandlersKept(before: State, handlers: map<Name, bool>, names: seq<Name>) {
    && Distinct(names)
    && handlers.Keys == before.handlers.Keys + Elems(names)
    && (forall h | h in names :: h !in before.handlers)
    && (forall h | h in before.handlers :: handlers[h] == before.handlers[h])
  }

  ghost predicate PoliciesKept(before: State, policies: map<Name, Policy>, j: Journal) {
    && Distinct(j.resources)
    && policies.Keys == before.policies.Keys + Elems(j.resources)
    && (forall p | p in before.policies :: p !in j.resources && policies[p] == before.policies[p])
    && (forall r | r in j.resources ::
          r.Resources? && r.input in j.inputs && r in j.handlers && policies[r] == ResourcesPolicy(r.input))
  }

  function Attach(input: Input, p: Name): Input {
    Input(input.policies + [p], input.running)
  }

  ghost predicate InputsKept(before: State, inputs: map<InputName, Input>, me: Name, added: seq<InputName>,
                             attached: seq<InputName>) {
    && Distinct(added)
    && inputs.Keys == before.inputs.Keys + Elems(added)
    && (forall i | i in added :: i !in before.inputs)
    && (forall i | i in attached :: i in inputs)
    && (forall i | i in before.inputs ::
          inputs[i] == if i in attached then Attach(before.inputs[i], me) else before.inputs[i])
  }

  /** Every difference from `before` is in the journal. */
  ghost predicate Kept(before: State, s: State, me: Name, j: Journal) {
    && HandlersKept(before, s.handlers, j.handlers)
    && PoliciesKept(before, s.policies, j)
    && InputsKept(before, s.inputs, me, j.inputs, j.attached)
  }

  /** The state `s` can be taken back to `before`: the policy `me` and its journal account for the difference. */
  ghost predicate Undoable(before: State, s: State, me: Name, policy: Policy, j: Journal) {
    && Kept(before, s, me, j)
    && me !in before.policies
    && (policy.running ==>
          policy.inputs == j.attached && Distinct(policy.inputs)
          && forall m | m in policy.modules :: m in j.handlers)
  }

  /** The inputs of the taps handled so far are open and have the policy attached. */
  ghost predicate InputsLoading(before: State, inputs: map<InputName, Input>, me: Name, taps: seq<Tap>,
                                added: seq<InputName>) {
    && InputsKept(before, inputs, me, added, Inputs(taps))
    && Elems(added) == Elems(Inputs(taps)) - before.inputs.Keys
    && (forall i | i in added :: inputs[i].policies == [me])
  }

  /** The journal of a load that has handled some taps. */
  function JournalOf(taps: seq<Tap>, added: seq<InputName>): Journal {
    Journal(added, Handlers(taps), Inputs(taps), [])
  }

  /** The resources policies of `inputs`, if they are available. */
  function Created(inputs: seq<InputName>, available: bool): (names: seq<Name>)
    ensures available ==> |names| == |inputs| && forall k | 0 <= k < |inputs| :: names[k] == Resources(inputs[k])
    ensures !available ==> names == []
    ensures forall n :: n in names <==> available && n.Resources? && n.input in inputs
  {
    if available then seq(|inputs|, k requires 0 <= k < |inputs| => Resources(inputs[k])) else []
  }

  /** Everything is started; `p` itself is the only thing left to register. */
  ghost predicate Ready(before: State, s: State, spec: PolicySpec, p: Policy, j: Journal, available: bool) {
    && Undoable(before, s, Plain(spec.name), p, j)
    && p == Policy(Inputs(spec.taps), Handlers(spec.taps), true)
    && Elems(j.inputs) == NewInputs(before, spec)
    && j.attached == p.inputs
    && j.resources == Created(j.inputs, available)
    && j.handlers == p.modules + Created(j.inputs, available)
    && (forall h | h in j.handlers :: s.handlers[h])
    && (forall i | i in j.inputs :: s.inputs[i] ==
          Input(if available then [Plain(spec.name), Resources(i)] else [Plain(spec.name)], true))
  }

  /** None of the steps from `n` up to `m` fails. */
  ghost predicate NoneFailed(fails: nat -> bool, n: nat, m: nat) {
    n <= m && forall k | n <= k < m :: !fails(k)
  }

  ghost predicate SomeFailed(fails: nat -> bool, n: nat, m: nat) {
    exists k :: n <= k < m && fails(k)
  }

  // How many steps a load takes if none fails: for each tap, finding it, creating its input if that is new, joining the
  // input, and making and registering each handler; then a handler for each new input if there are resources policies,
  // starting every handler and input, three steps for each resources policy, and registering the policy.

  function NewCount(before: State, taps: seq<Tap>): nat {
    if taps == [] then 0
    else NewCount(before, taps[..|taps| - 1]) + if taps[|taps| - 1].input in before.inputs then 0 else 1
  }

  function TapSteps(before: State, tap: Tap): nat {
    (if tap.input in before.inputs then 1 else 2) + 1 + 2 * |tap.handlers|
  }

  function TapsSteps(before: State, taps: seq<Tap>): nat {
    if taps == [] then 0 else TapsSteps(before, taps[..|taps| - 1]) + TapSteps(before, taps[|taps| - 1])
  }

  function StartSteps(added: nat, spec: PolicySpec, available: bool): nat {
    |Handlers(spec.taps)| + |spec.taps| + if available then 4 * added else 0
  }

  function LoadSteps(before: State, spec: PolicySpec, available: bool): nat {
    TapsSteps(before, spec.taps) + StartSteps(NewCount(before, spec.taps), spec, available) + 1
  }

  /** The inputs of all taps are those of the taps before the last, and one more. */
  lemma LastInput(taps: seq<Tap>)
    requires taps != [] && Distinct(Inputs(taps))
    ensures var front, i := taps[..|taps| - 1], taps[|taps| - 1].input;
            Distinct(Inputs(front)) && Elems(Inputs(taps)) == Elems(Inputs(front)) + {i} && i !in Elems(Inputs(front))
  {
    var n := |taps| - 1;
    assert Inputs(taps) == Inputs(taps[..n]) + [taps[n].input];
    assert forall k | 0 <= k < n :: Inputs(taps[..n])[k] == Inputs(taps)[k];
  }

  lemma NoInputs()
    ensures Elems(Inputs([])) == {}
  {
  }

  lemma OneMore<T>(a: set<T>, x: T, keys: set<T>)
    requires x !in a
    ensures |(a + {x}) - keys| == |a - keys| + if x in keys then 0 else 1
  {
    if x in keys {
      assert (a + {x}) - keys == a - keys;
    } else {
      assert (a + {x}) - keys == (a - keys) + {x};
    }
  }

  lemma {:induction false} NewCountIs(before: State, taps: seq<Tap>)
    requires Distinct(Inputs(taps))
    ensures NewCount(before, taps) == |Elems(Inputs(taps)) - before.inputs.Keys|
  {
    hide Elems, Inputs, Distinct;
    var keys := before.inputs.Keys;
    if taps == [] {
      NoInputs();
    } else {
      LastInput(taps);
      var front, i := taps[..|taps| - 1], taps[|taps| - 1].input;
      NewCountIs(before, front);
      OneMore(Elems(Inputs(front)), i, keys);
    }
  }

  lemma {:induction false} TapsStepsIs(before: State, taps: seq<Tap>)
    ensures TapsSteps(before, taps) == 2 * |taps| + NewCount(before, taps) + 2 * |Handlers(taps)|
  {
    if taps != [] {
      TapsStepsIs(before, taps[..|taps| - 1]);
    }
  }

  /** A load has three steps for each tap and three for each handler, one for each input it creates, four more for that
      input's resources policy if there is one, and a last one. */
  lemma LoadStepsIs(before: State, spec: PolicySpec, available: bool)
    requires WellFormed(spec)
    ensures LoadSteps(before, spec, available)
         == 3 * |spec.taps| + 3 * |Handlers(spec.taps)| + |NewInputs(before, spec)| * (if available then 5 else 1) + 1
  {
    hide Elems;
    NewCountIs(before, spec.taps);
    TapsStepsIs(before, spec.taps);
  }

  lemma StepsNext(before: State, taps: seq<Tap>, t: nat)
    requires t < |taps|
    ensures TapsSteps(before, taps[..t + 1]) == TapsSteps(before, taps[..t]) + TapSteps(before, taps[t])
    ensures NewCount(before, taps[..t + 1]) == NewCount(before, taps[..t]) + NewCount(before, [taps[t]])
    ensures TapsSteps(before, taps[..t + 1]) <= TapsSteps(before, taps)
  {
    assert taps[..t + 1][..t] == taps[..t];
    assert NewCount(before, [taps[t]][..0]) == 0;
    StepsPrefix(before, taps, t + 1);
  }

  lemma {:induction false} StepsPrefix(before: State, taps: seq<Tap>, t: nat)
    requires t <= |taps|
    ensures TapsSteps(before, taps[..t]) <= TapsSteps(before, taps)
  {
    if t < |taps| {
      var n := |taps| - 1;
      StepsPrefix(before, taps[..n], t);
      assert taps[..n][..t] == taps[..t];
    } else {
      assert taps[..t] == taps;
    }
  }

  /** A load that has not begun. */
  lemma NothingLoaded(before: State, me: Name, fails: nat -> bool)
    ensures HandlersKept(before, before.handlers, []) && InputsLoading(before, before.inputs, me, [], [])
    ensures InputsKept(before, before.inputs, me, [], [])
    ensures JournalOf([], []) == Journal([], [], [], []) && Inputs([]) == [] && Handlers([]) == []
    ensures NoneFailed(fails, 0, 0) && TapsSteps(before, []) == 0 == NewCount(before, [])
  {
    assert Inputs([]) == [];
  }

  lemma NoSteps(fails: nat -> bool, n: nat)
    ensures NoneFailed(fails, n, n)
  {
  }

  lemma FailedEarlier(fails: nat -> bool, n: nat, l: nat, m: nat)
    requires NoneFailed(fails, n, l)
    ensures SomeFailed(fails, l, m) ==> SomeFailed(fails, n, m)
    ensures NoneFailed(fails, l, m) ==> NoneFailed(fails, n, m)
  {
  }

  /** A handler name is taken, or is used twice. */
  ghost predicate Clash(before: State, names: seq<Name>) {
    !Distinct(names) || exists h :: h in names && h in before.handlers
  }

  lemma TakeNext<T>(a: seq<T>, s: seq<T>, k: nat)
    requires k < |s|
    ensures a + s[..k] + [s[k]] == a + s[..k + 1] && s[..k + 1] == s[..k] + [s[k]]
  {
  }

  lemma CreatedNext(inputs: seq<InputName>, k: nat)
    requires k < |inputs|
    ensures Created(inputs[..k + 1], true) == Created(inputs[..k], true) + [Resources(inputs[k])]
  {
  }

  lemma NextOf(s: seq<InputName>, k: nat)
    requires Distinct(s) && k < |s|
    ensures s[k] in s && s[k] !in s[..k] && s[k] !in s[k + 1..] && s[..k + 1] == s[..k] + [s[k]]
    ensures s[k..] == [s[k]] + s[k + 1..]
  {
  }

  function Registered(j: Journal, k: nat): Journal
    requires k <= |j.inputs|
  {
    j.(resources := Created(j.inputs[..k], true))
  }

  /** The first `k` of the new inputs have their resources policy attached. */
  ghost predicate InputsWatched(inputs: map<InputName, Input>, me: Name, names: seq<InputName>, k: nat) {
    forall l | 0 <= l < |names| ::
      names[l] in inputs && inputs[names[l]] == Input(if l < k then [me, Resources(names[l])] else [me], true)
  }

  ghost predicate AllRun(handlers: map<Name, bool>, names: seq<Name>) {
    forall h | h in names :: h in handlers && handlers[h]
  }

  lemma AllRunFrame(hs: map<Name, bool>, hs': map<Name, bool>, names: seq<Name>, r: Name)
    requires AllRun(hs, names) && r in hs' && hs'[r]
    requires hs'.Keys == hs.Keys && forall h | h in hs' && h != r :: hs'[h] == hs[h]
    ensures AllRun(hs', names)
  {
  }

  /** The new inputs can each have a resources policy. */
  ghost predicate Watchable(before: State, j: Journal) {
    Distinct(j.inputs) && forall i | i in j.inputs :: Resources(i) in j.handlers && Resources(i) !in before.policies
  }

  lemma WatchableNext(before: State, j: Journal, k: nat)
    requires Watchable(before, j) && k < |j.inputs|
    ensures var i := j.inputs[k];
            i in j.inputs && Resources(i) in j.handlers && Resources(i) !in before.policies
                && Resources(i) !in Registered(j, k).resources
    ensures Registered(j, k + 1)
            == Registered(j, k).(resources := Registered(j, k).resources + [Resources(j.inputs[k])])
  {
    NextOf(j.inputs, k);
    CreatedNext(j.inputs, k);
  }

  lemma WatchedNext(inputs: map<InputName, Input>, inputs': map<InputName, Input>, me: Name, names: seq<InputName>,
                    k: nat)
    requires Distinct(names) && k < |names| && InputsWatched(inputs, me, names, k)
    requires inputs'.Keys == inputs.Keys && (forall l | l in inputs' && l != names[k] :: inputs'[l] == inputs[l])
    requires inputs'[names[k]] == Input(inputs[names[k]].policies + [Resources(names[k])], true)
    ensures InputsWatched(inputs', me, names, k + 1)
  {
    assert [me] + [Resources(names[k])] == [me, Resources(names[k])];
    assert inputs'[names[k]] == Input([me, Resources(names[k])], true);
  }

  lemma HandlersFrame(before: State, hs: map<Name, bool>, hs': map<Name, bool>, names: seq<Name>, r: Name)
    requires HandlersKept(before, hs, names) && r in names
    requires hs'.Keys == hs.Keys && forall h | h in hs' && h != r :: hs'[h] == hs[h]
    ensures HandlersKept(before, hs', names)
  {
  }

  lemma InputsFrame(before: State, ins: map<InputName, Input>, ins': map<InputName, Input>, me: Name,
                    added: seq<InputName>, attached: seq<InputName>, i: InputName)
    requires InputsKept(before, ins, me, added, attached) && i in added
    requires ins'.Keys == ins.Keys && forall l | l in ins' && l != i :: ins'[l] == ins[l]
    ensures InputsKept(before, ins', me, added, attached)
  {
  }

  lemma PoliciesKeptNext(before: State, policies: map<Name, Policy>, j: Journal, i: InputName)
    requires PoliciesKept(before, policies, j)
    requires i in j.inputs && Resources(i) in j.handlers && Resources(i) !in before.policies
    requires Resources(i) !in j.resources
    ensures PoliciesKept(before, policies[Resources(i) := ResourcesPolicy(i)],
            j.(resources := j.resources + [Resources(i)]))
  {
    ElemsNext(j.resources, Resources(i));
  }

  lemma KeptNext(before: State, handlers: map<Name, bool>, names: seq<Name>, h: Name, running: bool)
    requires HandlersKept(before, handlers, names) && h !in handlers
    ensures HandlersKept(before, handlers[h := running], names + [h])
  {
  }

  lemma KeptOpened(before: State, inputs: map<InputName, Input>, me: Name, added: seq<InputName>,
                   attached: seq<InputName>, i: InputName)
    requires InputsKept(before, inputs, me, added, attached) && i !in inputs
    ensures InputsKept(before, inputs[i := Input([], false)], me, added + [i], attached)
  {
  }

  lemma KeptAttached(before: State, inputs: map<InputName, Input>, me: Name, added: seq<InputName>,
                     attached: seq<InputName>, i: InputName)
    requires InputsKept(before, inputs, me, added, attached) && i in inputs && i !in attached
    ensures InputsKept(before, inputs[i := Attach(inputs[i], me)], me, added, attached + [i])
  {
  }

  /** Opening the next tap's input and attaching the policy to it. */
  lemma InputsLoadingNext(before: State, inputs: map<InputName, Input>, me: Name, taps: seq<Tap>, tap: Tap,
                          added: seq<InputName>)
    requires InputsLoading(before, inputs, me, taps, added) && tap.input !in Inputs(taps)
    ensures var ready := if tap.input in inputs then inputs else inputs[tap.input := Input([], false)];
            var added' := if tap.input in inputs then added else added + [tap.input];
            InputsLoading(before, ready[tap.input := Attach(ready[tap.input], me)], me, taps + [tap], added')
  {
    var i := tap.input;
    assert i !in Elems(added);
    var ready := if i in inputs then inputs else inputs[i := Input([], false)];
    var added' := if i in inputs then added else added + [i];
    if i !in inputs {
      KeptOpened(before, inputs, me, added, Inputs(taps), i);
    }
    KeptAttached(before, ready, me, added', Inputs(taps), i);
    AttachedNext(before, taps, tap, added, added');
  }

  /** Attaching the next tap. */
  lemma AttachedNext(before: State, taps: seq<Tap>, tap: Tap, added: seq<InputName>, added': seq<InputName>)
    requires added' == if tap.input in before.inputs then added else added + [tap.input]
    requires Elems(added) == Elems(Inputs(taps)) - before.inputs.Keys
    ensures Inputs(taps + [tap]) == Inputs(taps) + [tap.input]
    ensures Handlers(taps + [tap]) == Handlers(taps) + tap.handlers
    ensures Elems(added') == Elems(Inputs(taps + [tap])) - before.inputs.Keys
  {
    assert (taps + [tap])[..|taps|] == taps;
    ElemsNext(Inputs(taps), tap.input);
    ElemsNext(added, tap.input);
    assert Inputs(taps + [tap]) == Inputs(taps) + [tap.input];
  }

  lemma ElemsNext<T>(s: seq<T>, x: T)
    ensures Elems(s + [x]) == Elems(s) + {x}
  {
  }

  lemma ClashNext(before: State, handlers: map<Name, bool>, names: seq<Name>, more: seq<Name>, k: nat)
    requires k < |more| && HandlersKept(before, handlers, names + more[..k]) && more[k] in handlers
    ensures Clash(before, names + more)
  {
    var all := names + more;
    assert all[|names| + k] == more[k];
    if more[k] !in before.handlers {
      var l :| 0 <= l < |names + more[..k]| && (names + more[..k])[l] == more[k];
      assert all[l] == all[|names| + k];
    } else {
      assert more[k] in all;
    }
  }

  lemma NothingRegistered(before: State, j: Journal)
    requires j.resources == []
    ensures PoliciesKept(before, before.policies, j)
  {
  }

  lemma ClashNotLoadable(before: State, spec: PolicySpec, added: seq<InputName>, available: bool)
    requires Clash(before, Handlers(spec.taps) + Created(added, available)) && Distinct(added)
    requires Elems(added) == NewInputs(before, spec)
    ensures !Loadable(before, spec, available)
  {
    var hs, rs := Handlers(spec.taps), Created(added, available);
    if Distinct(hs) && forall r | r in rs :: r !in hs {
      DistinctJoin(hs, rs);
      var h :| h in hs + rs && h in before.handlers;
    } else if Distinct(hs) {
      var r :| r in rs && r in hs;
      assert r.input in Elems(added);
    }
  }

  lemma DistinctJoin(a: seq<Name>, b: seq<Name>)
    requires Distinct(a) && Distinct(b) && forall x | x in b :: x !in a
    ensures Distinct(a + b)
  {
    assert forall k | 0 <= k < |b| :: b[k] in b;
  }

  lemma StartedHandlers(before: State, hs: map<Name, bool>, hs': map<Name, bool>, modules: seq<Name>,
                        created: seq<Name>)
    requires HandlersKept(before, hs, modules + created) && AllRun(hs, created)
    requires hs'.Keys == hs.Keys && forall h | h in hs' && h !in modules :: hs'[h] == hs[h]
    ensures HandlersKept(before, hs', modules + created)
    ensures (forall m | m in modules :: hs'[m]) ==> AllRun(hs', modules + created)
  {
    DistinctParts(modules, created);
    assert forall m | m in modules :: m in modules + created;
    assert forall r | r in created :: r in modules + created;
  }

  lemma StartedInputs(before: State, ins: map<InputName, Input>, ins': map<InputName, Input>, me: Name,
                      added: seq<InputName>, attached: seq<InputName>)
    requires InputsKept(before, ins, me, added, attached) && forall i | i in before.inputs :: before.inputs[i].running
    requires ins'.Keys == ins.Keys && forall i | i in ins' :: ins'[i] == ins[i] || ins'[i] == ins[i].(running := true)
    ensures InputsKept(before, ins', me, added, attached)
  {
    forall i | i in before.inputs ensures ins'[i] == ins[i] {
      assert ins[i].running;
    }
  }

  lemma StartedWatched(before: State, ins: map<InputName, Input>, ins': map<InputName, Input>, me: Name,
                       taps: seq<Tap>, added: seq<InputName>)
    requires InputsLoading(before, ins, me, taps, added)
    requires ins'.Keys == ins.Keys && forall i | i in ins' :: ins'[i] == ins[i] || ins'[i] == ins[i].(running := true)
    requires forall i | i in Inputs(taps) :: ins'[i].running
    ensures InputsWatched(ins', me, added, 0)
  {
    forall l | 0 <= l < |added| ensures added[l] in ins' && ins'[added[l]] == Input([me], true) {
      assert added[l] in Elems(added);
    }
  }

  lemma WatchableAll(before: State, j: Journal)
    requires Distinct(j.inputs)
    requires forall i | i in j.inputs :: Resources(i) in j.handlers && Resources(i) !in before.policies
    requires j.resources == []
    ensures Watchable(before, j) && Registered(j, 0) == j
  {
  }

  lemma ReadyNow(before: State, s: State, spec: PolicySpec, p: Policy, j: Journal, available: bool)
    requires Kept(before, s, Plain(spec.name), j) && Plain(spec.name) !in before.policies && WellFormed(spec)
    requires p == Policy(Inputs(spec.taps), Handlers(spec.taps), true) && j.attached == p.inputs
    requires Elems(j.inputs) == NewInputs(before, spec)
    requires j.resources == Created(j.inputs, available) && j.handlers == p.modules + Created(j.inputs, available)
    requires AllRun(s.handlers, j.handlers)
    requires InputsWatched(s.inputs, Plain(spec.name), j.inputs, if available then |j.inputs| else 0)
    ensures Ready(before, s, spec, p, j, available)
  {
    forall i | i in j.inputs ensures s.inputs[i] ==
          Input(if available then [Plain(spec.name), Resources(i)] else [Plain(spec.name)], true) {
      var l :| 0 <= l < |j.inputs| && j.inputs[l] == i;
    }
  }

  lemma NextTap(spec: PolicySpec, t: nat)
    requires WellFormed(spec) && t < |spec.taps|
    ensures spec.taps[t].input !in Inputs(spec.taps[..t]) && spec.taps[..t + 1] == spec.taps[..t] + [spec.taps[t]]
  {
    var all := Inputs(spec.taps);
    assert forall k | 0 <= k < t :: Inputs(spec.taps[..t])[k] == all[k] && all[k] != all[t];
  }

  lemma ClashPrefix(before: State, spec: PolicySpec, t: nat, available: bool)
    requires t < |spec.taps| && Clash(before, Handlers(spec.taps[..t] + [spec.taps[t]]))
    ensures !Loadable(before, spec, available)
  {
    HandlersPrefix(spec.taps, t);
    assert spec.taps[..t + 1] == spec.taps[..t] + [spec.taps[t]];
    var some, all := Handlers(spec.taps[..t + 1]), Handlers(spec.taps);
    assert forall k | 0 <= k < |some| :: some[k] == all[k];
  }

  lemma NotAttached(s: State, p: Name, i: InputName)
    requires InputsOk(s) && i in s.inputs && p !in s.policies
    ensures p !in s.inputs[i].policies
  {
    assert InputOk(s, i);
  }

  /** Registering the policy completes the load. */
  lemma ReadyIsLoaded(before: State, s: State, spec: PolicySpec, p: Policy, j: Journal, available: bool)
    requires Ready(before, s, spec, p, j, available)
    ensures State(s.policies[Plain(spec.name) := p], s.handlers, s.inputs) == Loaded(before, spec, available)
    ensures Loadable(before, spec, available)
  {
    assert Elems(j.resources) == ResourcesNames(Watched(before, spec, available));
    ReadyPolicies(before, s.policies, spec, p, j, available);
    ReadyHandlers(before, s.handlers, spec, j.resources, available);
    ReadyInputs(before, s, spec, p, j, available);
    ReadyLoadable(before, s, spec, p, j, available);
  }

  lemma ReadyPolicies(before: State, policies: map<Name, Policy>, spec: PolicySpec, p: Policy, j: Journal,
                      available: bool)
    requires PoliciesKept(before, policies, j) && p == Policy(Inputs(spec.taps), Handlers(spec.taps), true)
    requires Elems(j.resources) == ResourcesNames(Watched(before, spec, available))
    ensures policies[Plain(spec.name) := p] == LoadedPolicies(before, spec, available)
  {
  }

  lemma ReadyHandlers(before: State, handlers: map<Name, bool>, spec: PolicySpec, created: seq<Name>, available: bool)
    requires HandlersKept(before, handlers, Handlers(spec.taps) + created)
    requires forall h | h in Handlers(spec.taps) + created :: handlers[h]
    requires Elems(created) == ResourcesNames(Watched(before, spec, available))
    ensures handlers == LoadedHandlers(before, spec, available)
  {
    assert Elems(Handlers(spec.taps) + created) == Elems(Handlers(spec.taps)) + Elems(created);
  }

  lemma ReadyInputs(before: State, s: State, spec: PolicySpec, p: Policy, j: Journal, available: bool)
    requires Ready(before, s, spec, p, j, available)
    ensures s.inputs == LoadedInputs(before, spec, available)
  {
  }

  lemma ReadyLoadable(before: State, s: State, spec: PolicySpec, p: Policy, j: Journal, available: bool)
    requires Ready(before, s, spec, p, j, available)
    ensures Loadable(before, spec, available)
  {
    DistinctParts(Handlers(spec.taps), j.resources);
  }

  lemma DistinctParts(a: seq<Name>, b: seq<Name>)
    requires Distinct(a + b)
    ensures Distinct(a) && forall x | x in b :: x !in a
  {
    assert forall k | 0 <= k < |a| :: (a + b)[k] == a[k];
    assert forall k | 0 <= k < |b| :: (a + b)[|a| + k] == b[k];
  }

  /** Erasing one key after another. */
  lemma EraseNext<K, V>(m: map<K, V>, keys: seq<K>, k: nat)
    requires k < |keys|
    ensures m - Elems(keys[..k]) - {keys[k]} == m - Elems(keys[..k + 1])
  {
    assert keys[..k + 1] == keys[..k] + [keys[k]];
  }

  lemma PoliciesBack(before: State, policies: map<Name, Policy>, j: Journal)
    requires PoliciesKept(before, policies, j)
    ensures policies - Elems(j.resources) == before.policies
  {
  }

  lemma DropNext<T>(s: seq<T>, k: nat)
    requires k < |s|
    ensures s[k..] == [s[k]] + s[k + 1..]
  {
  }

  lemma {:induction false} HandlersPrefix(taps: seq<Tap>, t: nat)
    requires t < |taps|
    ensures Handlers(taps[..t]) + taps[t].handlers <= Handlers(taps)
    ensures Handlers(taps[..t + 1]) == Handlers(taps[..t]) + taps[t].handlers
    decreases |taps|
  {
    var front := taps[..|taps| - 1];
    assert taps[..t + 1][..t] == taps[..t];
    if t == |taps| - 1 {
      assert taps[..t + 1] == taps;
    } else {
      assert front[..t] == taps[..t] && front[t] == taps[t];
      HandlersPrefix(front, t);
    }
  }

  /** An input has a policy besides its resources policy. */
  ghost predicate InputInUse(s: State, i: InputName)
    requires i in s.inputs
  {
    && s.inputs[i].running && 1 <= |s.inputs[i].policies|
    && (Resources(i) in s.policies ==>
          2 <= |s.inputs[i].policies| && s.policies[Resources(i)] == ResourcesPolicy(i) && Resources(i) in s.handlers)
  }

  ghost predicate InUse(s: State) {
    forall i | i in s.inputs :: InputInUse(s, i)
  }

  lemma InvInUse(s: State, i: InputName)
    requires PoliciesOk(s) && InputsOk(s) && i in s.inputs
    ensures InputInUse(s, i)
  {
    UserAttached(s, i);
    ResourcesAttached(s, i);
    var u :| u in s.inputs[i].policies && u.Plain?;
    if Resources(i) in s.policies {
      TwoAttached(s.inputs[i].policies, u, Resources(i));
      assert PolicyOk(s, Resources(i)) && Resources(i) in s.policies[Resources(i)].modules;
    }
    assert InputOk(s, i);
  }

  lemma TwoAttached(attached: seq<Name>, p: Name, q: Name)
    requires p in attached && q in attached && p != q
    ensures 2 <= |attached|
  {
    var k, l :| 0 <= k < |attached| && 0 <= l < |attached| && attached[k] == p && attached[l] == q;
  }

  /** Stopping the policy of a load changes nothing that the load did not make. */
  lemma StopUndoes(before: State, s: State, me: Name, policy: Policy, j: Journal)
    requires InUse(before) && Undoable(before, s, me, policy, j) && policy.running
    requires forall i | i in before.inputs :: me !in before.inputs[i].policies
    ensures var inputs := StoppedInputs(s.inputs, policy.inputs, me);
            inputs.Keys == s.inputs.Keys && forall i | i in before.inputs :: inputs[i] == before.inputs[i]
    ensures HandlersKept(before, StoppedHandlers(s.handlers, policy.modules), j.handlers)
  {
    forall i | i in before.inputs && i in j.attached ensures StoppedInput(s.inputs[i], me) == before.inputs[i] {
      WithoutAppend(before.inputs[i].policies, me, me);
    }
  }

  // ---------------------------------------------------------------------------------------------
  // A removal, input by input
  // ---------------------------------------------------------------------------------------------

  /** The inputs of `done` that a removal has torn down, with their resources policies. */
  ghost predicate TornDown(s: State, leaving: Name, done: seq<InputName>, n: Name)
    requires leaving in s.policies
  {
    n.Resources? && n.input in done && n.input in Unwatched(s, leaving)
  }

  ghost function LeavingPolicies(s: State, leaving: Name, done: seq<InputName>): map<Name, Policy>
    requires leaving in s.policies
  {
    map q | q in s.policies && !TornDown(s, leaving, done, q) ::
      if q == leaving then s.policies[q].(running := false) else s.policies[q]
  }

  ghost function LeavingHandlers(s: State, leaving: Name, done: seq<InputName>): map<Name, bool>
    requires leaving in s.policies
  {
    map h | h in s.handlers && h !in s.policies[leaving].modules && !TornDown(s, leaving, done, h) :: s.handlers[h]
  }

  ghost function LeavingInputs(s: State, leaving: Name, done: seq<InputName>): map<InputName, Input>
    requires leaving in s.policies
  {
    map i | i in s.inputs && !(i in done && i in Dropped(s, leaving)) ::
      if i in s.policies[leaving].inputs then StoppedInput(s.inputs[i], leaving) else s.inputs[i]
  }

  /** The registries once `leaving` is stopped, its handlers are removed and the inputs of `done` are looked at. */
  ghost function Leaving(s: State, leaving: Name, done: seq<InputName>): State
    requires leaving in s.policies
  {
    State(LeavingPolicies(s, leaving, done), LeavingHandlers(s, leaving, done), LeavingInputs(s, leaving, done))
  }

  /** With a user policy `u` attached, what is left on an input once `leaving` is off it. */
  lemma LeftAttached(attached: seq<Name>, leaving: Name, u: Name, r: Name)
    requires u in attached && u != r
    ensures var rest := Without(attached, leaving);
            && (|rest| == 1 && leaving != r && r in attached <==> rest == [r] && leaving != r)
            && (rest == [] ==> r !in attached)
  {
    var rest := Without(attached, leaving);
    assert leaving == r ==> u in rest;
    assert |rest| == 1 ==> rest == [rest[0]];
  }

  /** Without `leaving`, an input's resources policy is the only one attached exactly if that input is dropped. */
  lemma LoneIffUnwatched(s: State, leaving: Name, i: InputName)
    requires PoliciesOk(s) && InputsOk(s) && leaving in s.policies && i in s.policies[leaving].inputs && i in s.inputs
    ensures var rest := Without(s.inputs[i].policies, leaving);
            && (i in Unwatched(s, leaving) <==> |rest| == 1 && leaving != Resources(i) && Resources(i) in s.policies)
            && (i in Unwatched(s, leaving) ==> rest == [Resources(i)])
            && (i in Dropped(s, leaving) && i !in Unwatched(s, leaving) <==> rest == [])
  {
    ResourcesAttached(s, i);
    UserAttached(s, i);
    var u :| u in s.inputs[i].policies && u.Plain?;
    LeftAttached(s.inputs[i].policies, leaving, u, Resources(i));
    DroppedIff(s, leaving, i);
  }

  lemma UserAttached(s: State, i: InputName)
    requires InputsOk(s) && i in s.inputs
    ensures exists u :: u in s.inputs[i].policies && u.Plain?
  {
    assert InputOk(s, i);
  }

  lemma DroppedIff(s: State, leaving: Name, i: InputName)
    requires leaving in s.policies && i in s.policies[leaving].inputs && i in s.inputs
    ensures var rest := Without(s.inputs[i].policies, leaving);
            && (i in Dropped(s, leaving) <==> rest == [] || (rest == [Resources(i)] && leaving != Resources(i)))
            && (i in Unwatched(s, leaving) <==> i in Dropped(s, leaving) && Resources(i) in s.policies)
  {
  }

  /** Looking at the next input of a leaving policy: what it needs, and what it does. */
  ghost predicate NextOk(s: State, leaving: Name, k: nat)
    requires leaving in s.policies && k < |s.policies[leaving].inputs|
  {
    var inputs := s.policies[leaving].inputs;
    var t := Leaving(s, leaving, inputs[..k]);
    var r := Resources(inputs[k]);
    && inputs[k] in t.inputs
    && UnusedRemoved(t, inputs[k], leaving) == Leaving(s, leaving, inputs[..k + 1])
    && (r != leaving && r in t.policies ==> t.policies[r] == ResourcesPolicy(inputs[k]) && r in t.handlers)
  }

  lemma LeavingStart(s: State, leaving: Name, t: State)
    requires leaving in s.policies
    requires t.policies == s.policies[leaving := s.policies[leaving].(running := false)]
    requires t.handlers == StoppedHandlers(s.handlers, s.policies[leaving].modules) - Elems(s.policies[leaving].modules)
    requires t.inputs == StoppedInputs(s.inputs, s.policies[leaving].inputs, leaving)
    ensures t == Leaving(s, leaving, s.policies[leaving].inputs[..0])
  {
  }

  /** The resources policy of the next input, if it is still registered, is as it was created. */
  lemma LeavingResources(s: State, leaving: Name, k: nat)
    requires Inv(s) && leaving in s.policies && k < |s.policies[leaving].inputs|
    ensures var inputs := s.policies[leaving].inputs; var t := Leaving(s, leaving, inputs[..k]);
            var r := Resources(inputs[k]);
            r != leaving && r in t.policies ==> t.policies[r] == ResourcesPolicy(inputs[k]) && r in t.handlers
  {
    var inputs := s.policies[leaving].inputs;
    var r := Resources(inputs[k]);
    if r in s.policies {
      assert PolicyOk(s, r) && r in s.policies[r].modules;
      assert PolicyOk(s, leaving);
      assert inputs[k] !in inputs[..k];
    }
  }

  lemma LeavingNext(s: State, leaving: Name, k: nat)
    requires Inv(s) && leaving in s.policies && k < |s.policies[leaving].inputs|
    ensures var inputs := s.policies[leaving].inputs;
            && inputs[k] in Leaving(s, leaving, inputs[..k]).inputs
            && UnusedRemoved(Leaving(s, leaving, inputs[..k]), inputs[k], leaving)
                == Leaving(s, leaving, inputs[..k + 1])
  {
    var inputs := s.policies[leaving].inputs;
    var i := inputs[k];
    assert PolicyOk(s, leaving) && i in inputs && i !in inputs[..k];
    assert inputs[..k + 1] == inputs[..k] + [i];
    LoneIffUnwatched(s, leaving, i);
    LeavingOne(s, leaving, i, inputs[..k]);
  }

  lemma LeavingOne(s: State, leaving: Name, i: InputName, done: seq<InputName>)
    requires leaving in s.policies && i in s.policies[leaving].inputs && i in s.inputs && i !in done
    requires var rest := Without(s.inputs[i].policies, leaving);
             && (i in Unwatched(s, leaving) <==> |rest| == 1 && leaving != Resources(i) && Resources(i) in s.policies)
             && (i in Unwatched(s, leaving) ==> rest == [Resources(i)])
             && (i in Dropped(s, leaving) && i !in Unwatched(s, leaving) <==> rest == [])
    ensures i in LeavingInputs(s, leaving, done)
    ensures UnusedRemoved(Leaving(s, leaving, done), i, leaving) == Leaving(s, leaving, done + [i])
  {
    LeavingNextMaps(s, leaving, i, done);
    LeavingNextInputs(s, leaving, i, done);
    var t := Leaving(s, leaving, done);
    assert t.inputs[i] == StoppedInput(s.inputs[i], leaving);
    assert Resources(i) in t.policies <==> Resources(i) in s.policies;
    assert Lone(t, i, leaving) <==> i in Unwatched(s, leaving);
    if i in Unwatched(s, leaving) {
      WithoutAppend([], Resources(i), Resources(i));
      assert [] + [Resources(i)] == t.inputs[i].policies;
    }
    assert t.inputs[i := t.inputs[i]] == t.inputs;
  }

  lemma TornDownNext(s: State, leaving: Name, i: InputName, done: seq<InputName>, n: Name)
    requires leaving in s.policies
    ensures TornDown(s, leaving, done + [i], n) <==>
            TornDown(s, leaving, done, n) || (n == Resources(i) && i in Unwatched(s, leaving))
  {
  }

  lemma LeavingNextMaps(s: State, leaving: Name, i: InputName, done: seq<InputName>)
    requires leaving in s.policies && i in s.inputs && i !in done
    ensures LeavingPolicies(s, leaving, done + [i]) ==
            var ps := LeavingPolicies(s, leaving, done); if i in Unwatched(s, leaving) then ps - {Resources(i)} else ps
    ensures LeavingHandlers(s, leaving, done + [i]) ==
            var hs := LeavingHandlers(s, leaving, done); if i in Unwatched(s, leaving) then hs - {Resources(i)} else hs
  {
    forall n ensures TornDown(s, leaving, done + [i], n) <==>
                     TornDown(s, leaving, done, n) || (n == Resources(i) && i in Unwatched(s, leaving)) {
      TornDownNext(s, leaving, i, done, n);
    }
  }

  lemma LeavingNextInputs(s: State, leaving: Name, i: InputName, done: seq<InputName>)
    requires leaving in s.policies && i in s.inputs && i !in done
    ensures LeavingInputs(s, leaving, done + [i]) ==
            var ins := LeavingInputs(s, leaving, done); if i in Dropped(s, leaving) then ins - {i} else ins
  {
  }

  lemma LeftIsRemoved(s: State, leaving: Name)
    requires Inv(s) && leaving in s.policies
    ensures var t := Leaving(s, leaving, s.policies[leaving].inputs);
            State(t.policies - {leaving}, t.handlers, t.inputs) == Removed(s, leaving)
  {
    LeftNames(s, leaving);
    LeftInputs(s, leaving);
  }

  lemma LeftNames(s: State, leaving: Name)
    requires leaving in s.policies
    ensures LeavingPolicies(s, leaving, s.policies[leaving].inputs) - {leaving} == RemovedPolicies(s, leaving)
    ensures LeavingHandlers(s, leaving, s.policies[leaving].inputs) == RemovedHandlers(s, leaving)
  {
    var inputs := s.policies[leaving].inputs;
    assert forall n :: TornDown(s, leaving, inputs, n) <==> n in ResourcesNames(Unwatched(s, leaving));
  }

  /** An input that stays is still used by another policy, so it was not stopped. */
  lemma LeftInputs(s: State, leaving: Name)
    requires PoliciesOk(s) && InputsOk(s) && leaving in s.policies
    ensures LeavingInputs(s, leaving, s.policies[leaving].inputs) == RemovedInputs(s, leaving)
  {
    assert PolicyOk(s, leaving);
    forall i | i in s.policies[leaving].inputs && i !in Dropped(s, leaving)
      ensures StoppedInput(s.inputs[i], leaving) == Input(Without(s.inputs[i].policies, leaving), s.inputs[i].running)
    {
      MoreThanOne(s.inputs[i].policies, leaving);
    }
  }

  lemma MoreThanOne(policies: seq<Name>, p: Name)
    requires p in policies && Without(policies, p) != []
    ensures 1 < |policies|
  {
    assert Without(policies, p)[0] in Without(policies, p);
    assert |policies| == 1 ==> policies == [p];
  }

  /** Every input there was runs, and none of the new ones has a resources policy yet. */
  lemma MayStart(before: State, inputs: map<InputName, Input>, me: Name, taps: seq<Tap>, added: seq<InputName>)
    requires InUse(before) && InputsLoading(before, inputs, me, taps, added)
    requires forall i | i !in before.inputs :: Resources(i) !in before.policies
    ensures forall i | i in added :: Resources(i) !in before.policies
    ensures forall i | i in before.inputs :: before.inputs[i].running
  {
    forall i | i in before.inputs ensures before.inputs[i].running {
      assert InputInUse(before, i);
    }
  }

  lemma LastStep(fails: nat -> bool, n: nat)
    requires NoneFailed(fails, 0, n)
    ensures if fails(n) then SomeFailed(fails, 0, n + 1) else NoneFailed(fails, 0, n + 1)
  {
  }

  lemma NotYetThere(before: State, s: State, spec: PolicySpec, p: Policy, j: Journal, available: bool)
    requires Ready(before, s, spec, p, j, available)
    ensures Plain(spec.name) !in s.policies
  {
  }

  class Manager {
    var policies: map<Name, Policy>
    var handlers: map<Name, bool>
    var inputs: map<InputName, Input>
    /** Whether the handler that resources policies need is available. */
    const available: bool

    ghost function View(): State
      reads this
    {
      State(policies, handlers, inputs)
    }

    constructor (available: bool)
      ensures View() == EMPTY && this.available == available
    {
      policies, handlers, inputs := map[], map[], map[];
      this.available := available;
    }

    /** Stops a policy: detaches it from its inputs and stops its handlers, unless it is not running. */
    method Stop(name: Name, p: Policy) returns (q: Policy)
      requires p.running ==> Distinct(p.inputs)
      requires p.running ==> forall i | i in p.inputs :: i in inputs
      requires p.running ==> forall m | m in p.modules :: m in handlers
      modifies this`inputs, this`handlers
      ensures q == p.(running := false)
      ensures inputs == if p.running then StoppedInputs(old(inputs), p.inputs, name) else old(inputs)
      ensures handlers == if p.running then StoppedHandlers(old(handlers), p.modules) else old(handlers)
      ensures p.running ==>
                && (forall m | m in p.modules :: !handlers[m])
                && (forall i | i in p.inputs && name in old(inputs)[i].policies && Distinct(old(inputs)[i].policies) ::
                      inputs[i].running <==> old(inputs)[i].running && inputs[i].policies != [])
    {
      if p.running {
        forall i | i in p.inputs && name in inputs[i].policies && Distinct(inputs[i].policies)
          ensures StoppedInput(inputs[i], name).running <==>
                    inputs[i].running && StoppedInput(inputs[i], name).policies != []
        {
          LastDetached(inputs[i].policies, name);
        }
      }
      q := p.(running := false);
      if p.running {
        StopInputs(name, p.inputs);
        StopHandlers(p.modules);
      }
    }

    /** Detaches a policy from inputs, stopping those that no other policy uses. */
    method StopInputs(name: Name, names: seq<InputName>)
      requires Distinct(names) && forall i | i in names :: i in inputs
      modifies this`inputs
      ensures inputs == StoppedInputs(old(inputs), names, name)
    {
      var k := 0;
      while k < |names|
        invariant k <= |names|
        invariant inputs == StoppedInputs(old(inputs), names[..k], name)
      {
        var i := names[k];
        assert i in names && i !in names[..k];
        var running := inputs[i].running;
        if running && |inputs[i].policies| <= 1 {
          running := false;
        }
        inputs := inputs[i := Input(Without(inputs[i].policies, name), running)];
        k := k + 1;
      }
      assert names[..|names|] == names;
    }

    method StopHandlers(names: seq<Name>)
      requires forall h | h in names :: h in handlers
      modifies this`handlers
      ensures handlers == StoppedHandlers(old(handlers), names)
    {
      var k := 0;
      while k < |names|
        invariant k <= |names|
        invariant handlers == StoppedHandlers(old(handlers), names[..k])
      {
        assert names[k] in names;
        if handlers[names[k]] {
          handlers := handlers[names[k] := false];
        }
        k := k + 1;
      }
      assert names[..|names|] == names;
    }

    /** Drops an input that `leaving` was the last user of, and what watches it. */
    method RemoveInputIfUnused(i: InputName, leaving: Name)
      requires i in inputs
      requires Resources(i) != leaving && Resources(i) in policies ==>
                 policies[Resources(i)] == ResourcesPolicy(i) && Resources(i) in handlers
      modifies this`policies, this`handlers, this`inputs
      ensures View() == UnusedRemoved(old(View()), i, leaving)
    {
      if |inputs[i].policies| == 1 {
        if leaving != Resources(i) && Resources(i) in policies {
          var _ := Stop(Resources(i), policies[Resources(i)]);
          handlers := handlers - {Resources(i)};
          policies := policies - {Resources(i)};
        }
      }
      if |inputs[i].policies| == 0 {
        inputs := inputs - {i};
      }
    }

    /** Takes the registries back to what they were when the load began. */
    method Rollback(me: Name, policy: Policy, j: Journal, ghost before: State)
      requires InUse(before) && Undoable(before, View(), me, policy, j)
      requires forall i | i in before.inputs :: me !in before.inputs[i].policies
      modifies this
      ensures View() == before
    {
      if policy.running {
        StopUndoes(before, View(), me, policy, j);
      }
      var _ := Stop(me, policy);
      DetachAll(me, j, before);
      PoliciesBack(before, policies, j);
      RemoveAllResources(j.resources, before);
      RemoveHandlers(j.handlers);
      RemoveInputs(j, before);
    }

    /** Detaches the policy from an input; a reused one is then as it was before. */
    method Detach(me: Name, i: InputName, j: Journal, ghost before: State)
      requires InUse(before) && i in inputs
      requires inputs.Keys == before.inputs.Keys + Elems(j.inputs)
      requires i in before.inputs ==> i !in j.inputs && me !in before.inputs[i].policies
      requires i in before.inputs ==> inputs[i] == before.inputs[i] || inputs[i] == Attach(before.inputs[i], me)
      requires PoliciesKept(before, policies, j) && before.handlers.Keys <= handlers.Keys
      modifies this
      ensures policies == old(policies) && handlers == old(handlers)
      ensures i in inputs && inputs == old(inputs)[i := inputs[i]]
      ensures i in before.inputs ==> inputs[i] == before.inputs[i]
    {
      if i in before.inputs {
        WithoutAppend(before.inputs[i].policies, me, me);
      }
      inputs := inputs[i := Input(Without(inputs[i].policies, me), inputs[i].running)];
      if i !in j.inputs {
        assert Resources(i) in policies ==> Resources(i) in before.policies;
        RemoveInputIfUnused(i, me);
      }
    }

    /** Detaches the policy from every input it was attached to. */
    method DetachAll(me: Name, j: Journal, ghost before: State)
      requires InUse(before)
      requires inputs.Keys == before.inputs.Keys + Elems(j.inputs)
      requires forall i | i in before.inputs :: i !in j.inputs && me !in before.inputs[i].policies
      requires forall i | i in j.attached :: i in inputs
      requires forall i | i in before.inputs ::
                 inputs[i] == before.inputs[i] || (i in j.attached && inputs[i] == Attach(before.inputs[i], me))
      requires PoliciesKept(before, policies, j) && before.handlers.Keys <= handlers.Keys
      modifies this
      ensures policies == old(policies) && handlers == old(handlers) && inputs.Keys == old(inputs.Keys)
      ensures forall i | i in before.inputs :: inputs[i] == before.inputs[i]
    {
      var k := 0;
      while k < |j.attached|
        invariant k <= |j.attached|
        invariant policies == old(policies) && handlers == old(handlers) && inputs.Keys == old(inputs.Keys)
        invariant forall i | i in before.inputs ::
                    inputs[i] == before.inputs[i] || (i in j.attached[k..] && inputs[i] == Attach(before.inputs[i], me))
      {
        DropNext(j.attached, k);
        Detach(me, j.attached[k], j, before);
        k := k + 1;
      }
    }

    /** Stops and unregisters a resources policy the load registered. */
    method RemoveResources(r: Name)
      requires r in policies && r.Resources? && policies[r] == ResourcesPolicy(r.input) && r in handlers
      requires r.input in inputs
      modifies this
      ensures policies == old(policies) - {r}
      ensures handlers.Keys == old(handlers.Keys)
      ensures forall h | h in handlers && h != r :: handlers[h] == old(handlers)[h]
      ensures inputs.Keys == old(inputs.Keys) && forall i | i in inputs && i != r.input :: inputs[i] == old(inputs)[i]
    {
      var _ := Stop(r, policies[r]);
      policies := policies - {r};
    }

    method RemoveAllResources(names: seq<Name>, ghost before: State)
      requires Distinct(names)
      requires forall r | r in names :: r.Resources? && r in policies && policies[r] == ResourcesPolicy(r.input)
      requires forall r | r in names ::
                 r in handlers && r !in before.handlers && r.input in inputs
                 && r.input !in before.inputs
      requires forall h | h in before.handlers :: h in handlers && handlers[h] == before.handlers[h]
      requires forall i | i in before.inputs :: i in inputs && inputs[i] == before.inputs[i]
      modifies this
      ensures policies == old(policies) - Elems(names)
      ensures handlers.Keys == old(handlers.Keys) && inputs.Keys == old(inputs.Keys)
      ensures forall h | h in before.handlers :: handlers[h] == before.handlers[h]
      ensures forall i | i in before.inputs :: inputs[i] == before.inputs[i]
    {
      var k := 0;
      while k < |names|
        invariant k <= |names|
        invariant policies == old(policies) - Elems(names[..k])
        invariant handlers.Keys == old(handlers.Keys) && inputs.Keys == old(inputs.Keys)
        invariant forall h | h in before.handlers :: handlers[h] == before.handlers[h]
        invariant forall i | i in before.inputs :: inputs[i] == before.inputs[i]
      {
        assert names[k] in names && names[k] !in Elems(names[..k]);
        EraseNext(old(policies), names, k);
        RemoveResources(names[k]);
        k := k + 1;
      }
      assert names[..|names|] == names;
    }

    method RemoveHandlers(names: seq<Name>)
      requires Distinct(names) && forall h | h in names :: h in handlers
      modifies this`handlers
      ensures handlers == old(handlers) - Elems(names)
    {
      var k := 0;
      while k < |names|
        invariant k <= |names|
        invariant handlers == old(handlers) - Elems(names[..k])
      {
        assert names[k] in names && names[k] !in names[..k];
        EraseNext(old(handlers), names, k);
        handlers := handlers - {names[k]};
        k := k + 1;
      }
      assert names[..|names|] == names;
    }

    method RemoveInputs(j: Journal, ghost before: State)
      requires inputs.Keys == before.inputs.Keys + Elems(j.inputs)
      requires forall i | i in j.inputs :: i !in before.inputs
      requires forall i | i in before.inputs :: inputs[i] == before.inputs[i]
      modifies this`inputs
      ensures inputs == before.inputs
    {
      var k := 0;
      while k < |j.inputs|
        invariant k <= |j.inputs|
        invariant inputs == old(inputs) - Elems(j.inputs[..k])
      {
        EraseNext(old(inputs), j.inputs, k);
        inputs := inputs - {j.inputs[k]};
        k := k + 1;
      }
      assert j.inputs[..|j.inputs|] == j.inputs;
    }

    /** Removes a policy, and with it every input that no other user policy reads. */
    method RemovePolicy(name: Name) returns (ok: bool)
      requires Inv(View())
      modifies this
      ensures ok == (name in old(policies))
      ensures View() == if ok then Removed(old(View()), name) else old(View())
      ensures Inv(View())
    {
      ok := name in policies;
      if ok {
        ghost var s := View();
        assert PolicyOk(s, name);
        forall k | 0 <= k < |s.policies[name].inputs| ensures NextOk(s, name, k) {
          LeavingNext(s, name, k);
          LeavingResources(s, name, k);
        }
        TearDown(name);
        LeftIsRemoved(s, name);
        RemovedOk(s, name);
      }
    }

    /** Stops a policy, removes its handlers and the inputs it leaves unused, and unregisters it. */
    method TearDown(name: Name)
      requires name in policies && PolicyOk(View(), name)
      requires forall k | 0 <= k < |policies[name].inputs| :: NextOk(View(), name, k)
      modifies this
      ensures var t := Leaving(old(View()), name, old(policies[name].inputs));
              View() == State(t.policies - {name}, t.handlers, t.inputs)
    {
      ghost var s := View();
      var p := policies[name];
      var q := Stop(name, p);
      policies := policies[name := q];
      RemoveHandlers(p.modules);
      LeavingStart(s, name, View());
      RemoveUnusedInputs(p.inputs, name, s);
      policies := policies - {name};
    }

    method RemoveUnusedInputs(names: seq<InputName>, leaving: Name, ghost s: State)
      requires leaving in s.policies && names == s.policies[leaving].inputs && View() == Leaving(s, leaving, names[..0])
      requires forall k | 0 <= k < |names| :: NextOk(s, leaving, k)
      modifies this
      ensures View() == Leaving(s, leaving, names)
    {
      var k := 0;
      while k < |names|
        invariant k <= |names|
        invariant View() == Leaving(s, leaving, names[..k])
      {
        assert NextOk(s, leaving, k);
        RemoveInputIfUnused(names[k], leaving);
        k := k + 1;
      }
      assert names[..|names|] == names;
    }

    /** Registers handlers one by one, until a step fails or a name is taken. */
    method AddHandlers(names: seq<Name>, running: bool, j: Journal, n: nat, fails: nat -> bool, ghost before: State)
      returns (ok: bool, j': Journal, n': nat)
      requires HandlersKept(before, handlers, j.handlers)
      modifies this`handlers
      ensures HandlersKept(before, handlers, j'.handlers)
      ensures j' == j.(handlers := j'.handlers) && j.handlers <= j'.handlers
      ensures forall h | h in j.handlers :: handlers[h] == old(handlers)[h]
      ensures ok ==> j'.handlers == j.handlers + names && forall h | h in names :: handlers[h] == running
      ensures if ok then NoneFailed(fails, n, n')
              else n <= n' && (SomeFailed(fails, n, n') || Clash(before, j.handlers + names))
      ensures n' <= n + |names| && (ok ==> n' == n + |names|)
    {
      hide NoneFailed, SomeFailed, Clash;
      NoSteps(fails, n);
      ok, j', n' := true, j, n;
      var k := 0;
      while ok && k < |names|
        invariant n' <= n + |names| && (ok ==> n' == n + k)
        invariant k <= |names|
        invariant j' == j.(handlers := j.handlers + names[..k]) && HandlersKept(before, handlers, j'.handlers)
        invariant forall h | h in j.handlers :: handlers[h] == old(handlers)[h]
        invariant forall h | h in names[..k] :: handlers[h] == running
        invariant if ok then NoneFailed(fails, n, n')
                else n <= n' && (SomeFailed(fails, n, n') || Clash(before, j.handlers + names))
      {
        ghost var l := n';
        ok, j', n' := AddHandler(names[k], running, j', n', fails, before);
        FailedEarlier(fails, n, l, n');
        if ok {
          TakeNext(j.handlers, names, k);
          k := k + 1;
        } else if !SomeFailed(fails, l, n') {
          ClashNext(before, handlers, j.handlers, names, k);
        }
      }
      assert names[..|names|] == names;
    }

    method AddHandler(h: Name, running: bool, j: Journal, n: nat, fails: nat -> bool, ghost before: State)
      returns (ok: bool, j': Journal, n': nat)
      requires HandlersKept(before, handlers, j.handlers)
      modifies this`handlers
      ensures ok ==>
                h !in old(handlers) && handlers == old(handlers)[h := running]
                && j' == j.(handlers := j.handlers + [h])
      ensures !ok ==> handlers == old(handlers) && j' == j
      ensures if ok then NoneFailed(fails, n, n') else n <= n' && (SomeFailed(fails, n, n') || h in handlers)
      ensures HandlersKept(before, handlers, j'.handlers)
      ensures n' <= n + 1 && (ok ==> n' == n + 1)
    {
      ok, j', n' := !fails(n) && h !in handlers, j, n + 1;
      if ok {
        KeptNext(before, handlers, j.handlers, h, running);
        handlers := handlers[h := running];
        j' := j.(handlers := j.handlers + [h]);
      }
    }

    /** Creates an input unless it exists. */
    method OpenInput(me: Name, i: InputName, j: Journal, n: nat, fails: nat -> bool, ghost before: State)
      returns (ok: bool, j': Journal, n': nat)
      requires InputsKept(before, inputs, me, j.inputs, j.attached)
      modifies this`inputs
      ensures InputsKept(before, inputs, me, j'.inputs, j.attached)
      ensures j' == j.(inputs := j'.inputs)
      ensures ok ==> i in inputs && j'.inputs == if i in old(inputs) then j.inputs else j.inputs + [i]
      ensures inputs == if ok && i !in old(inputs) then old(inputs)[i := Input([], false)] else old(inputs)
      ensures if ok then NoneFailed(fails, n, n') else SomeFailed(fails, n, n')
      ensures n' <= n + (if i in old(inputs) then 1 else 2) && (ok ==> n' == n + (if i in old(inputs) then 1 else 2))
    {
      ok, j', n' := !fails(n), j, n + 1;
      if ok && i !in inputs {
        ok, n' := !fails(n'), n' + 1;
        if !ok {
          return;
        }
        KeptOpened(before, inputs, me, j.inputs, j.attached, i);
        inputs := inputs[i := Input([], false)];
        j' := j'.(inputs := j'.inputs + [i]);
      }
    }

    /** Instantiates a tap's handlers for a policy. */
    method Instantiate(tap: Tap, p: Policy, n: nat, fails: nat -> bool) returns (ok: bool, p': Policy, n': nat)
      ensures p'.running == p.running
      ensures ok ==> p' == p.(inputs := p.inputs + [tap.input], modules := p.modules + tap.handlers)
      ensures if ok then NoneFailed(fails, n, n') else SomeFailed(fails, n, n')
      ensures n' <= n + 1 + |tap.handlers| && (ok ==> n' == n + 1 + |tap.handlers|)
    {
      ok, p', n' := !fails(n), p.(inputs := p.inputs + [tap.input]), n + 1;
      var k := 0;
      while ok && k < |tap.handlers|
        invariant n' == n + 1 + k
        invariant k <= |tap.handlers|
        invariant p' == p.(inputs := p.inputs + [tap.input], modules := p.modules + tap.handlers[..k])
        invariant if ok then NoneFailed(fails, n, n') else SomeFailed(fails, n, n')
      {
        ok, n' := !fails(n'), n' + 1;
        if !ok {
          return;
        }
        assert tap.handlers[..k + 1] == tap.handlers[..k] + [tap.handlers[k]];
        p' := p'.(modules := p'.modules + [tap.handlers[k]]);
        k := k + 1;
      }
      assert tap.handlers[..|tap.handlers|] == tap.handlers;
    }

    /** Creates the tap's input unless it exists, and registers the policy's handlers on it, up to a step that
        fails; if none does, attaches the policy. */
    method AttachTap(me: Name, tap: Tap, p: Policy, j: Journal, n: nat, fails: nat -> bool, ghost before: State,
                     ghost taps: seq<Tap>)
      returns (ok: bool, p': Policy, j': Journal, n': nat)
      requires p == Policy(Inputs(taps), Handlers(taps), false) && j == JournalOf(taps, j.inputs)
      requires HandlersKept(before, handlers, j.handlers) && InputsLoading(before, inputs, me, taps, j.inputs)
      requires tap.input !in p.inputs
      modifies this`handlers, this`inputs
      ensures HandlersKept(before, handlers, j'.handlers) && InputsKept(before, inputs, me, j'.inputs, j'.attached)
      ensures !p'.running && j'.resources == []
      ensures ok ==>
                p' == Policy(Inputs(taps + [tap]), Handlers(taps + [tap]), false)
                && j' == JournalOf(taps + [tap], j'.inputs)
      ensures ok ==> InputsLoading(before, inputs, me, taps + [tap], j'.inputs)
      ensures if ok then NoneFailed(fails, n, n')
              else n <= n' && (SomeFailed(fails, n, n') || Clash(before, Handlers(taps + [tap])))
      ensures n' <= n + TapSteps(before, tap) && (ok ==> n' == n + TapSteps(before, tap))
      ensures ok ==> |j'.inputs| == |j.inputs| + NewCount(before, [tap])
    {
      p' := p;
      InputsLoadingNext(before, inputs, me, taps, tap, j.inputs);
      ok, j', n' := OpenInput(me, tap.input, j, n, fails, before);
      if !ok {
        return;
      }
      AttachedNext(before, taps, tap, j.inputs, j'.inputs);
      ghost var l := n';
      ok, p', n' := Instantiate(tap, p, n', fails);
      FailedEarlier(fails, n, l, n');
      if !ok {
        return;
      }
      l := n';
      ok, j', n' := AddHandlers(tap.handlers, false, j', n', fails, before);
      FailedEarlier(fails, n, l, n');
      if ok {
        inputs := inputs[tap.input := Attach(inputs[tap.input], me)];
        j' := j'.(attached := j'.attached + [tap.input]);
      }
    }

    /** Starts a policy's handlers, then its inputs. If one fails, the handlers that did start are stopped again. */
    method Start(p: Policy, n: nat, fails: nat -> bool) returns (ok: bool, p': Policy, n': nat)
      requires forall m | m in p.modules :: m in handlers
      requires forall i | i in p.inputs :: i in inputs
      modifies this`handlers, this`inputs
      ensures handlers.Keys == old(handlers.Keys)
      ensures forall h | h in handlers && h !in p.modules :: handlers[h] == old(handlers)[h]
      ensures inputs.Keys == old(inputs.Keys)
      ensures forall i | i in inputs ::
                inputs[i] == old(inputs)[i]
                || (i in p.inputs && inputs[i] == old(inputs)[i].(running := true))
      ensures ok ==>
                p' == p.(running := true) && (forall m | m in p.modules :: handlers[m])
                && (forall i | i in p.inputs :: inputs[i].running)
      ensures !ok ==> p' == p && forall m | m in p.modules :: !handlers[m]
      ensures if ok then NoneFailed(fails, n, n') else SomeFailed(fails, n, n')
      ensures n' <= n + |p.modules| + |p.inputs| && (ok ==> n' == n + |p.modules| + |p.inputs|)
    {
      p' := p;
      ok, n' := StartHandlers(p.modules, n, fails);
      if ok {
        ghost var l := n';
        ok, n' := StartInputs(p.inputs, n', fails);
        FailedEarlier(fails, n, l, n');
      }
      if ok {
        p' := p.(running := true);
      } else {
        StopHandlers(p.modules);
      }
    }

    method StartHandlers(names: seq<Name>, n: nat, fails: nat -> bool) returns (ok: bool, n': nat)
      requires forall h | h in names :: h in handlers
      modifies this`handlers
      ensures handlers.Keys == old(handlers.Keys)
      ensures forall h | h in handlers && h !in names :: handlers[h] == old(handlers)[h]
      ensures ok ==> forall h | h in names :: handlers[h]
      ensures if ok then NoneFailed(fails, n, n') else SomeFailed(fails, n, n')
      ensures n' <= n + |names| && (ok ==> n' == n + |names|)
    {
      ok, n' := true, n;
      var k := 0;
      while k < |names|
        invariant n' == n + k
        invariant k <= |names| && ok && NoneFailed(fails, n, n')
        invariant handlers.Keys == old(handlers.Keys)
        invariant forall h | h in handlers && h !in names :: handlers[h] == old(handlers)[h]
        invariant forall l | 0 <= l < k :: handlers[names[l]]
      {
        ok, n' := !fails(n'), n' + 1;
        if !ok {
          return;
        }
        assert names[k] in names;
        handlers := handlers[names[k] := true];
        k := k + 1;
      }
    }

    method StartInputs(names: seq<InputName>, n: nat, fails: nat -> bool) returns (ok: bool, n': nat)
      requires forall i | i in names :: i in inputs
      modifies this`inputs
      ensures inputs.Keys == old(inputs.Keys)
      ensures forall i | i in inputs ::
                inputs[i] == old(inputs)[i]
                || (i in names && inputs[i] == old(inputs)[i].(running := true))
      ensures ok ==> forall i | i in names :: inputs[i].running
      ensures if ok then NoneFailed(fails, n, n') else SomeFailed(fails, n, n')
      ensures n' <= n + |names| && (ok ==> n' == n + |names|)
    {
      ok, n' := true, n;
      var k := 0;
      while k < |names|
        invariant n' == n + k
        invariant k <= |names| && ok && NoneFailed(fails, n, n')
        invariant inputs.Keys == old(inputs.Keys)
        invariant forall i | i in inputs ::
                    inputs[i] == old(inputs)[i]
                    || (i in names && inputs[i] == old(inputs)[i].(running := true))
        invariant forall l | 0 <= l < k :: inputs[names[l]].running
      {
        ok, n' := !fails(n'), n' + 1;
        if !ok {
          return;
        }
        assert names[k] in names;
        inputs := inputs[names[k] := inputs[names[k]].(running := true)];
        k := k + 1;
      }
    }

    /** Starts and attaches the resources policy of a new input. */
    method StartResources(i: InputName, n: nat, fails: nat -> bool) returns (ok: bool, n': nat)
      requires i in inputs && Resources(i) in handlers
      modifies this`handlers, this`inputs
      ensures handlers.Keys == old(handlers.Keys)
      ensures forall h | h in handlers && h != Resources(i) :: handlers[h] == old(handlers)[h]
      ensures inputs.Keys == old(inputs.Keys) && forall l | l in inputs && l != i :: inputs[l] == old(inputs)[l]
      ensures ok ==> handlers[Resources(i)] && inputs[i] == Input(old(inputs[i].policies) + [Resources(i)], true)
      ensures if ok then NoneFailed(fails, n, n') else SomeFailed(fails, n, n')
      ensures n' <= n + 2 && (ok ==> n' == n + 2)
    {
      hide NoneFailed, SomeFailed;
      var r;
      ok, r, n' := Start(Policy([i], [Resources(i)], false), n, fails);
      if ok {
        inputs := inputs[i := Attach(inputs[i], Resources(i))];
      }
    }

    /** Starts, attaches and registers the resources policy of a new input. If registering fails, the policy is
        stopped, which detaches it. */
    method RegisterResources(i: InputName, n: nat, fails: nat -> bool) returns (ok: bool, n': nat)
      requires i in inputs && Resources(i) in handlers
      modifies this
      ensures handlers.Keys == old(handlers.Keys)
      ensures forall h | h in handlers && h != Resources(i) :: handlers[h] == old(handlers)[h]
      ensures inputs.Keys == old(inputs.Keys) && forall l | l in inputs && l != i :: inputs[l] == old(inputs)[l]
      ensures ok ==> policies == old(policies)[Resources(i) := ResourcesPolicy(i)] && handlers[Resources(i)]
      ensures ok ==> inputs[i] == Input(old(inputs[i].policies) + [Resources(i)], true)
      ensures !ok ==> policies == old(policies)
      ensures if ok then NoneFailed(fails, n, n') else n <= n' && (SomeFailed(fails, n, n') || Resources(i) in policies)
      ensures n' <= n + 3 && (ok ==> n' == n + 3)
    {
      ok, n' := StartResources(i, n, fails);
      if ok {
        if fails(n') || Resources(i) in policies {
          var _ := Stop(Resources(i), ResourcesPolicy(i));
          ok, n' := false, n' + 1;
          return;
        }
        n' := n' + 1;
        policies := policies[Resources(i) := ResourcesPolicy(i)];
      }
    }

    /** Registers the resources policy of one more new input. */
    method RegisterNext(j: Journal, k: nat, n: nat, fails: nat -> bool, me: Name, ghost before: State)
      returns (ok: bool, n': nat)
      requires Watchable(before, j) && k < |j.inputs| && Kept(before, View(), me, Registered(j, k))
      requires InputsWatched(inputs, me, j.inputs, k) && AllRun(handlers, j.handlers)
      modifies this
      ensures Kept(before, View(), me, Registered(j, if ok then k + 1 else k))
      ensures ok ==> InputsWatched(inputs, me, j.inputs, k + 1) && AllRun(handlers, j.handlers)
      ensures if ok then NoneFailed(fails, n, n') else SomeFailed(fails, n, n')
      ensures n' <= n + 3 && (ok ==> n' == n + 3)
    {
      ghost var s := View();
      var i := j.inputs[k];
      WatchableNext(before, j, k);
      ok, n' := RegisterResources(i, n, fails);
      HandlersFrame(before, s.handlers, handlers, j.handlers, Resources(i));
      InputsFrame(before, s.inputs, inputs, me, j.inputs, j.attached, i);
      if ok {
        PoliciesKeptNext(before, s.policies, Registered(j, k), i);
        AllRunFrame(s.handlers, handlers, j.handlers, Resources(i));
        WatchedNext(s.inputs, inputs, me, j.inputs, k);
      }
    }

    method RegisterAllResources(j: Journal, n: nat, fails: nat -> bool, me: Name, ghost before: State)
      returns (ok: bool, j': Journal, n': nat)
      requires Watchable(before, j) && Kept(before, View(), me, Registered(j, 0))
      requires InputsWatched(inputs, me, j.inputs, 0) && AllRun(handlers, j.handlers)
      modifies this
      ensures j' == j.(resources := j'.resources) && Kept(before, View(), me, j')
      ensures ok ==> j'.resources == Created(j.inputs, true)
      ensures ok ==> InputsWatched(inputs, me, j.inputs, |j.inputs|) && AllRun(handlers, j.handlers)
      ensures if ok then NoneFailed(fails, n, n') else SomeFailed(fails, n, n')
      ensures n' <= n + 3 * |j.inputs| && (ok ==> n' == n + 3 * |j.inputs|)
    {
      var k := 0;
      ok, n' := true, n;
      while ok && k < |j.inputs|
        invariant n' <= n + 3 * |j.inputs| && (ok ==> n' == n + 3 * k)
        invariant k <= |j.inputs| && Kept(before, View(), me, Registered(j, k))
        invariant ok ==> InputsWatched(inputs, me, j.inputs, k) && AllRun(handlers, j.handlers)
        invariant if ok then NoneFailed(fails, n, n') else SomeFailed(fails, n, n')
      {
        ghost var l := n';
        ok, n' := RegisterNext(j, k, n', fails, me, before);
        FailedEarlier(fails, n, l, n');
        k := if ok then k + 1 else k;
      }
      j' := Registered(j, k);
      assert j.inputs[..|j.inputs|] == j.inputs;
    }

    /** Starts the handlers of the resources policies of the new inputs, then the policy, then registers those
        policies. */
    method StartAll(spec: PolicySpec, p: Policy, j: Journal, n: nat, fails: nat -> bool, ghost before: State)
      returns (ok: bool, p': Policy, j': Journal, n': nat)
      requires p == Policy(Inputs(spec.taps), Handlers(spec.taps), false) && j == JournalOf(spec.taps, j.inputs)
      requires HandlersKept(before, handlers, j.handlers)
      requires InputsLoading(before, inputs, Plain(spec.name), spec.taps, j.inputs)
      requires policies == before.policies && Plain(spec.name) !in before.policies
      requires forall i | i in j.inputs :: Resources(i) !in before.policies
      requires forall i | i in before.inputs :: before.inputs[i].running
      requires WellFormed(spec)
      modifies this
      ensures Undoable(before, View(), Plain(spec.name), p', j')
      ensures ok ==> Ready(before, View(), spec, p', j', available)
      ensures if ok then NoneFailed(fails, n, n')
              else n <= n' && (SomeFailed(fails, n, n') || !Loadable(before, spec, available))
      ensures n' <= n + StartSteps(|j.inputs|, spec, available)
      ensures ok ==> n' == n + StartSteps(|j.inputs|, spec, available)
    {
      hide Loadable, Clash, NoneFailed, SomeFailed, PoliciesKept, Ready;
      p' := p;
      ok, j', n' := AddHandlers(Created(j.inputs, available), true, j, n, fails, before);
      NothingRegistered(before, j');
      if !ok {
        if !SomeFailed(fails, n, n') {
          ClashNotLoadable(before, spec, j.inputs, available);
        }
        return;
      }
      ghost var l := n';
      ok, p', n' := StartPolicy(spec, p, j', n', fails, before);
      FailedEarlier(fails, n, l, n');
      if ok && available {
        WatchableAll(before, j');
        l := n';
        ok, j', n' := RegisterAllResources(j', n', fails, Plain(spec.name), before);
        FailedEarlier(fails, n, l, n');
      }
      if ok {
        ReadyNow(before, View(), spec, p', j', available);
      }
    }

    /** Starts the policy on its own inputs. */
    method StartPolicy(spec: PolicySpec, p: Policy, j: Journal, n: nat, fails: nat -> bool, ghost before: State)
      returns (ok: bool, p': Policy, n': nat)
      requires p == Policy(Inputs(spec.taps), Handlers(spec.taps), false)
      requires j.attached == p.inputs && j.handlers == p.modules + Created(j.inputs, available)
      requires HandlersKept(before, handlers, j.handlers)
      requires InputsLoading(before, inputs, Plain(spec.name), spec.taps, j.inputs)
      requires AllRun(handlers, Created(j.inputs, available))
      requires forall i | i in before.inputs :: before.inputs[i].running
      modifies this`handlers, this`inputs
      ensures HandlersKept(before, handlers, j.handlers)
      ensures InputsKept(before, inputs, Plain(spec.name), j.inputs, j.attached)
      ensures p' == p.(running := ok)
      ensures ok ==> AllRun(handlers, j.handlers) && InputsWatched(inputs, Plain(spec.name), j.inputs, 0)
      ensures if ok then NoneFailed(fails, n, n') else SomeFailed(fails, n, n')
      ensures n' <= n + |p.modules| + |p.inputs| && (ok ==> n' == n + |p.modules| + |p.inputs|)
    {
      ghost var hs, ins := handlers, inputs;
      ok, p', n' := Start(p, n, fails);
      StartedHandlers(before, hs, handlers, p.modules, Created(j.inputs, available));
      StartedInputs(before, ins, inputs, Plain(spec.name), j.inputs, p.inputs);
      if ok {
        StartedWatched(before, ins, inputs, Plain(spec.name), spec.taps, j.inputs);
      }
    }

    /** Handles the taps in turn, until one fails. */
    method AttachAll(spec: PolicySpec, fails: nat -> bool, ghost before: State)
      returns (ok: bool, p: Policy, j: Journal, n: nat)
      requires WellFormed(spec) && View() == before
      modifies this`handlers, this`inputs
      ensures HandlersKept(before, handlers, j.handlers)
      ensures InputsKept(before, inputs, Plain(spec.name), j.inputs, j.attached)
      ensures !p.running && j.resources == []
      ensures ok ==> p == Policy(Inputs(spec.taps), Handlers(spec.taps), false) && j == JournalOf(spec.taps, j.inputs)
      ensures ok ==> InputsLoading(before, inputs, Plain(spec.name), spec.taps, j.inputs)
      ensures if ok then NoneFailed(fails, 0, n) else SomeFailed(fails, 0, n) || !Loadable(before, spec, available)
      ensures n <= 0 + TapsSteps(before, spec.taps) && (ok ==> n == 0 + TapsSteps(before, spec.taps))
      ensures ok ==> |j.inputs| == NewCount(before, spec.taps)
    {
      hide HandlersKept, InputsLoading, InputsKept, Loadable, Clash, NoneFailed, SomeFailed, TapsSteps, TapSteps,
           NewCount, Inputs, Handlers, JournalOf;
      var me := Plain(spec.name);
      NothingLoaded(before, me, fails);
      assert spec.taps[..0] == [];
      ok, p, j, n := true, Policy([], [], false), Journal([], [], [], []), 0;
      var t := 0;
      while ok && t < |spec.taps|
        invariant t <= |spec.taps| && !p.running && j.resources == []
        invariant ok ==> |j.inputs| == NewCount(before, spec.taps[..t])
        invariant n <= TapsSteps(before, spec.taps) && (ok ==> n == TapsSteps(before, spec.taps[..t]))
        invariant HandlersKept(before, handlers, j.handlers) && InputsKept(before, inputs, me, j.inputs, j.attached)
        invariant ok ==>
                    p == Policy(Inputs(spec.taps[..t]), Handlers(spec.taps[..t]), false)
                    && j == JournalOf(spec.taps[..t], j.inputs)
        invariant ok ==> InputsLoading(before, inputs, me, spec.taps[..t], j.inputs)
        invariant if ok then NoneFailed(fails, 0, n) else SomeFailed(fails, 0, n) || !Loadable(before, spec, available)
      {
        NextTap(spec, t);
        StepsNext(before, spec.taps, t);
        ghost var l := n;
        ok, p, j, n := AttachTap(me, spec.taps[t], p, j, n, fails, before, spec.taps[..t]);
        FailedEarlier(fails, 0, l, n);
        if !ok && !SomeFailed(fails, l, n) {
          ClashPrefix(before, spec, t, available);
        }
        t := t + 1;
      }
      assert spec.taps[..|spec.taps|] == spec.taps;
    }

    /** Loads a policy: this works exactly if no name it needs is taken and none of its steps fails. Otherwise nothing
        of it is left behind. */
    method Load(spec: PolicySpec, fails: nat -> bool) returns (ok: bool)
      requires Inv(View()) && WellFormed(spec)
      modifies this
      ensures ok <==>
                Loadable(old(View()), spec, available)
                && NoneFailed(fails, 0, LoadSteps(old(View()), spec, available))
      ensures View() == if ok then Loaded(old(View()), spec, available) else old(View())
      ensures Inv(View())
    {
      ghost var before := View();
      var me := Plain(spec.name);
      if me in policies {
        return false;
      }
      forall i | i in before.inputs ensures InputInUse(before, i) && me !in before.inputs[i].policies {
        InvInUse(before, i);
        NotAttached(before, me, i);
      }
      forall i | i !in before.inputs ensures Resources(i) !in before.policies {
        StaleResources(before, i);
      }
      var n;
      ok, n := TryLoad(spec, fails, before);
      if ok {
        LoadedOk(before, spec, available);
      }
    }

    /** Does what the load has to do, up to a step that fails, or rolls it back. */
    method TryLoad(spec: PolicySpec, fails: nat -> bool, ghost before: State) returns (ok: bool, n: nat)
      requires View() == before && WellFormed(spec) && InUse(before) && Plain(spec.name) !in before.policies
      requires forall i | i in before.inputs :: Plain(spec.name) !in before.inputs[i].policies
      requires forall i | i !in before.inputs :: Resources(i) !in before.policies
      modifies this
      ensures View() == if ok then Loaded(before, spec, available) else before
      ensures if ok then Loadable(before, spec, available) && NoneFailed(fails, 0, n)
              else SomeFailed(fails, 0, n) || !Loadable(before, spec, available)
      ensures n <= LoadSteps(before, spec, available) && (ok ==> n == LoadSteps(before, spec, available))
    {
      hide Undoable, Ready, Loadable, Loaded, NoneFailed, SomeFailed, LoadSteps, InUse;
      var p, j;
      ok, p, j, n := Build(spec, fails, before);
      if ok {
        ReadyIsLoaded(before, View(), spec, p, j, available);
        policies := policies[Plain(spec.name) := p];
      } else {
        Rollback(Plain(spec.name), p, j, before);
      }
    }

    /** All of a load but registering the policy, whose step comes last. What was done can be undone. */
    method Build(spec: PolicySpec, fails: nat -> bool, ghost before: State)
      returns (ok: bool, p: Policy, j: Journal, n: nat)
      requires View() == before && WellFormed(spec) && InUse(before) && Plain(spec.name) !in before.policies
      requires forall i | i !in before.inputs :: Resources(i) !in before.policies
      modifies this
      ensures Undoable(before, View(), Plain(spec.name), p, j)
      ensures ok ==> Ready(before, View(), spec, p, j, available) && NoneFailed(fails, 0, n)
      ensures !ok ==> SomeFailed(fails, 0, n) || !Loadable(before, spec, available)
      ensures n <= LoadSteps(before, spec, available) && (ok ==> n == LoadSteps(before, spec, available))
    {
      hide HandlersKept, InputsLoading, InputsKept, PoliciesKept, Ready, Loadable, NoneFailed, SomeFailed, TapsSteps,
           StartSteps, NewCount, Inputs, Handlers, JournalOf, WellFormed, InUse;
      ok, p, j, n := AttachAll(spec, fails, before);
      NothingRegistered(before, j);
      if !ok {
        return;
      }
      MayStart(before, inputs, Plain(spec.name), spec.taps, j.inputs);
      ghost var l := n;
      ok, p, j, n := StartAll(spec, p, j, n, fails, before);
      FailedEarlier(fails, 0, l, n);
      if ok {
        LastStep(fails, n);
        ok, n := !fails(n) && Plain(spec.name) !in policies, n + 1;
        NotYetThere(before, View(), spec, p, j, available);
      }
    }
  }
}
