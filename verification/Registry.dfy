/** The registries that policies, handlers and inputs live in, as values: what a load or a removal
    must turn them into, and the invariant that every history of loads and removals keeps. */
module Registry {

  datatype InputName = InputName(text: string)

  /** The name of a policy or a handler. `<input>-resources`, which the resources policy of an input and its
      handler have, is told apart from every other text; any handler may have either. */
  datatype Name = Plain(text: string) | Resources(input: InputName)

  /** An input stream: the policies attached to it, in order of attachment. */
  datatype Input = Input(policies: seq<Name>, running: bool)

  /** A policy: the inputs it reads and the handlers it owns. */
  datatype Policy = Policy(inputs: seq<InputName>, modules: seq<Name>, running: bool)

  /** The policy map, the handler map (with each handler's running flag) and the input map. */
  datatype State = State(policies: map<Name, Policy>, handlers: map<Name, bool>, inputs: map<InputName, Input>)

  /** A parsed user policy: for each tap, the input it reads and the handlers to run on it. */
  datatype Tap = Tap(input: InputName, handlers: seq<Name>)
  datatype PolicySpec = PolicySpec(name: string, taps: seq<Tap>)

  const EMPTY := State(map[], map[], map[])

  function ResourcesPolicy(input: InputName): Policy {
    Policy([input], [Resources(input)], true)
  }

  function Handlers(taps: seq<Tap>): seq<Name> {
    if taps == [] then [] else Handlers(taps[..|taps| - 1]) + taps[|taps| - 1].handlers
  }

  function Inputs(taps: seq<Tap>): (names: seq<InputName>)
    ensures |names| == |taps| && forall k | 0 <= k < |taps| :: names[k] == taps[k].input
  {
    seq(|taps|, k requires 0 <= k < |taps| => taps[k].input)
  }

  predicate Distinct<T(==)>(s: seq<T>) {
    forall j, k | 0 <= j < k < |s| :: s[j] != s[k]
  }

  ghost function Elems<T>(s: seq<T>): set<T> {
    set x | x in s
  }

  /** What the tap manager guarantees of a parsed policy: at least one tap, and, since an input is named
      after its tap, a different input for each. */
  predicate WellFormed(spec: PolicySpec) {
    spec.taps != [] && Distinct(Inputs(spec.taps))
  }

  /** `policies` without any entry for `policy`. */
  function Without(policies: seq<Name>, policy: Name): (r: seq<Name>)
    ensures forall p :: p in r <==> p in policies && p != policy
    ensures policy !in policies ==> r == policies
    ensures |r| <= |policies|
  {
    if policies == [] then []
    else
      var front := Without(policies[..|policies| - 1], policy);
      assert policies == policies[..|policies| - 1] + [policies[|policies| - 1]];
      if policies[|policies| - 1] == policy then front else front + [policies[|policies| - 1]]
  }

  lemma WithoutAppend(policies: seq<Name>, last: Name, policy: Name)
    ensures Without(policies + [last], policy)
         == if last == policy then Without(policies, policy) else Without(policies, policy) + [last]
  {
    assert (policies + [last])[..|policies|] == policies;
  }

  lemma {:induction false} WithoutDistinct(policies: seq<Name>, policy: Name)
    requires Distinct(policies)
    ensures Distinct(Without(policies, policy))
  {
    if policies != [] {
      var front := policies[..|policies| - 1];
      var last := policies[|policies| - 1];
      WithoutDistinct(front, policy);
      assert last !in front;
      assert last !in Without(front, policy);
    }
  }

  // ---------------------------------------------------------------------------------------------
  // The invariant
  // ---------------------------------------------------------------------------------------------

  /** A registered policy runs, is attached to every input it reads and owns registered handlers. */
  ghost predicate PolicyOk(s: State, p: Name)
    requires p in s.policies
  {
    var q := s.policies[p];
    && q.running && q.inputs != [] && Distinct(q.inputs) && Distinct(q.modules)
    && (forall i | i in q.inputs :: i in s.inputs && p in s.inputs[i].policies)
    && (forall m | m in q.modules :: m in s.handlers)
    && (p.Resources? ==> q == ResourcesPolicy(p.input))
  }

  /** A registered input runs, only registered policies that read it are attached to it, and one of them
      is a user policy. */
  ghost predicate InputOk(s: State, i: InputName)
    requires i in s.inputs
  {
    var input := s.inputs[i];
    && input.running && Distinct(input.policies)
    && (forall p | p in input.policies :: p in s.policies && i in s.policies[p].inputs)
    && (exists p :: p in input.policies && p.Plain?)
  }

  /** A registered handler runs and belongs to a registered policy. */
  ghost predicate HandlerOk(s: State, h: Name)
    requires h in s.handlers
  {
    s.handlers[h] && exists p :: p in s.policies && h in s.policies[p].modules
  }

  ghost predicate PoliciesOk(s: State) {
    forall p | p in s.policies :: PolicyOk(s, p)
  }

  ghost predicate InputsOk(s: State) {
    forall i | i in s.inputs :: InputOk(s, i)
  }

  ghost predicate HandlersOk(s: State) {
    forall h | h in s.handlers :: HandlerOk(s, h)
  }

  /** No two policies share a handler. */
  ghost predicate OneOwner(s: State) {
    forall p, q, m | p in s.policies && q in s.policies && m in s.policies[p].modules
        && m in s.policies[q].modules :: p == q
  }

  ghost predicate Inv(s: State) {
    PoliciesOk(s) && InputsOk(s) && HandlersOk(s) && OneOwner(s)
  }

  // ---------------------------------------------------------------------------------------------
  // What a successful load and a removal make of the registries
  // ---------------------------------------------------------------------------------------------

  ghost function NewInputs(s: State, spec: PolicySpec): set<InputName> {
    Elems(Inputs(spec.taps)) - s.inputs.Keys
  }

  /** The inputs a load creates a resources policy for: the new ones, if its handler is available. */
  ghost function Watched(s: State, spec: PolicySpec, available: bool): set<InputName> {
    if available then NewInputs(s, spec) else {}
  }

  ghost function ResourcesNames(inputs: set<InputName>): (ns: set<Name>)
    ensures forall n :: n in ns <==> n.Resources? && n.input in inputs
  {
    set i | i in inputs :: Resources(i)
  }

  /** No name this load needs is taken. */
  ghost predicate Loadable(s: State, spec: PolicySpec, available: bool) {
    var hs := Handlers(spec.taps);
    && Plain(spec.name) !in s.policies
    && Distinct(hs)
    && (forall h | h in hs :: h !in s.handlers)
    && (forall i | i in Watched(s, spec, available) :: Resources(i) !in s.handlers && Resources(i) !in hs)
  }

  /** The attachments of an input that a load uses. */
  ghost function LoadedInput(s: State, spec: PolicySpec, available: bool, i: InputName): Input {
    if i in s.inputs then Input(s.inputs[i].policies + [Plain(spec.name)], s.inputs[i].running)
    else Input(if available then [Plain(spec.name), Resources(i)] else [Plain(spec.name)], true)
  }

  ghost function LoadedPolicy(s: State, spec: PolicySpec, p: Name): Policy
    requires p in s.policies || p == Plain(spec.name) || p.Resources?
  {
    if p == Plain(spec.name) then Policy(Inputs(spec.taps), Handlers(spec.taps), true)
    else if p in s.policies then s.policies[p]
    else ResourcesPolicy(p.input)
  }

  ghost function LoadedPolicies(s: State, spec: PolicySpec, available: bool): map<Name, Policy> {
    map p | p in s.policies.Keys + {Plain(spec.name)} + ResourcesNames(Watched(s, spec, available)) ::
        LoadedPolicy(s, spec, p)
  }

  ghost function LoadedHandlers(s: State, spec: PolicySpec, available: bool): map<Name, bool> {
    map h | h in s.handlers.Keys + Elems(Handlers(spec.taps)) + ResourcesNames(Watched(s, spec, available)) ::
      h in s.handlers ==> s.handlers[h]
  }

  ghost function LoadedInputs(s: State, spec: PolicySpec, available: bool): map<InputName, Input> {
    map i | i in s.inputs.Keys + Elems(Inputs(spec.taps)) ::
      if i in Inputs(spec.taps) then LoadedInput(s, spec, available, i) else s.inputs[i]
  }

  ghost function Loaded(s: State, spec: PolicySpec, available: bool): State {
    State(LoadedPolicies(s, spec, available), LoadedHandlers(s, spec, available), LoadedInputs(s, spec, available))
  }

  /** Whether an input is unused once `leaving` is off it: none is attached, or only its resources policy. */
  ghost predicate Unused(s: State, leaving: Name, i: InputName)
    requires i in s.inputs
  {
    var rest := Without(s.inputs[i].policies, leaving);
    rest == [] || (rest == [Resources(i)] && leaving != Resources(i))
  }

  ghost function Dropped(s: State, leaving: Name): set<InputName>
    requires leaving in s.policies
  {
    set i | i in s.policies[leaving].inputs && i in s.inputs && Unused(s, leaving, i)
  }

  /** The dropped inputs that take a resources policy with them. */
  ghost function Unwatched(s: State, leaving: Name): set<InputName>
    requires leaving in s.policies
  {
    set i | i in Dropped(s, leaving) && Resources(i) in s.policies
  }

  ghost function RemovedPolicies(s: State, leaving: Name): map<Name, Policy>
    requires leaving in s.policies
  {
    map q | q in s.policies && q != leaving && q !in ResourcesNames(Unwatched(s, leaving)) :: s.policies[q]
  }

  ghost function RemovedHandlers(s: State, leaving: Name): map<Name, bool>
    requires leaving in s.policies
  {
    map h | h in s.handlers && h !in s.policies[leaving].modules
        && h !in ResourcesNames(Unwatched(s, leaving)) :: s.handlers[h]
  }

  ghost function RemovedInputs(s: State, leaving: Name): map<InputName, Input>
    requires leaving in s.policies
  {
    map i | i in s.inputs && i !in Dropped(s, leaving) ::
      if i in s.policies[leaving].inputs then Input(Without(s.inputs[i].policies, leaving), s.inputs[i].running)
      else s.inputs[i]
  }

  ghost function Removed(s: State, leaving: Name): State
    requires leaving in s.policies
  {
    State(RemovedPolicies(s, leaving), RemovedHandlers(s, leaving), RemovedInputs(s, leaving))
  }

  // ---------------------------------------------------------------------------------------------
  // Every history keeps the invariant
  // ---------------------------------------------------------------------------------------------

  lemma EmptyOk()
    ensures Inv(EMPTY)
  {
  }

  /** Loading a policy whose names are free keeps the invariant. */
  lemma LoadedOk(s: State, spec: PolicySpec, available: bool)
    requires Inv(s) && WellFormed(spec) && Loadable(s, spec, available)
    ensures Inv(Loaded(s, spec, available))
  {
    var s' := Loaded(s, spec, available);
    forall p | p in s'.policies ensures PolicyOk(s', p) {
      LoadedPolicyOk(s, spec, available, p);
    }
    forall i | i in s'.inputs ensures InputOk(s', i) {
      LoadedInputOk(s, spec, available, i);
    }
    forall h | h in s'.handlers ensures HandlerOk(s', h) {
      LoadedHandlerOk(s, spec, available, h);
    }
    forall p, q, m | p in s'.policies && q in s'.policies && m in s'.policies[p].modules && m in s'.policies[q].modules
      ensures p == q
    {
      LoadedOwner(s, spec, available, p, m);
      LoadedOwner(s, spec, available, q, m);
    }
  }

  lemma LoadedPolicyOk(s: State, spec: PolicySpec, available: bool, p: Name)
    requires PoliciesOk(s) && WellFormed(spec) && Loadable(s, spec, available)
    requires p in Loaded(s, spec, available).policies
    ensures PolicyOk(Loaded(s, spec, available), p)
  {
    var s' := Loaded(s, spec, available);
    if p == Plain(spec.name) {
      assert Inputs(spec.taps)[0] == spec.taps[0].input;
    } else if p in ResourcesNames(Watched(s, spec, available)) {
      assert s'.policies[p] == ResourcesPolicy(p.input);
    } else {
      assert PolicyOk(s, p);
    }
  }

  lemma LoadedInputOk(s: State, spec: PolicySpec, available: bool, i: InputName)
    requires PoliciesOk(s) && InputsOk(s) && Loadable(s, spec, available)
    requires i in Loaded(s, spec, available).inputs
    ensures InputOk(Loaded(s, spec, available), i)
  {
    if i !in s.inputs {
      LoadedNewInputOk(s, spec, available, i);
    } else {
      assert InputOk(s, i);
      LoadedOldInputOk(s, spec, available, i);
    }
  }

  lemma LoadedNewInputOk(s: State, spec: PolicySpec, available: bool, i: InputName)
    requires PoliciesOk(s) && Loadable(s, spec, available) && i in Inputs(spec.taps) && i !in s.inputs
    ensures InputOk(Loaded(s, spec, available), i)
  {
    var s' := Loaded(s, spec, available);
    StaleResources(s, i);
    assert Plain(spec.name) in s'.inputs[i].policies;
  }

  lemma LoadedOldInputOk(s: State, spec: PolicySpec, available: bool, i: InputName)
    requires Loadable(s, spec, available) && i in s.inputs && InputOk(s, i)
    ensures InputOk(Loaded(s, spec, available), i)
  {
    var s' := Loaded(s, spec, available);
    var before := s.inputs[i].policies;
    var after := s'.inputs[i].policies;
    var u :| u in before && u.Plain?;
    if i in Inputs(spec.taps) {
      assert after == before + [Plain(spec.name)];
    }
    assert u in after;
    forall p | p in before ensures p in s'.policies && i in s'.policies[p].inputs {
      assert s'.policies[p] == s.policies[p];
    }
  }

  lemma LoadedHandlerOk(s: State, spec: PolicySpec, available: bool, h: Name)
    requires PoliciesOk(s) && HandlersOk(s) && WellFormed(spec) && Loadable(s, spec, available)
    requires h in Loaded(s, spec, available).handlers
    ensures HandlerOk(Loaded(s, spec, available), h)
  {
    hide Handlers, Distinct, Watched;
    var s' := Loaded(s, spec, available);
    if h in Handlers(spec.taps) {
      assert h in s'.policies[Plain(spec.name)].modules;
    } else if h in ResourcesNames(Watched(s, spec, available)) {
      assert h in s'.policies && h in s'.policies[h].modules;
    } else {
      assert HandlerOk(s, h);
      var p :| p in s.policies && h in s.policies[p].modules;
      assert PolicyOk(s, p);
      assert s'.policies[p] == s.policies[p];
    }
  }

  /** Which kind of policy owns a handler after a load. */
  lemma LoadedOwner(s: State, spec: PolicySpec, available: bool, p: Name, m: Name)
    requires PoliciesOk(s) && WellFormed(spec) && Loadable(s, spec, available)
    requires p in Loaded(s, spec, available).policies && m in Loaded(s, spec, available).policies[p].modules
    ensures m in Handlers(spec.taps) <==> p == Plain(spec.name)
    ensures m !in s.handlers && m !in Handlers(spec.taps) ==> p.Resources? && m == p
    ensures m in s.handlers ==> p in s.policies && m in s.policies[p].modules
  {
    if p in s.policies {
      assert PolicyOk(s, p);
    }
  }

  /** A resources policy is attached to its input exactly while it is registered. */
  lemma ResourcesAttached(s: State, i: InputName)
    requires PoliciesOk(s) && InputsOk(s) && i in s.inputs
    ensures Resources(i) in s.policies <==> Resources(i) in s.inputs[i].policies
  {
    assert InputOk(s, i);
    if Resources(i) in s.policies {
      assert PolicyOk(s, Resources(i));
      assert i in s.policies[Resources(i)].inputs;
    }
  }

  /** Removing any policy, a resources policy included, keeps the invariant. */
  lemma RemovedOk(s: State, leaving: Name)
    requires Inv(s) && leaving in s.policies
    ensures Inv(Removed(s, leaving))
  {
    var s' := Removed(s, leaving);
    forall p | p in s'.policies ensures PolicyOk(s', p) {
      RemovedPolicyOk(s, leaving, p);
    }
    forall i | i in s'.inputs ensures InputOk(s', i) {
      RemovedInputOk(s, leaving, i);
    }
    forall h | h in s'.handlers ensures HandlerOk(s', h) {
      RemovedHandlerOk(s, leaving, h);
    }
  }

  /** A policy that stays reads no dropped input and owns no removed handler. */
  lemma RemovedPolicyOk(s: State, leaving: Name, p: Name)
    requires PoliciesOk(s) && OneOwner(s) && leaving in s.policies && p in Removed(s, leaving).policies
    ensures PolicyOk(Removed(s, leaving), p)
  {
    assert PolicyOk(s, p) && PolicyOk(s, leaving);
    forall i | i in s.policies[p].inputs ensures i !in Dropped(s, leaving) {
      assert p in Without(s.inputs[i].policies, leaving);
    }
    forall i | i in Unwatched(s, leaving) ensures Resources(i) !in s.policies[p].modules {
      assert PolicyOk(s, Resources(i));
      assert Resources(i) in s.policies[Resources(i)].modules;
    }
  }

  /** Once a user policy has left an input that is not dropped, another user policy is still attached. */
  lemma AnotherUser(s: State, leaving: Name, i: InputName)
    requires PoliciesOk(s) && InputsOk(s) && leaving in s.policies && i in s.inputs && i !in Dropped(s, leaving)
    requires leaving in s.inputs[i].policies && leaving.Plain?
    ensures exists u :: u in Without(s.inputs[i].policies, leaving) && u.Plain?
  {
    var rest := Without(s.inputs[i].policies, leaving);
    assert InputOk(s, i);
    WithoutDistinct(s.inputs[i].policies, leaving);
    assert rest != [] && rest != [Resources(i)];
    if rest[0].Plain? {
      assert rest[0] in rest;
    } else {
      AttachedResources(s, i, rest[0]);
      assert 1 < |rest|;
      assert rest[0] != rest[1];
      assert rest[1] in rest;
      if rest[1].Resources? {
        AttachedResources(s, i, rest[1]);
      }
    }
  }

  lemma AttachedResources(s: State, i: InputName, p: Name)
    requires PoliciesOk(s) && InputsOk(s) && i in s.inputs && p in s.inputs[i].policies && p.Resources?
    ensures p == Resources(i)
  {
    assert InputOk(s, i);
    assert PolicyOk(s, p);
  }

  /** An input that stays is as it was, without the policy that left. */
  lemma RemovedInputIs(s: State, leaving: Name, i: InputName)
    requires InputsOk(s) && leaving in s.policies && i in Removed(s, leaving).inputs
    ensures i in s.inputs && i !in Dropped(s, leaving)
    ensures Removed(s, leaving).inputs[i] == s.inputs[i].(policies := Without(s.inputs[i].policies, leaving))
  {
    assert InputOk(s, i);
  }

  /** A policy attached to an input that stays is still registered, and still reads it. */
  lemma AttachedStays(s: State, leaving: Name, i: InputName, p: Name)
    requires PoliciesOk(s) && leaving in s.policies && i in s.inputs && i !in Dropped(s, leaving) && InputOk(s, i)
    requires p in s.inputs[i].policies && p != leaving
    ensures p in Removed(s, leaving).policies && i in Removed(s, leaving).policies[p].inputs
  {
    hide Dropped, Without;
    assert PolicyOk(s, p);
    assert i in s.policies[p].inputs;
    assert p.Resources? ==> p.input == i;
  }

  lemma RemovedInputOk(s: State, leaving: Name, i: InputName)
    requires PoliciesOk(s) && InputsOk(s) && leaving in s.policies && i in Removed(s, leaving).inputs
    ensures InputOk(Removed(s, leaving), i)
  {
    hide Removed, Dropped, PoliciesOk, PolicyOk;
    RemovedInputIs(s, leaving, i);
    var before := s.inputs[i].policies;
    var rest := Without(before, leaving);
    assert InputOk(s, i);
    WithoutDistinct(before, leaving);
    forall p | p in rest ensures p in Removed(s, leaving).policies && i in Removed(s, leaving).policies[p].inputs {
      AttachedStays(s, leaving, i, p);
    }
    if leaving in before && leaving.Plain? {
      AnotherUser(s, leaving, i);
    } else {
      var u :| u in before && u.Plain?;
      assert u in rest;
    }
  }

  lemma RemovedHandlerOk(s: State, leaving: Name, h: Name)
    requires PoliciesOk(s) && HandlersOk(s) && leaving in s.policies && h in Removed(s, leaving).handlers
    ensures HandlerOk(Removed(s, leaving), h)
  {
    hide Dropped;
    var s' := Removed(s, leaving);
    assert HandlerOk(s, h);
    var p :| p in s.policies && h in s.policies[p].modules;
    assert PolicyOk(s, p);
    assert p in s'.policies && h in s'.policies[p].modules;
  }

  /** Loading a policy and then removing it gives back the registries as they were. */
  lemma LoadThenRemove(s: State, spec: PolicySpec, available: bool)
    requires Inv(s) && WellFormed(spec) && Loadable(s, spec, available)
    ensures Removed(Loaded(s, spec, available), Plain(spec.name)) == s
  {
    LoadThenDrop(s, spec, available);
    LoadThenUnwatch(s, spec, available);
    PoliciesRestored(s, spec, available);
    HandlersRestored(s, spec, available);
    InputsRestored(s, spec, available);
  }

  /** What leaves with a policy just loaded is what its load created. */
  lemma LoadThenDrop(s: State, spec: PolicySpec, available: bool)
    requires InputsOk(s) && Loadable(s, spec, available)
    ensures Dropped(Loaded(s, spec, available), Plain(spec.name)) == NewInputs(s, spec)
  {
    forall i | i in Inputs(spec.taps)
      ensures Unused(Loaded(s, spec, available), Plain(spec.name), i) <==> i !in s.inputs
    {
      LeavingLoadedInput(s, spec, available, i);
    }
  }

  lemma LoadThenUnwatch(s: State, spec: PolicySpec, available: bool)
    requires PoliciesOk(s) && Loadable(s, spec, available)
    requires Dropped(Loaded(s, spec, available), Plain(spec.name)) == NewInputs(s, spec)
    ensures Unwatched(Loaded(s, spec, available), Plain(spec.name)) == Watched(s, spec, available)
  {
    forall i | i in NewInputs(s, spec) ensures Resources(i) !in s.policies {
      StaleResources(s, i);
    }
  }

  lemma PoliciesRestored(s: State, spec: PolicySpec, available: bool)
    requires PoliciesOk(s) && Loadable(s, spec, available)
    requires Unwatched(Loaded(s, spec, available), Plain(spec.name)) == Watched(s, spec, available)
    ensures RemovedPolicies(Loaded(s, spec, available), Plain(spec.name)) == s.policies
  {
    forall i | i in NewInputs(s, spec) ensures Resources(i) !in s.policies {
      StaleResources(s, i);
    }
    var back := RemovedPolicies(Loaded(s, spec, available), Plain(spec.name));
    assert back.Keys == s.policies.Keys;
  }

  lemma HandlersRestored(s: State, spec: PolicySpec, available: bool)
    requires Loadable(s, spec, available)
    requires Unwatched(Loaded(s, spec, available), Plain(spec.name)) == Watched(s, spec, available)
    ensures RemovedHandlers(Loaded(s, spec, available), Plain(spec.name)) == s.handlers
  {
    assert Loaded(s, spec, available).policies[Plain(spec.name)].modules == Handlers(spec.taps);
  }

  lemma InputsRestored(s: State, spec: PolicySpec, available: bool)
    requires InputsOk(s) && Loadable(s, spec, available)
    requires Dropped(Loaded(s, spec, available), Plain(spec.name)) == NewInputs(s, spec)
    ensures RemovedInputs(Loaded(s, spec, available), Plain(spec.name)) == s.inputs
  {
    hide Without, Handlers, Dropped;
    var back := RemovedInputs(Loaded(s, spec, available), Plain(spec.name));
    assert back.Keys == s.inputs.Keys;
    forall i | i in s.inputs ensures back[i] == s.inputs[i] {
      if i in Inputs(spec.taps) {
        LeavingLoadedInput(s, spec, available, i);
      }
    }
  }

  lemma LeavingLoadedInput(s: State, spec: PolicySpec, available: bool, i: InputName)
    requires InputsOk(s) && Loadable(s, spec, available) && i in Inputs(spec.taps)
    ensures var after := LoadedInput(s, spec, available, i); var me := Plain(spec.name);
      if i in s.inputs then Without(after.policies, me) == s.inputs[i].policies
        && exists u :: u in s.inputs[i].policies && u.Plain?
      else Without(after.policies, me) == if available then [Resources(i)] else []
  {
    var me := Plain(spec.name);
    if i in s.inputs {
      assert InputOk(s, i);
      WithoutAppend(s.inputs[i].policies, me, me);
    } else {
      WithoutAppend([], me, me);
      assert [] + [me] == [me];
      WithoutAppend([me], Resources(i), me);
      assert [me] + [Resources(i)] == [me, Resources(i)];
    }
  }

  /** No resources policy outlives its input. */
  lemma StaleResources(s: State, i: InputName)
    requires PoliciesOk(s) && i !in s.inputs
    ensures Resources(i) !in s.policies
  {
    assert forall p | p in s.policies :: PolicyOk(s, p);
    assert ResourcesPolicy(i).inputs[0] == i;
  }

  /** With no user policy registered, nothing is: no input, no handler, no resources policy. */
  lemma NoUsersNothingLeft(s: State)
    requires Inv(s) && forall p | p in s.policies :: p.Resources?
    ensures s == EMPTY
  {
    assert s.inputs == map[];
    forall p | p in s.policies ensures false {
      StaleResources(s, p.input);
    }
    assert s.handlers == map[];
  }

  // ---------------------------------------------------------------------------------------------
  // Histories
  // ---------------------------------------------------------------------------------------------

  /** A load, which an error at any step may make fail, or a removal. */
  datatype Op = Load(spec: PolicySpec, fails: bool) | Remove(policy: Name)

  ghost function Apply(s: State, op: Op, available: bool): State {
    match op
    case Load(spec, fails) => if !fails && Loadable(s, spec, available) then Loaded(s, spec, available) else s
    case Remove(p) => if p in s.policies then Removed(s, p) else s
  }

  ghost function Run(ops: seq<Op>, available: bool): State {
    if ops == [] then EMPTY else Apply(Run(ops[..|ops| - 1], available), ops[|ops| - 1], available)
  }

  ghost predicate WellFormedOps(ops: seq<Op>) {
    forall op | op in ops :: op.Load? ==> WellFormed(op.spec)
  }

  /** Over every history of loads, failed loads and removals. */
  lemma {:induction false} RunOk(ops: seq<Op>, available: bool)
    requires WellFormedOps(ops)
    ensures Inv(Run(ops, available))
  {
    if ops == [] {
      EmptyOk();
    } else {
      var front := ops[..|ops| - 1];
      var last := ops[|ops| - 1];
      assert last in ops;
      RunOk(front, available);
      var s := Run(front, available);
      if last.Load? && !last.fails && Loadable(s, last.spec, available) {
        LoadedOk(s, last.spec, available);
      } else if last.Remove? && last.policy in s.policies {
        RemovedOk(s, last.policy);
      }
    }
  }

  // ---------------------------------------------------------------------------------------------
  // What the registries hold after a history
  // ---------------------------------------------------------------------------------------------

  /** The user policies that a history leaves loaded, as they were parsed. */
  ghost function Users(ops: seq<Op>, available: bool): map<string, PolicySpec> {
    if ops == [] then map[]
    else
      var front, last := ops[..|ops| - 1], ops[|ops| - 1];
      var users := Users(front, available);
      match last
      case Load(spec, fails) =>
        if !fails && Loadable(Run(front, available), spec, available) then users[spec.name := spec] else users
      case Remove(p) => if p.Plain? then users - {p.text} else users
  }

  /** The user policies registered are these, each running with its own inputs and handlers. */
  ghost predicate Reflects(s: State, users: map<string, PolicySpec>) {
    && (forall n :: Plain(n) in s.policies <==> n in users)
    && (forall n | n in users :: s.policies[Plain(n)] == Policy(Inputs(users[n].taps), Handlers(users[n].taps), true))
  }

  lemma LoadedReflects(s: State, spec: PolicySpec, available: bool, users: map<string, PolicySpec>)
    requires Reflects(s, users) && Loadable(s, spec, available)
    ensures Reflects(Loaded(s, spec, available), users[spec.name := spec])
  {
    hide Watched, Handlers;
  }

  lemma RemovedReflects(s: State, p: Name, users: map<string, PolicySpec>)
    requires Reflects(s, users) && p in s.policies
    ensures Reflects(Removed(s, p), if p.Plain? then users - {p.text} else users)
  {
    hide Dropped, Handlers;
  }

  lemma {:induction false} RunReflects(ops: seq<Op>, available: bool)
    ensures Reflects(Run(ops, available), Users(ops, available))
  {
    if ops != [] {
      hide Reflects, Loaded, Removed, Loadable;
      var front, last := ops[..|ops| - 1], ops[|ops| - 1];
      RunReflects(front, available);
      var s, users := Run(front, available), Users(front, available);
      match last
      case Load(spec, fails) =>
        if !fails && Loadable(s, spec, available) {
          LoadedReflects(s, spec, available, users);
        }
      case Remove(p) =>
        if p in s.policies {
          RemovedReflects(s, p, users);
        } else {
          NotThere(s, p, users);
        }
    }
  }

  lemma NotThere(s: State, p: Name, users: map<string, PolicySpec>)
    requires Reflects(s, users) && p !in s.policies
    ensures Reflects(s, if p.Plain? then users - {p.text} else users)
  {
    if p.Plain? {
      assert users - {p.text} == users;
    }
  }

  /** After every history there is exactly what the loaded user policies need: their inputs, each with just those of
      them attached that read it, and their handlers; and beside these only the resources policy of an input, with its
      handler of the same name. */
  lemma RunHolds(ops: seq<Op>, available: bool)
    requires WellFormedOps(ops)
    ensures var s, users := Run(ops, available), Users(ops, available);
            && (forall n :: Plain(n) in s.policies <==> n in users)
            && (forall i :: i in s.inputs <==> exists n :: n in users && i in Inputs(users[n].taps))
            && (forall i, n | i in s.inputs ::
                  Plain(n) in s.inputs[i].policies <==> n in users && i in Inputs(users[n].taps))
            && (forall n, h | n in users && h in Handlers(users[n].taps) :: h in s.handlers && s.handlers[h])
            && (forall h | h in s.handlers ::
                  || (exists n :: n in users && h in Handlers(users[n].taps))
                  || (h.Resources? && h in s.policies && h.input in s.inputs))
  {
    hide Run, Users;
    RunOk(ops, available);
    RunReflects(ops, available);
    HoldsInputs(Run(ops, available), Users(ops, available));
    HoldsHandlers(Run(ops, available), Users(ops, available));
  }

  lemma HoldsInputs(s: State, users: map<string, PolicySpec>)
    requires Inv(s) && Reflects(s, users)
    ensures forall i, n | i in s.inputs ::
              Plain(n) in s.inputs[i].policies <==> n in users && i in Inputs(users[n].taps)
    ensures forall i :: i in s.inputs <==> exists n :: n in users && i in Inputs(users[n].taps)
  {
    hide Inputs, Handlers, Distinct;
    forall n, i | n in users && i in Inputs(users[n].taps) ensures i in s.inputs && Plain(n) in s.inputs[i].policies {
      assert PolicyOk(s, Plain(n));
    }
    forall i, n | i in s.inputs && Plain(n) in s.inputs[i].policies ensures n in users && i in Inputs(users[n].taps) {
      assert InputOk(s, i);
    }
    forall i | i in s.inputs ensures exists n :: n in users && i in Inputs(users[n].taps) {
      assert InputOk(s, i);
      var p :| p in s.inputs[i].policies && p.Plain?;
      assert Plain(p.text) in s.inputs[i].policies;
    }
  }

  lemma HoldsHandlers(s: State, users: map<string, PolicySpec>)
    requires Inv(s) && Reflects(s, users)
    ensures forall n, h | n in users && h in Handlers(users[n].taps) :: h in s.handlers && s.handlers[h]
    ensures forall h | h in s.handlers ::
              || (exists n :: n in users && h in Handlers(users[n].taps))
              || (h.Resources? && h in s.policies && h.input in s.inputs)
  {
    hide Inputs, Handlers, Distinct;
    forall n, h | n in users && h in Handlers(users[n].taps) ensures h in s.handlers && s.handlers[h] {
      assert PolicyOk(s, Plain(n));
      assert HandlerOk(s, h);
    }
    forall h | h in s.handlers
      ensures (exists n :: n in users && h in Handlers(users[n].taps))
           || (h.Resources? && h in s.policies && h.input in s.inputs)
    {
      assert HandlerOk(s, h);
      var p :| p in s.policies && h in s.policies[p].modules;
      assert PolicyOk(s, p);
      if p.Plain? {
        assert p.text in users && h in Handlers(users[p.text].taps);
      } else {
        assert h == p;
        assert p.input in ResourcesPolicy(p.input).inputs;
      }
    }
  }

  /** A load watches exactly the inputs it creates, if the resources handler is available. */
  lemma LoadWatches(s: State, spec: PolicySpec, available: bool, i: InputName)
    requires Inv(s) && WellFormed(spec) && Loadable(s, spec, available)
    ensures var t := Loaded(s, spec, available);
            && (Resources(i) in t.policies <==>
                  Resources(i) in s.policies || (available && i in Inputs(spec.taps) && i !in s.inputs))
            && (i in t.inputs && i !in s.inputs ==> (Resources(i) in t.inputs[i].policies <==> available))
  {
  }

  ghost function RemoveAll(s: State, users: seq<Name>): State
    decreases |users|
  {
    if users == [] then s
    else RemoveAll(if users[0] in s.policies then Removed(s, users[0]) else s, users[1..])
  }

  /** Removing every user policy, in any order, from any reachable state leaves nothing behind. */
  lemma {:induction false} RemoveAllUsers(s: State, users: seq<Name>)
    requires Inv(s) && forall p | p in s.policies && p.Plain? :: p in users
    ensures RemoveAll(s, users) == EMPTY
    decreases |users|
  {
    if users == [] {
      NoUsersNothingLeft(s);
    } else if users[0] in s.policies {
      RemovedOk(s, users[0]);
      RemoveAllUsers(Removed(s, users[0]), users[1..]);
    } else {
      RemoveAllUsers(s, users[1..]);
    }
  }
}
