/**
 SingleFlight of syncx/singleflight.go as a state machine: every critical section, the end
 of fn and every wake-up is one step, and callers interleave freely. A caller stands for one
 invocation of Do or DoCtx. Forget is not a step; see ForgetBreaksExclusion.
 */
module SingleFlight {
  import opened Options

  datatype Outcome<V> = Value(v: V) | Failure(err: nat) | Panicked(reason: nat)

  type Caller = nat
  type CallId = nat
  datatype Key = Key(name: string)

  /** The lazily created completion channel of DoCtx waiters. */
  datatype Channel = Absent | Open | Closed

  datatype Call<V> = Call(key: Key, leader: Caller, result: Option<Outcome<V>>, done: Channel)

  datatype PC<V> =
    | Leading(id: CallId)              // fn is running
    | Finished(id: CallId)             // the result is recorded, the entry not yet deleted
    | Deleted(id: CallId)
    | Waiting(id: CallId, ctx: bool)   // ctx: joined through DoCtx
    | Returned(outcome: Outcome<V>)
    | Cancelled

  /** calls is the map of the source; records are the call objects; joined and asked are history. */
  datatype State<V> = State(
    calls: map<Key, CallId>, records: seq<Call<V>>, pcs: map<Caller, PC<V>>,
    joined: map<Caller, CallId>, asked: map<Caller, Key>)

  function Empty<V>(): State<V> {
    State(map[], [], map[], map[], map[])
  }

  datatype Step<V> =
    | Enter(c: Caller, key: Key, ctx: bool)
    | EnterCancelled(c: Caller)        // DoCtx fast path: the context is already done
    | Finish(c: Caller, outcome: Outcome<V>)
    | Delete(c: Caller)
    | ReturnLeader(c: Caller)
    | CloseDone(id: CallId)
    | Wake(c: Caller)
    | Cancel(c: Caller)

  predicate Enabled<V>(s: State<V>, st: Step<V>) {
    match st
    case Enter(c, _, _) => c !in s.pcs
    case EnterCancelled(c) => c !in s.pcs
    case Finish(c, _) => c in s.pcs && s.pcs[c].Leading? && s.pcs[c].id < |s.records|
    case Delete(c) => c in s.pcs && s.pcs[c].Finished? && s.pcs[c].id < |s.records|
    case ReturnLeader(c) =>
      c in s.pcs && s.pcs[c].Deleted? && s.pcs[c].id < |s.records| && s.records[s.pcs[c].id].result.Some?
    case CloseDone(id) => id < |s.records| && s.records[id].done.Open? && s.records[id].result.Some?
    case Wake(c) =>
      && c in s.pcs && s.pcs[c].Waiting? && s.pcs[c].id < |s.records|
      && s.records[s.pcs[c].id].result.Some?
      && (s.pcs[c].ctx ==> s.records[s.pcs[c].id].done.Closed?)
    case Cancel(c) => c in s.pcs && s.pcs[c].Waiting? && s.pcs[c].ctx
  }

  function Join<V>(s: State<V>, c: Caller, key: Key, ctx: bool): State<V>
    requires key in s.calls && s.calls[key] < |s.records|
  {
    var id := s.calls[key];
    var call := s.records[id];
    s.(records := s.records[id := call.(done := if ctx && call.done.Absent? then Open else call.done)],
       pcs := s.pcs[c := Waiting(id, ctx)], joined := s.joined[c := id], asked := s.asked[c := key])
  }

  function Lead<V>(s: State<V>, c: Caller, key: Key): State<V> {
    var id := |s.records|;
    s.(calls := s.calls[key := id], records := s.records + [Call(key, c, None, Absent)],
       pcs := s.pcs[c := Leading(id)], joined := s.joined[c := id], asked := s.asked[c := key])
  }

  function Apply<V>(s: State<V>, st: Step<V>): State<V>
    requires Enabled(s, st)
  {
    match st
    case Enter(c, key, ctx) =>
      if key in s.calls && s.calls[key] < |s.records| then Join(s, c, key, ctx) else Lead(s, c, key)
    case EnterCancelled(c) => s.(pcs := s.pcs[c := Cancelled])
    case Finish(c, outcome) =>
      var id := s.pcs[c].id;
      s.(records := s.records[id := s.records[id].(result := Some(outcome))], pcs := s.pcs[c := Finished(id)])
    case Delete(c) =>
      var id := s.pcs[c].id;
      s.(calls := s.calls - {s.records[id].key}, pcs := s.pcs[c := Deleted(id)])
    case ReturnLeader(c) => s.(pcs := s.pcs[c := Returned(s.records[s.pcs[c].id].result.value)])
    case CloseDone(id) => s.(records := s.records[id := s.records[id].(done := Closed)])
    case Wake(c) => s.(pcs := s.pcs[c := Returned(s.records[s.pcs[c].id].result.value)])
    case Cancel(c) => s.(pcs := s.pcs[c := Cancelled])
  }

  // ---------------------------------------------------------------- invariant

  /** The registered call of every key belongs to a leader that has not deleted it yet. */
  ghost predicate CallsOk<V>(s: State<V>) {
    forall k :: k in s.calls ==>
      && s.calls[k] < |s.records| && s.records[s.calls[k]].key == k
      && var l := s.records[s.calls[k]].leader;
         l in s.pcs && (s.pcs[l] == Leading(s.calls[k]) || s.pcs[l] == Finished(s.calls[k]))
  }

  /** What each program counter promises. */
  ghost predicate CallerOk<V>(s: State<V>, c: Caller)
    requires c in s.pcs
  {
    match s.pcs[c]
    case Leading(id) => Owns(s, c, id) && s.records[id].result.None? && Registered(s, id)
    case Finished(id) => Owns(s, c, id) && s.records[id].result.Some? && Registered(s, id)
    case Deleted(id) => Owns(s, c, id) && s.records[id].result.Some?
    case Waiting(id, ctx) => JoinedTo(s, c, id) && (ctx ==> !s.records[id].done.Absent?)
    case Returned(o) => c in s.joined && JoinedTo(s, c, s.joined[c]) && s.records[s.joined[c]].result == Some(o)
    case Cancelled => true
  }

  ghost predicate Registered<V>(s: State<V>, id: CallId)
    requires id < |s.records|
  {
    s.records[id].key in s.calls && s.calls[s.records[id].key] == id
  }

  ghost predicate JoinedTo<V>(s: State<V>, c: Caller, id: CallId) {
    && id < |s.records| && c in s.joined && s.joined[c] == id
    && c in s.asked && s.records[id].key == s.asked[c]
  }

  ghost predicate Owns<V>(s: State<V>, c: Caller, id: CallId) {
    JoinedTo(s, c, id) && s.records[id].leader == c
  }

  ghost predicate RecordOk<V>(s: State<V>, id: CallId)
    requires id < |s.records|
  {
    var r := s.records[id];
    && r.leader in s.pcs
    && (r.result.None? ==> s.pcs[r.leader] == Leading(id))
    && (r.done.Closed? ==> r.result.Some?)
  }

  ghost predicate Inv<V>(s: State<V>) {
    && CallsOk(s)
    && (forall c :: c in s.pcs ==> CallerOk(s, c))
    && (forall id :: 0 <= id < |s.records| ==> RecordOk(s, id))
    && (forall c :: c in s.joined ==> c in s.pcs)
  }

  lemma {:induction false} LeadKeepsInv<V>(s: State<V>, c: Caller, key: Key)
    requires Inv(s) && c !in s.pcs && key !in s.calls
    ensures Inv(Lead(s, c, key))
  {
    var s' := Lead(s, c, key);
    forall x | x in s'.pcs ensures CallerOk(s', x) {
      if x != c { assert CallerOk(s, x); }
    }
    forall id | 0 <= id < |s'.records| ensures RecordOk(s', id) {
      if id < |s.records| { assert RecordOk(s, id); }
    }
  }

  lemma {:induction false} JoinKeepsInv<V>(s: State<V>, c: Caller, key: Key, ctx: bool)
    requires Inv(s) && c !in s.pcs && key in s.calls
    ensures s.calls[key] < |s.records| && Inv(Join(s, c, key, ctx))
  {
    var s' := Join(s, c, key, ctx);
    forall x | x in s'.pcs ensures CallerOk(s', x) {
      if x != c { assert CallerOk(s, x); }
    }
    forall id | 0 <= id < |s'.records| ensures RecordOk(s', id) {
      assert RecordOk(s, id);
    }
  }

  lemma {:induction false} FinishKeepsInv<V>(s: State<V>, c: Caller, o: Outcome<V>)
    requires Inv(s) && Enabled(s, Finish(c, o))
    ensures Inv(Apply(s, Finish(c, o)))
  {
    var s', id := Apply(s, Finish(c, o)), s.pcs[c].id;
    assert CallerOk(s, c);
    forall x | x in s'.pcs ensures CallerOk(s', x) {
      assert CallerOk(s, x);
    }
    forall i | 0 <= i < |s'.records| ensures RecordOk(s', i) {
      assert RecordOk(s, i);
    }
  }

  lemma {:induction false} DeleteKeepsInv<V>(s: State<V>, c: Caller)
    requires Inv(s) && Enabled(s, Delete(c))
    ensures Inv(Apply(s, Delete(c)))
  {
    var s', id := Apply(s, Delete(c)), s.pcs[c].id;
    assert CallerOk(s, c);
    forall x | x in s'.pcs ensures CallerOk(s', x) {
      assert CallerOk(s, x);
    }
    forall i | 0 <= i < |s'.records| ensures RecordOk(s', i) {
      assert RecordOk(s, i);
    }
  }

  lemma {:induction false} CloseKeepsInv<V>(s: State<V>, id: CallId)
    requires Inv(s) && Enabled(s, CloseDone(id))
    ensures Inv(Apply(s, CloseDone(id)))
  {
    var s' := Apply(s, CloseDone(id));
    forall x | x in s'.pcs ensures CallerOk(s', x) {
      assert CallerOk(s, x);
    }
    forall i | 0 <= i < |s'.records| ensures RecordOk(s', i) {
      assert RecordOk(s, i);
    }
  }

  /** Moving one caller that leads nothing registered to its final state. */
  lemma {:induction false} LeaveKeepsInv<V>(s: State<V>, c: Caller, pc: PC<V>)
    requires Inv(s) && (c in s.pcs ==> s.pcs[c].Deleted? || s.pcs[c].Waiting?)
    requires pc == Cancelled || (pc.Returned? && c in s.joined && JoinedTo(s, c, s.joined[c])
                                 && s.records[s.joined[c]].result == Some(pc.outcome))
    ensures Inv(s.(pcs := s.pcs[c := pc]))
  {
    var s' := s.(pcs := s.pcs[c := pc]);
    forall x | x in s'.pcs ensures CallerOk(s', x) {
      if x in s.pcs { assert CallerOk(s, x); }
    }
    forall i | 0 <= i < |s'.records| ensures RecordOk(s', i) {
      assert RecordOk(s, i);
    }
  }

  lemma {:induction false} StepKeepsInv<V>(s: State<V>, st: Step<V>)
    requires Inv(s) && Enabled(s, st)
    ensures Inv(Apply(s, st))
  {
    match st
    case Enter(c, key, ctx) =>
      if key in s.calls { JoinKeepsInv(s, c, key, ctx); } else { LeadKeepsInv(s, c, key); }
    case Finish(c, o) => FinishKeepsInv(s, c, o);
    case Delete(c) => DeleteKeepsInv(s, c);
    case CloseDone(id) => CloseKeepsInv(s, id);
    case EnterCancelled(c) => LeaveKeepsInv(s, c, Cancelled);
    case Cancel(c) => LeaveKeepsInv(s, c, Cancelled);
    case ReturnLeader(c) =>
      assert CallerOk(s, c);
      LeaveKeepsInv(s, c, Returned(s.records[s.pcs[c].id].result.value));
    case Wake(c) =>
      assert CallerOk(s, c);
      LeaveKeepsInv(s, c, Returned(s.records[s.pcs[c].id].result.value));
  }

  // ---------------------------------------------------------------- every reachable state

  /** A key never has two executions of fn at once, and a leader's delete removes only its own record. */
  lemma {:induction false} ExclusiveExecution<V>(s: State<V>, a: Caller, b: Caller)
    requires Inv(s) && a in s.pcs && b in s.pcs
    ensures (s.pcs[a].Leading? || s.pcs[a].Finished?) && (s.pcs[b].Leading? || s.pcs[b].Finished?) && a != b ==>
              s.asked[a] != s.asked[b]
    ensures Enabled(s, Delete(a)) ==>
              var s' := Apply(s, Delete(a));
              && s.asked[a] in s.calls && s.calls[s.asked[a]] == s.pcs[a].id == s.joined[a]
              && s'.calls == s.calls - {s.asked[a]}
  {
    assert CallerOk(s, a) && CallerOk(s, b);
  }

  /** Callers that joined the same execution and were not cancelled return the same outcome. */
  lemma {:induction false} SharedOutcome<V>(s: State<V>, a: Caller, b: Caller)
    requires Inv(s) && a in s.joined && b in s.joined && s.joined[a] == s.joined[b]
    requires s.pcs[a].Returned? && s.pcs[b].Returned?
    ensures s.pcs[a].outcome == s.pcs[b].outcome
  {
    assert CallerOk(s, a) && CallerOk(s, b);
  }

  /** How many steps of its own execution a caller still waits for, at most. */
  function Remaining<V>(s: State<V>, c: Caller): nat {
    if c !in s.pcs then 0
    else
      match s.pcs[c]
      case Leading(_) => 3
      case Finished(_) => 2
      case Deleted(_) => 1
      case Waiting(id, ctx) =>
        if id >= |s.records| || s.records[id].result.None? then 3
        else if ctx && !s.records[id].done.Closed? then 2
        else 1
      case _ => 0
  }

  /** The step is one of the caller itself, of the leader of its call, or closes that call's channel. */
  predicate Serves<V>(s: State<V>, st: Step<V>, c: Caller, id: CallId) {
    match st
    case Finish(x, _) => id < |s.records| && x == s.records[id].leader
    case Delete(x) => x == c
    case ReturnLeader(x) => x == c
    case Wake(x) => x == c
    case CloseDone(i) => i == id
    case _ => false
  }

  /**
   No caller is ever stuck: while one has not returned, a step of its own execution is
   enabled, and that step brings it closer to its return.
   */
  lemma {:induction false} NeverStuck<V>(s: State<V>, c: Caller, outcome: Outcome<V>) returns (st: Step<V>)
    requires Inv(s) && c in s.pcs && !s.pcs[c].Returned? && !s.pcs[c].Cancelled?
    ensures Enabled(s, st) && Serves(s, st, c, s.pcs[c].id)
    ensures Remaining(Apply(s, st), c) < Remaining(s, c)
  {
    assert CallerOk(s, c);
    var id := s.pcs[c].id;
    assert RecordOk(s, id);
    var r := s.records[id];
    st := match s.pcs[c]
          case Leading(_) => Finish(c, outcome)
          case Finished(_) => Delete(c)
          case Deleted(_) => ReturnLeader(c)
          case Waiting(_, ctx) =>
            if r.result.None? then Finish(r.leader, outcome)
            else if ctx && r.done.Open? then CloseDone(id)
            else Wake(c);
  }

  /** No step of anyone sets a caller back. */
  lemma {:induction false} RemainingNeverGrows<V>(s: State<V>, st: Step<V>, c: Caller)
    requires Inv(s) && Enabled(s, st) && c in s.pcs
    ensures c in Apply(s, st).pcs && Remaining(Apply(s, st), c) <= Remaining(s, c)
  {
    assert CallerOk(s, c);
    if st.Finish? {
      assert CallerOk(s, st.c);
    }
  }

  // ---------------------------------------------------------------- whole runs

  ghost predicate IsRun<V>(states: seq<State<V>>, steps: seq<Step<V>>) {
    && |states| == |steps| + 1 && states[0] == Empty<V>()
    && forall i {:trigger steps[i]} :: 0 <= i < |steps| ==>
         Enabled(states[i], steps[i]) && states[i + 1] == Apply(states[i], steps[i])
  }

  lemma {:induction false} RunKeepsInv<V>(states: seq<State<V>>, steps: seq<Step<V>>, n: nat)
    requires IsRun(states, steps) && n < |states|
    ensures Inv(states[n])
  {
    if n > 0 {
      RunKeepsInv(states, steps, n - 1);
      assert Enabled(states[n - 1], steps[n - 1]);
      StepKeepsInv(states[n - 1], steps[n - 1]);
    }
  }

  /** What later steps never change. */
  ghost predicate Extends<V>(s: State<V>, s': State<V>) {
    && |s.records| <= |s'.records|
    && (forall id :: 0 <= id < |s.records| ==>
          && s'.records[id].key == s.records[id].key && s'.records[id].leader == s.records[id].leader
          && (s.records[id].result.Some? ==> s'.records[id].result == s.records[id].result))
    && (forall c :: c in s.joined ==> c in s'.joined && s'.joined[c] == s.joined[c])
  }

  lemma {:induction false} StepExtends<V>(s: State<V>, st: Step<V>)
    requires Inv(s) && Enabled(s, st)
    ensures Extends(s, Apply(s, st))
  {
    if st.Finish? {
      assert CallerOk(s, st.c);
    }
    if st.Enter? {
      assert st.c !in s.joined;
    }
  }

  lemma {:induction false} RunExtends<V>(states: seq<State<V>>, steps: seq<Step<V>>, i: nat, j: nat)
    requires IsRun(states, steps) && i <= j < |states|
    ensures Extends(states[i], states[j])
    decreases j - i
  {
    if i < j {
      RunExtends(states, steps, i, j - 1);
      RunStepExtends(states, steps, j - 1);
      ExtendsTransitive(states[i], states[j - 1], states[j]);
    }
  }

  lemma {:induction false} RunStepExtends<V>(states: seq<State<V>>, steps: seq<Step<V>>, n: nat)
    requires IsRun(states, steps) && n < |steps|
    ensures Extends(states[n], states[n + 1])
  {
    RunKeepsInv(states, steps, n);
    assert Enabled(states[n], steps[n]) && states[n + 1] == Apply(states[n], steps[n]);
    StepExtends(states[n], steps[n]);
  }

  lemma {:induction false} ExtendsTransitive<V>(a: State<V>, b: State<V>, c: State<V>)
    requires Extends(a, b) && Extends(b, c)
    ensures Extends(a, c)
  {
  }

  /** The execution that a caller entering with this key joins: the registered one, or a new one of its own. */
  function ExecutionFor<V>(s: State<V>, key: Key): CallId {
    if key in s.calls then s.calls[key] else |s.records|
  }

  function LeaderFor<V>(s: State<V>, key: Key, c: Caller): Caller {
    if key in s.calls && s.calls[key] < |s.records| then s.records[s.calls[key]].leader else c
  }

  /** fn of leader l ended with this outcome at some step before n. */
  ghost predicate Delivered<V>(steps: seq<Step<V>>, n: nat, l: Caller, o: Outcome<V>)
    requires n <= |steps|
  {
    exists k :: 0 <= k < n && steps[k] == Finish(l, o)
  }

  /** A recorded result is what fn of the leader delivered. */
  lemma {:induction false} ResultDelivered<V>(states: seq<State<V>>, steps: seq<Step<V>>, n: nat, id: CallId)
    requires IsRun(states, steps) && n < |states| && id < |states[n].records| && states[n].records[id].result.Some?
    ensures Delivered(steps, n, states[n].records[id].leader, states[n].records[id].result.value)
  {
    RunKeepsInv(states, steps, n - 1);
    var s, st := states[n - 1], steps[n - 1];
    assert Enabled(s, st) && states[n] == Apply(s, st);
    if id < |s.records| && s.records[id].result.Some? {
      ResultDelivered(states, steps, n - 1, id);
      StepExtends(s, st);
      var k :| 0 <= k < n - 1 && steps[k] == Finish(s.records[id].leader, s.records[id].result.value);
      assert steps[k] == Finish(states[n].records[id].leader, states[n].records[id].result.value);
    } else {
      FirstResult(s, st, id);
      assert steps[n - 1] == Finish(states[n].records[id].leader, states[n].records[id].result.value);
    }
  }

  /** The step that records a result is the end of its leader's fn, with that outcome. */
  lemma {:induction false} FirstResult<V>(s: State<V>, st: Step<V>, id: CallId)
    requires Inv(s) && Enabled(s, st) && id < |Apply(s, st).records| && Apply(s, st).records[id].result.Some?
    requires id < |s.records| ==> s.records[id].result.None?
    ensures st == Finish(Apply(s, st).records[id].leader, Apply(s, st).records[id].result.value)
  {
    if st.Finish? {
      assert CallerOk(s, st.c);
    }
  }

  /**
   Every caller that returns gets the value, error or panic that fn delivered in the execution
   registered for its key when it entered, or in its own when none was, whatever happened in
   between.
   */
  lemma {:induction false} OutcomeOfJoinedExecution<V>(states: seq<State<V>>, steps: seq<Step<V>>, i: nat, j: nat,
                                                       c: Caller, key: Key, ctx: bool)
    requires IsRun(states, steps) && i < |steps| && i < j < |states| && steps[i] == Enter(c, key, ctx)
    ensures c in states[j].pcs && states[j].pcs[c].Returned? ==>
              Delivered(steps, j, LeaderFor(states[i], key, c), states[j].pcs[c].outcome)
  {
    if c in states[j].pcs && states[j].pcs[c].Returned? {
      var id := ExecutionFor(states[i], key);
      JoinedFor(states, steps, i, j, c, key, ctx);
      RunKeepsInv(states, steps, j);
      assert CallerOk(states[j], c);
      ResultDelivered(states, steps, j, id);
    }
  }

  /** The execution joined on entry, and its leader, stay the caller's. */
  lemma {:induction false} JoinedFor<V>(states: seq<State<V>>, steps: seq<Step<V>>, i: nat, j: nat,
                                        c: Caller, key: Key, ctx: bool)
    requires IsRun(states, steps) && i < |steps| && i < j < |states| && steps[i] == Enter(c, key, ctx)
    ensures var id := ExecutionFor(states[i], key);
            && c in states[j].joined && states[j].joined[c] == id && id < |states[j].records|
            && states[j].records[id].key == key && states[j].records[id].leader == LeaderFor(states[i], key, c)
  {
    RunKeepsInv(states, steps, i);
    assert Enabled(states[i], steps[i]) && states[i + 1] == Apply(states[i], steps[i]);
    RunExtends(states, steps, i + 1, j);
  }

  // ---------------------------------------------------------------- Forget

  function Forget<V>(s: State<V>, key: Key): State<V> {
    s.(calls := s.calls - {key})
  }

  /** Forget lets a second fn run for the key, and the first leader then deletes the second one's record. */
  lemma {:induction false} ForgetBreaksExclusion()
    ensures var k := Key("k");
            var s1 := Lead(Forget(Lead(Empty<nat>(), 0, k), k), 1, k);
            && s1.pcs[0] == Leading(0) && s1.pcs[1] == Leading(1) && s1.asked[0] == s1.asked[1]
            && var s2 := Apply(s1, Finish(0, Value(7)));
               Enabled(s2, Delete(0)) && s2.calls == map[k := 1] && Apply(s2, Delete(0)).calls == map[]
  {
  }
}
