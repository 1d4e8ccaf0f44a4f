/**
 MemCache.Take of cache/memcache.go over the SingleFlight machine: the two lookups, the
 fetch, the store and the publication of the result are separate steps, interleaved over any
 number of callers and keys. Nothing else writes, deletes, evicts or expires the keys.
 */
module TakeProtocol {
  import opened Options
  import SF = SingleFlight
  import opened SingleFlight

  datatype Phase<V> =
    | Hit(key: Key, v: V)          // returned by the first lookup
    | AtBarrier(key: Key)          // missed, about to enter the barrier
    | InFn                         // leads, before the double check
    | Fetching                     // missed again, fetch is running
    | Storing(v: V)                // fetch succeeded, Set not done yet
    | Stored(v: V)                 // Set done, result not recorded yet
    | InBarrier                    // waits, or its execution is over

  datatype TakeState<V> = TakeState(
    sf: SF.State<V>, cache: map<Key, V>, phase: map<Caller, Phase<V>>, fetched: map<Key, seq<V>>)

  function Start<V>(cache: map<Key, V>): TakeState<V> {
    TakeState(SF.Empty<V>(), cache, map[], map[])
  }

  /** The values of the successful fetches for a key so far. */
  function Fetches<V>(s: TakeState<V>, k: Key): seq<V> {
    if k in s.fetched then s.fetched[k] else []
  }

  datatype TakeStep<V> =
    | Lookup(c: Caller, key: Key)
    | Barrier(c: Caller)
    | Check(c: Caller)
    | FetchOk(c: Caller, v: V)
    | FetchFails(c: Caller, o: Outcome<V>)
    | Store(c: Caller)
    | Publish(c: Caller)
    | Flight(st: SF.Step<V>)

  predicate Leads<V>(s: TakeState<V>, c: Caller) {
    && c in s.phase && c in s.sf.pcs && s.sf.pcs[c].Leading? && s.sf.pcs[c].id < |s.sf.records|
    && c in s.sf.asked
  }

  predicate CanStep<V>(s: TakeState<V>, t: TakeStep<V>) {
    match t
    case Lookup(c, _) => c !in s.phase
    case Barrier(c) => c in s.phase && s.phase[c].AtBarrier? && c !in s.sf.pcs
    case Check(c) => Leads(s, c) && s.phase[c].InFn?
    case FetchOk(c, _) => Leads(s, c) && s.phase[c].Fetching?
    case FetchFails(c, o) => Leads(s, c) && s.phase[c].Fetching? && !o.Value?
    case Store(c) => Leads(s, c) && s.phase[c].Storing?
    case Publish(c) => Leads(s, c) && s.phase[c].Stored?
    case Flight(st) => !st.Enter? && !st.EnterCancelled? && !st.Finish? && SF.Enabled(s.sf, st)
  }

  /** fn returns (or panics): the barrier records its outcome. */
  function Conclude<V>(s: TakeState<V>, c: Caller, o: Outcome<V>): TakeState<V>
    requires Leads(s, c)
  {
    s.(sf := SF.Apply(s.sf, SF.Finish(c, o)), phase := s.phase[c := InBarrier])
  }

  function Next<V>(s: TakeState<V>, t: TakeStep<V>): TakeState<V>
    requires CanStep(s, t)
  {
    match t
    case Lookup(c, key) =>
      s.(phase := s.phase[c := if key in s.cache then Hit(key, s.cache[key]) else AtBarrier(key)])
    case Barrier(c) =>
      var sf' := SF.Apply(s.sf, SF.Enter(c, s.phase[c].key, false));
      s.(sf := sf', phase := s.phase[c := if sf'.pcs[c].Leading? then InFn else InBarrier])
    case Check(c) =>
      var key := s.sf.asked[c];
      if key in s.cache then Conclude(s, c, Value(s.cache[key])) else s.(phase := s.phase[c := Fetching])
    case FetchOk(c, v) =>
      var key := s.sf.asked[c];
      s.(phase := s.phase[c := Storing(v)], fetched := s.fetched[key := Fetches(s, key) + [v]])
    case FetchFails(c, o) => Conclude(s, c, o)
    case Store(c) =>
      s.(cache := s.cache[s.sf.asked[c] := s.phase[c].v], phase := s.phase[c := Stored(s.phase[c].v)])
    case Publish(c) => Conclude(s, c, Value(s.phase[c].v))
    case Flight(st) => s.(sf := SF.Apply(s.sf, st))
  }

  // ---------------------------------------------------------------- invariant

  /** Where a caller is, against the barrier and the cache. */
  ghost predicate PhaseOk<V>(s: TakeState<V>, c: Caller)
    requires c in s.phase
  {
    match s.phase[c]
    case Hit(key, v) => c !in s.sf.pcs && key in s.cache && s.cache[key] == v
    case AtBarrier(_) => c !in s.sf.pcs
    case InFn => Leads(s, c)
    case Fetching => Leads(s, c) && s.sf.asked[c] !in s.cache && Fetches(s, s.sf.asked[c]) == []
    case Storing(v) => Leads(s, c) && s.sf.asked[c] !in s.cache && Fetches(s, s.sf.asked[c]) == [v]
    case Stored(v) => Leads(s, c) && s.sf.asked[c] in s.cache && s.cache[s.sf.asked[c]] == v
    case InBarrier => c in s.sf.pcs && !s.sf.pcs[c].Leading?
  }

  /** What is known about one key: where its value came from. */
  ghost predicate KeyOk<V>(s: TakeState<V>, init: map<Key, V>, k: Key) {
    if k in init then k in s.cache && s.cache[k] == init[k] && Fetches(s, k) == []
    else if k in s.cache then Fetches(s, k) == [s.cache[k]]
    else if Fetches(s, k) == [] then true
    else
      && |Fetches(s, k)| == 1 && k in s.sf.calls && s.sf.calls[k] < |s.sf.records|
      && var l := s.sf.records[s.sf.calls[k]].leader;
         l in s.phase && s.phase[l] == Storing(Fetches(s, k)[0])
  }

  /** A recorded value is the cached one. */
  ghost predicate ResultOk<V>(s: TakeState<V>, id: CallId)
    requires id < |s.sf.records|
  {
    var r := s.sf.records[id];
    r.result.Some? && r.result.value.Value? ==> r.key in s.cache && s.cache[r.key] == r.result.value.v
  }

  ghost predicate TakeInv<V>(s: TakeState<V>, init: map<Key, V>) {
    && SF.Inv(s.sf)
    && (forall c :: c in s.phase ==> PhaseOk(s, c))
    && (forall c :: c in s.sf.pcs ==> c in s.phase)
    && (forall k :: KeyOk(s, init, k))
    && (forall id :: 0 <= id < |s.sf.records| ==> ResultOk(s, id))
  }

  /** Two callers inside fn work on different keys. */
  lemma {:induction false} OneLeader<V>(s: TakeState<V>, a: Caller, b: Caller)
    requires SF.Inv(s.sf) && Leads(s, a) && Leads(s, b) && a != b
    ensures s.sf.asked[a] != s.sf.asked[b]
  {
    SF.ExclusiveExecution(s.sf, a, b);
  }

  /** A caller inside fn is the registered leader of its key. */
  lemma {:induction false} LeaderRegistered<V>(s: TakeState<V>, c: Caller)
    requires SF.Inv(s.sf) && Leads(s, c)
    ensures var k := s.sf.asked[c];
            && k in s.sf.calls && s.sf.calls[k] == s.sf.pcs[c].id < |s.sf.records|
            && s.sf.records[s.sf.pcs[c].id].leader == c && s.sf.records[s.sf.pcs[c].id].key == k
  {
    assert SF.CallerOk(s.sf, c);
  }

  lemma {:induction false} LookupKeeps<V>(s: TakeState<V>, init: map<Key, V>, c: Caller, key: Key)
    requires TakeInv(s, init) && CanStep(s, Lookup(c, key))
    ensures TakeInv(Next(s, Lookup(c, key)), init)
  {
    var s' := Next(s, Lookup(c, key));
    forall x | x in s'.phase ensures PhaseOk(s', x) {
      if x != c { assert PhaseOk(s, x); }
    }
    forall k ensures KeyOk(s', init, k) {
      assert KeyOk(s, init, k);
    }
    forall id | 0 <= id < |s'.sf.records| ensures ResultOk(s', id) {
      assert ResultOk(s, id);
    }
  }

  lemma {:induction false} BarrierKeeps<V>(s: TakeState<V>, init: map<Key, V>, c: Caller)
    requires TakeInv(s, init) && CanStep(s, Barrier(c))
    ensures TakeInv(Next(s, Barrier(c)), init)
  {
    var s' := Next(s, Barrier(c));
    SF.StepKeepsInv(s.sf, SF.Enter(c, s.phase[c].key, false));
    forall x | x in s'.phase ensures PhaseOk(s', x) {
      BarrierPhase(s, init, c, x);
    }
    forall k ensures KeyOk(s', init, k) {
      BarrierKey(s, init, c, k);
    }
    forall id | 0 <= id < |s'.sf.records| ensures ResultOk(s', id) {
      BarrierResult(s, init, c, id);
    }
  }

  lemma {:induction false} BarrierPhase<V>(s: TakeState<V>, init: map<Key, V>, c: Caller, x: Caller)
    requires TakeInv(s, init) && CanStep(s, Barrier(c)) && x in s.phase
    ensures PhaseOk(Next(s, Barrier(c)), x)
  {
    assert PhaseOk(s, x);
  }

  lemma {:induction false} BarrierKey<V>(s: TakeState<V>, init: map<Key, V>, c: Caller, k: Key)
    requires TakeInv(s, init) && CanStep(s, Barrier(c))
    ensures KeyOk(Next(s, Barrier(c)), init, k)
  {
    assert KeyOk(s, init, k);
  }

  lemma {:induction false} BarrierResult<V>(s: TakeState<V>, init: map<Key, V>, c: Caller, id: CallId)
    requires TakeInv(s, init) && CanStep(s, Barrier(c)) && id < |Next(s, Barrier(c)).sf.records|
    ensures ResultOk(Next(s, Barrier(c)), id)
  {
    if id < |s.sf.records| {
      assert ResultOk(s, id);
    }
  }

  lemma {:induction false} FetchOkKeeps<V>(s: TakeState<V>, init: map<Key, V>, c: Caller, v: V)
    requires TakeInv(s, init) && CanStep(s, FetchOk(c, v))
    ensures TakeInv(Next(s, FetchOk(c, v)), init)
  {
    var s' := Next(s, FetchOk(c, v));
    assert PhaseOk(s, c);
    LeaderRegistered(s, c);
    forall x | x in s'.phase ensures PhaseOk(s', x) {
      assert PhaseOk(s, x);
      if x != c && Leads(s, x) { OneLeader(s, x, c); }
    }
    forall k ensures KeyOk(s', init, k) {
      assert KeyOk(s, init, k);
    }
    forall id | 0 <= id < |s'.sf.records| ensures ResultOk(s', id) {
      assert ResultOk(s, id);
    }
  }

  lemma {:induction false} StoreKeeps<V>(s: TakeState<V>, init: map<Key, V>, c: Caller)
    requires TakeInv(s, init) && CanStep(s, Store(c))
    ensures TakeInv(Next(s, Store(c)), init)
  {
    var s' := Next(s, Store(c));
    assert PhaseOk(s, c);
    LeaderRegistered(s, c);
    forall x | x in s'.phase ensures PhaseOk(s', x) {
      assert PhaseOk(s, x);
      if x != c && Leads(s, x) { OneLeader(s, x, c); }
    }
    forall k ensures KeyOk(s', init, k) {
      assert KeyOk(s, init, k);
    }
    forall id | 0 <= id < |s'.sf.records| ensures ResultOk(s', id) {
      assert ResultOk(s, id);
    }
  }

  /** The end of fn, when its outcome agrees with the cache. */
  lemma {:induction false} ConcludeKeeps<V>(s: TakeState<V>, init: map<Key, V>, c: Caller, o: Outcome<V>)
    requires TakeInv(s, init) && Leads(s, c) && !s.phase[c].Storing?
    requires o.Value? ==> s.sf.asked[c] in s.cache && s.cache[s.sf.asked[c]] == o.v
    ensures TakeInv(Conclude(s, c, o), init)
  {
    var s' := Conclude(s, c, o);
    SF.StepKeepsInv(s.sf, SF.Finish(c, o));
    forall x | x in s'.phase ensures PhaseOk(s', x) {
      ConcludePhase(s, init, c, o, x);
    }
    forall k ensures KeyOk(s', init, k) {
      ConcludeKey(s, init, c, o, k);
    }
    forall id | 0 <= id < |s'.sf.records| ensures ResultOk(s', id) {
      ConcludeResult(s, init, c, o, id);
    }
  }

  lemma {:induction false} ConcludePhase<V>(s: TakeState<V>, init: map<Key, V>, c: Caller, o: Outcome<V>, x: Caller)
    requires TakeInv(s, init) && Leads(s, c) && x in s.phase
    ensures PhaseOk(Conclude(s, c, o), x)
  {
    assert PhaseOk(s, x);
  }

  lemma {:induction false} ConcludeResult<V>(s: TakeState<V>, init: map<Key, V>, c: Caller, o: Outcome<V>, id: CallId)
    requires TakeInv(s, init) && Leads(s, c) && id < |s.sf.records|
    requires o.Value? ==> s.sf.asked[c] in s.cache && s.cache[s.sf.asked[c]] == o.v
    ensures ResultOk(Conclude(s, c, o), id)
  {
    LeaderRegistered(s, c);
    assert ResultOk(s, id);
  }

  lemma {:induction false} ConcludeKey<V>(s: TakeState<V>, init: map<Key, V>, c: Caller, o: Outcome<V>, k: Key)
    requires TakeInv(s, init) && Leads(s, c) && !s.phase[c].Storing?
    ensures KeyOk(Conclude(s, c, o), init, k)
  {
    assert KeyOk(s, init, k);
  }

  lemma {:induction false} CheckKeeps<V>(s: TakeState<V>, init: map<Key, V>, c: Caller)
    requires TakeInv(s, init) && CanStep(s, Check(c))
    ensures TakeInv(Next(s, Check(c)), init)
  {
    var key := s.sf.asked[c];
    if key in s.cache {
      ConcludeKeeps(s, init, c, Value(s.cache[key]));
    } else {
      var s' := Next(s, Check(c));
      LeaderRegistered(s, c);
      assert KeyOk(s, init, key);
      forall x | x in s'.phase ensures PhaseOk(s', x) {
        assert PhaseOk(s, x);
      }
      forall k ensures KeyOk(s', init, k) {
        assert KeyOk(s, init, k);
      }
      forall id | 0 <= id < |s'.sf.records| ensures ResultOk(s', id) {
        assert ResultOk(s, id);
      }
    }
  }

  lemma {:induction false} FlightKeeps<V>(s: TakeState<V>, init: map<Key, V>, st: SF.Step<V>)
    requires TakeInv(s, init) && CanStep(s, Flight(st))
    ensures TakeInv(Next(s, Flight(st)), init)
  {
    var s' := Next(s, Flight(st));
    SF.StepKeepsInv(s.sf, st);
    forall x | x in s'.phase ensures PhaseOk(s', x) {
      FlightPhase(s, init, st, x);
    }
    forall k ensures KeyOk(s', init, k) {
      FlightKeepsKey(s, init, st, k);
    }
    forall id | 0 <= id < |s'.sf.records| ensures ResultOk(s', id) {
      assert ResultOk(s, id);
    }
  }

  lemma {:induction false} FlightPhase<V>(s: TakeState<V>, init: map<Key, V>, st: SF.Step<V>, x: Caller)
    requires TakeInv(s, init) && CanStep(s, Flight(st)) && x in s.phase
    ensures PhaseOk(Next(s, Flight(st)), x)
  {
    assert PhaseOk(s, x);
  }

  /** A delete never removes the record of a leader that is still storing. */
  lemma {:induction false} FlightKeepsKey<V>(s: TakeState<V>, init: map<Key, V>, st: SF.Step<V>, k: Key)
    requires TakeInv(s, init) && CanStep(s, Flight(st))
    ensures KeyOk(Next(s, Flight(st)), init, k)
  {
    assert KeyOk(s, init, k);
    if st.Delete? {
      assert SF.CallerOk(s.sf, st.c);
      assert PhaseOk(s, st.c);
    }
  }

  lemma {:induction false} StepKeeps<V>(s: TakeState<V>, init: map<Key, V>, t: TakeStep<V>)
    requires TakeInv(s, init) && CanStep(s, t)
    ensures TakeInv(Next(s, t), init)
  {
    match t
    case Lookup(c, key) => LookupKeeps(s, init, c, key);
    case Barrier(c) => BarrierKeeps(s, init, c);
    case Check(c) => CheckKeeps(s, init, c);
    case FetchOk(c, v) => FetchOkKeeps(s, init, c, v);
    case FetchFails(c, o) => ConcludeKeeps(s, init, c, o);
    case Store(c) => StoreKeeps(s, init, c);
    case Publish(c) => assert PhaseOk(s, c); ConcludeKeeps(s, init, c, Value(s.phase[c].v));
    case Flight(st) => FlightKeeps(s, init, st);
  }

  // ---------------------------------------------------------------- whole runs

  ghost predicate IsTakeRun<V>(init: map<Key, V>, states: seq<TakeState<V>>, steps: seq<TakeStep<V>>) {
    && |states| == |steps| + 1 && states[0] == Start(init)
    && forall i {:trigger steps[i]} :: 0 <= i < |steps| ==>
         CanStep(states[i], steps[i]) && states[i + 1] == Next(states[i], steps[i])
  }

  lemma {:induction false} TakeRunKeeps<V>(init: map<Key, V>, states: seq<TakeState<V>>, steps: seq<TakeStep<V>>, n: nat)
    requires IsTakeRun(init, states, steps) && n < |states|
    ensures TakeInv(states[n], init)
  {
    if n > 0 {
      TakeRunKeeps(init, states, steps, n - 1);
      assert CanStep(states[n - 1], steps[n - 1]) && states[n] == Next(states[n - 1], steps[n - 1]);
      StepKeeps(states[n - 1], init, steps[n - 1]);
    }
  }

  /** The key and value of a Take call that has returned successfully. */
  ghost predicate Took<V>(s: TakeState<V>, c: Caller, k: Key, v: V) {
    || (c in s.phase && s.phase[c] == Hit(k, v))
    || (c in s.sf.pcs && s.sf.pcs[c] == Returned(Value(v)) && c in s.sf.asked && s.sf.asked[c] == k)
  }

  /**
   In every interleaving at most one fetch per key succeeds, none if the key was cached
   from the start, and every successful Take returns that one value, however many
   fetches failed or panicked before.
   */
  lemma {:induction false} TakeAgreement<V>(init: map<Key, V>, states: seq<TakeState<V>>, steps: seq<TakeStep<V>>,
                                            n: nat, c: Caller, k: Key, v: V)
    requires IsTakeRun(init, states, steps) && n < |states|
    ensures |Fetches(states[n], k)| <= (if k in init then 0 else 1)
    ensures Took(states[n], c, k, v) ==> if k in init then v == init[k] else Fetches(states[n], k) == [v]
  {
    TakeRunKeeps(init, states, steps, n);
    var s := states[n];
    assert KeyOk(s, init, k);
    if Took(s, c, k, v) {
      if c in s.phase && s.phase[c] == Hit(k, v) {
        assert PhaseOk(s, c);
      } else {
        assert SF.CallerOk(s.sf, c);
        assert ResultOk(s, s.sf.joined[c]);
      }
    }
  }

  // ---------------------------------------------------------------- what a fetch delivers is returned

  /** On the barrier, a step of Take is one step of SingleFlight or none. */
  lemma {:induction false} FlightExtends<V>(s: TakeState<V>, init: map<Key, V>, t: TakeStep<V>)
    requires TakeInv(s, init) && CanStep(s, t)
    ensures SF.Extends(s.sf, Next(s, t).sf)
  {
    match t
    case Barrier(c) => SF.StepExtends(s.sf, SF.Enter(c, s.phase[c].key, false));
    case Check(c) =>
      if s.sf.asked[c] in s.cache {
        SF.StepExtends(s.sf, SF.Finish(c, Value(s.cache[s.sf.asked[c]])));
      }
    case FetchFails(c, o) => SF.StepExtends(s.sf, SF.Finish(c, o));
    case Publish(c) => SF.StepExtends(s.sf, SF.Finish(c, Value(s.phase[c].v)));
    case Flight(st) => SF.StepExtends(s.sf, st);
    case _ =>
  }

  /** The leader of execution id holds the fetched value, or it is the recorded result. */
  ghost predicate InHand<V>(s: TakeState<V>, l: Caller, id: CallId, v: V) {
    && id < |s.sf.records| && s.sf.records[id].leader == l
    && (|| s.sf.records[id].result == Some(Value(v))
        || (&& l in s.sf.pcs && s.sf.pcs[l] == Leading(id)
            && l in s.phase && (s.phase[l] == Storing(v) || s.phase[l] == Stored(v))))
  }

  /** The step of the caller's own fn. */
  predicate OwnStep<V>(t: TakeStep<V>, l: Caller) {
    (t.Check? || t.FetchOk? || t.FetchFails? || t.Store? || t.Publish?) && t.c == l
  }

  /** Nobody else moves a caller that runs fn. */
  lemma {:induction false} OthersLeave<V>(s: TakeState<V>, t: TakeStep<V>, l: Caller)
    requires CanStep(s, t) && l in s.phase && l in s.sf.pcs && s.sf.pcs[l].Leading? && !OwnStep(t, l)
    requires !s.phase[l].AtBarrier?
    ensures l in Next(s, t).phase && Next(s, t).phase[l] == s.phase[l]
    ensures l in Next(s, t).sf.pcs && Next(s, t).sf.pcs[l] == s.sf.pcs[l]
  {
  }

  lemma {:induction false} OwnMove<V>(s: TakeState<V>, t: TakeStep<V>, l: Caller, id: CallId, v: V)
    requires CanStep(s, t) && OwnStep(t, l) && InHand(s, l, id, v) && s.sf.pcs[l] == Leading(id)
    requires s.phase[l] == Storing(v) || s.phase[l] == Stored(v)
    ensures InHand(Next(s, t), l, id, v)
  {
  }

  lemma {:induction false} StaysInHand<V>(s: TakeState<V>, init: map<Key, V>, t: TakeStep<V>, l: Caller, id: CallId, v: V)
    requires TakeInv(s, init) && CanStep(s, t) && InHand(s, l, id, v)
    ensures InHand(Next(s, t), l, id, v)
  {
    FlightExtends(s, init, t);
    if !Settled(s, id, Value(v)) {
      if OwnStep(t, l) {
        OwnMove(s, t, l, id, v);
      } else {
        OthersLeave(s, t, l);
      }
    }
  }

  /** The outcome of execution id is settled as o. */
  ghost predicate Settled<V>(s: TakeState<V>, id: CallId, o: Outcome<V>) {
    id < |s.sf.records| && s.sf.records[id].result == Some(o)
  }

  lemma {:induction false} RunInHand<V>(init: map<Key, V>, states: seq<TakeState<V>>, steps: seq<TakeStep<V>>,
                                        k: nat, j: nat, l: Caller, id: CallId, v: V)
    requires IsTakeRun(init, states, steps) && k <= j < |states| && InHand(states[k], l, id, v)
    ensures InHand(states[j], l, id, v)
    decreases j - k
  {
    if k < j {
      RunInHand(init, states, steps, k, j - 1, l, id, v);
      TakeRunKeeps(init, states, steps, j - 1);
      assert CanStep(states[j - 1], steps[j - 1]) && states[j] == Next(states[j - 1], steps[j - 1]);
      StaysInHand(states[j - 1], init, steps[j - 1], l, id, v);
    }
  }

  lemma {:induction false} RunSettled<V>(init: map<Key, V>, states: seq<TakeState<V>>, steps: seq<TakeStep<V>>,
                                         k: nat, j: nat, id: CallId, o: Outcome<V>)
    requires IsTakeRun(init, states, steps) && k <= j < |states| && Settled(states[k], id, o)
    ensures Settled(states[j], id, o)
    decreases j - k
  {
    if k < j {
      RunSettled(init, states, steps, k, j - 1, id, o);
      TakeRunKeeps(init, states, steps, j - 1);
      assert CanStep(states[j - 1], steps[j - 1]) && states[j] == Next(states[j - 1], steps[j - 1]);
      FlightExtends(states[j - 1], init, steps[j - 1]);
    }
  }

  /** What the fetch of this step delivers, if it is the end of a fetch. */
  function Fetched<V>(t: TakeStep<V>): Option<Outcome<V>> {
    match t
    case FetchOk(_, v) => Some(Value(v))
    case FetchFails(_, o) => Some(o)
    case _ => None
  }

  lemma {:induction false} AfterFetch<V>(s: TakeState<V>, init: map<Key, V>, t: TakeStep<V>)
    requires TakeInv(s, init) && CanStep(s, t) && (t.FetchOk? || t.FetchFails?)
    ensures var id := s.sf.pcs[t.c].id;
            if t.FetchOk? then InHand(Next(s, t), t.c, id, t.v) else Settled(Next(s, t), id, t.o)
  {
    LeaderRegistered(s, t.c);
  }

  /**
   Over every run, whatever a fetch delivers, a value, an error or a panic, is what the Take
   that ran it returns, and every Take that joined its execution.
   */
  lemma {:induction false} FetchIsReturned<V>(init: map<Key, V>, states: seq<TakeState<V>>, steps: seq<TakeStep<V>>,
                                              k: nat, j: nat, c: Caller)
    requires IsTakeRun(init, states, steps) && k < |steps| && k < j < |states| && Fetched(steps[k]).Some?
    requires c in states[j].sf.pcs && states[j].sf.pcs[c].Returned? && c in states[j].sf.joined
    requires steps[k].c in states[k].sf.pcs && states[k].sf.pcs[steps[k].c].Leading?
    requires states[j].sf.joined[c] == states[k].sf.pcs[steps[k].c].id
    ensures states[j].sf.pcs[c].outcome == Fetched(steps[k]).value
  {
    var t, id := steps[k], states[k].sf.pcs[steps[k].c].id;
    assert CanStep(states[k], t) && states[k + 1] == Next(states[k], t);
    TakeRunKeeps(init, states, steps, k);
    AfterFetch(states[k], init, t);
    TakeRunKeeps(init, states, steps, j);
    assert SF.CallerOk(states[j].sf, c);
    if t.FetchOk? {
      RunInHand(init, states, steps, k + 1, j, t.c, id, t.v);
      HandReturned(states[j], c, t.c, id, t.v);
    } else {
      RunSettled(init, states, steps, k + 1, j, id, t.o);
    }
  }

  /** Once a caller of an execution has returned, its leader no longer runs fn. */
  lemma {:induction false} HandReturned<V>(s: TakeState<V>, c: Caller, l: Caller, id: CallId, v: V)
    requires SF.Inv(s.sf) && InHand(s, l, id, v) && c in s.sf.pcs && s.sf.pcs[c].Returned?
    requires c in s.sf.joined && s.sf.joined[c] == id
    ensures s.sf.pcs[c].outcome == Value(v)
  {
    assert SF.CallerOk(s.sf, c);
    if l in s.sf.pcs {
      assert SF.CallerOk(s.sf, l);
    }
  }

  // ---------------------------------------------------------------- progress

  /** How many steps of its own execution a Take still waits for, at most. */
  function ToGo<V>(s: TakeState<V>, c: Caller): nat {
    if c !in s.phase then 0
    else
      match s.phase[c]
      case Hit(_, _) => 0
      case AtBarrier(_) => 8
      case InBarrier =>
        if c in s.sf.pcs && s.sf.pcs[c].Waiting? && s.sf.pcs[c].id < |s.sf.records|
           && s.sf.records[s.sf.pcs[c].id].result.None?
        then LeaderToGo(s, s.sf.records[s.sf.pcs[c].id].leader)
        else SF.Remaining(s.sf, c)
      case _ => LeaderToGo(s, c)
  }

  function LeaderToGo<V>(s: TakeState<V>, l: Caller): nat {
    if l !in s.phase then 4
    else
      match s.phase[l]
      case InFn => 7
      case Fetching => 6
      case Storing(_) => 5
      case _ => 4
  }

  /** The next step of a caller that runs fn, if its fetch delivers v. */
  function LeaderStep<V>(s: TakeState<V>, l: Caller, v: V): TakeStep<V>
    requires l in s.phase
  {
    match s.phase[l]
    case InFn => Check(l)
    case Fetching => FetchOk(l, v)
    case Storing(_) => Store(l)
    case _ => Publish(l)
  }

  /** What is known of a caller that runs fn. */
  ghost predicate InFnOk<V>(s: TakeState<V>, l: Caller) {
    && l in s.sf.pcs && s.sf.pcs[l].Leading? && SF.CallerOk(s.sf, l)
    && l in s.phase && PhaseOk(s, l)
  }

  lemma {:induction false} LeaderMoves<V>(s: TakeState<V>, l: Caller, v: V)
    requires InFnOk(s, l)
    ensures Leads(s, l) && CanStep(s, LeaderStep(s, l, v))
    ensures var s' := Next(s, LeaderStep(s, l, v));
            if s'.phase[l].InBarrier? then s'.sf.records[s.sf.pcs[l].id].result.Some? && s'.sf.pcs[l].Finished?
            else s'.sf == s.sf && LeaderToGo(s', l) < LeaderToGo(s, l)
  {
  }

  /**
   No Take is ever stuck: while one has not returned, a step of it, of the leader it waits for
   or of the barrier is enabled and brings it closer to its return.
   */
  lemma {:induction false} TakeNeverStuck<V>(s: TakeState<V>, init: map<Key, V>, c: Caller, v: V) returns (t: TakeStep<V>)
    requires TakeInv(s, init) && c in s.phase && !s.phase[c].Hit?
    requires c in s.sf.pcs ==> !s.sf.pcs[c].Returned? && !s.sf.pcs[c].Cancelled?
    ensures CanStep(s, t) && ToGo(Next(s, t), c) < ToGo(s, c)
  {
    assert PhaseOk(s, c);
    if s.phase[c].AtBarrier? {
      t := Barrier(c);
      BarrierMoves(s, c);
    } else {
      assert SF.CallerOk(s.sf, c);
      var id := s.sf.pcs[c].id;
      if s.sf.pcs[c].Leading? {
        OwnMoves(s, c, v);
        t := LeaderStep(s, c, v);
      } else if s.sf.pcs[c].Waiting? && s.sf.records[id].result.None? {
        var l := s.sf.records[id].leader;
        LeaderKnown(s, init, id);
        WaiterMoves(s, c, l, v);
        t := LeaderStep(s, l, v);
      } else {
        t := FlightMoves(s, c);
      }
    }
  }

  lemma {:induction false} OwnMoves<V>(s: TakeState<V>, c: Caller, v: V)
    requires InFnOk(s, c)
    ensures CanStep(s, LeaderStep(s, c, v)) && ToGo(Next(s, LeaderStep(s, c, v)), c) < ToGo(s, c)
  {
    LeaderMoves(s, c, v);
  }

  lemma {:induction false} LeaderKnown<V>(s: TakeState<V>, init: map<Key, V>, id: CallId)
    requires TakeInv(s, init) && id < |s.sf.records| && s.sf.records[id].result.None?
    ensures InFnOk(s, s.sf.records[id].leader) && s.sf.pcs[s.sf.records[id].leader].id == id
  {
    assert SF.RecordOk(s.sf, id);
    assert SF.CallerOk(s.sf, s.sf.records[id].leader);
    assert PhaseOk(s, s.sf.records[id].leader);
  }

  lemma {:induction false} WaiterMoves<V>(s: TakeState<V>, c: Caller, l: Caller, v: V)
    requires InFnOk(s, l) && c in s.phase && s.phase[c].InBarrier? && c in s.sf.pcs && s.sf.pcs[c].Waiting?
    requires var id := s.sf.pcs[c].id;
             id < |s.sf.records| && s.sf.records[id].result.None? && s.sf.records[id].leader == l && s.sf.pcs[l].id == id
    ensures CanStep(s, LeaderStep(s, l, v)) && ToGo(Next(s, LeaderStep(s, l, v)), c) < ToGo(s, c)
  {
    LeaderMoves(s, l, v);
    OwnStepKeepsWaiter(s, LeaderStep(s, l, v), l, c);
    WaiterCloser(s, Next(s, LeaderStep(s, l, v)), c, l);
  }

  lemma {:induction false} WaiterCloser<V>(s: TakeState<V>, s': TakeState<V>, c: Caller, l: Caller)
    requires c in s.phase && s.phase[c].InBarrier? && c in s.sf.pcs && s.sf.pcs[c].Waiting?
    requires var id := s.sf.pcs[c].id;
             && id < |s.sf.records| == |s'.sf.records| && s.sf.records[id].result.None?
             && s.sf.records[id].leader == s'.sf.records[id].leader == l
             && (s'.sf.records[id].result.Some? || LeaderToGo(s', l) < LeaderToGo(s, l))
    requires c in s'.phase && s'.phase[c] == s.phase[c] && c in s'.sf.pcs && s'.sf.pcs[c] == s.sf.pcs[c]
    ensures ToGo(s', c) < ToGo(s, c)
  {
  }

  /** A leader's step in fn leaves a waiting caller where it is. */
  lemma {:induction false} OwnStepKeepsWaiter<V>(s: TakeState<V>, t: TakeStep<V>, l: Caller, c: Caller)
    requires CanStep(s, t) && OwnStep(t, l) && c in s.phase && c in s.sf.pcs && s.sf.pcs[c].Waiting?
    ensures var s' := Next(s, t);
            && c in s'.phase && s'.phase[c] == s.phase[c] && c in s'.sf.pcs && s'.sf.pcs[c] == s.sf.pcs[c]
            && |s'.sf.records| == |s.sf.records|
            && forall i :: 0 <= i < |s.sf.records| ==> s'.sf.records[i].leader == s.sf.records[i].leader
  {
  }

  lemma {:induction false} FlightMoves<V>(s: TakeState<V>, c: Caller) returns (t: TakeStep<V>)
    requires c in s.phase && s.phase[c].InBarrier? && c in s.sf.pcs && SF.CallerOk(s.sf, c)
    requires s.sf.pcs[c].Finished? || s.sf.pcs[c].Deleted? || s.sf.pcs[c].Waiting?
    requires s.sf.pcs[c].id < |s.sf.records|
    requires s.sf.records[s.sf.pcs[c].id].result.Some?
    ensures CanStep(s, t) && ToGo(Next(s, t), c) < ToGo(s, c)
  {
    var id := s.sf.pcs[c].id;
    t := match s.sf.pcs[c]
         case Finished(_) => Flight(SF.Delete(c))
         case Deleted(_) => Flight(SF.ReturnLeader(c))
         case Waiting(_, ctx) =>
           if ctx && s.sf.records[id].done.Open? then Flight(SF.CloseDone(id)) else Flight(SF.Wake(c));
  }

  lemma {:induction false} BarrierMoves<V>(s: TakeState<V>, c: Caller)
    requires CanStep(s, Barrier(c))
    ensures ToGo(Next(s, Barrier(c)), c) <= 7
  {
  }
}
