/**
 The Redis lock of redisx/lock.go: SET NX, the unlock script and the renew script as atomic
 steps of any number of clients, with expiry. A token stands for one Lock object. Times are
 integer nanoseconds; Redis keeps whole milliseconds.
 */
module RedisLock {

  const MILLISECOND := 1_000_000
  const MIN_LOCK_TTL := MILLISECOND

  type Token = nat

  datatype Stored = Absent | Held(token: Token, deadline: int)

  /** ttls are those of the Lock objects handed out; leases and released are history. */
  datatype State = State(
    now: int, store: Stored, used: set<Token>,
    ttls: map<Token, int>, leases: map<Token, int>, released: set<Token>)

  function Start(now: int): State {
    State(now, Absent, {}, map[], map[], {})
  }

  predicate ValidTtl(ttl: int) {
    ttl >= MIN_LOCK_TTL
  }

  /** The whole milliseconds of a duration, as PX and ttl.Milliseconds() see it. */
  function Whole(ttl: int): int {
    ttl / MILLISECOND * MILLISECOND
  }

  /** The token of the unexpired key. */
  predicate Owns(s: State, t: Token) {
    s.store.Held? && s.store.token == t && s.now < s.store.deadline
  }

  predicate Free(s: State) {
    s.store.Absent? || s.now >= s.store.deadline
  }

  datatype Step =
    | Tick(d: int)                     // time passes
    | TryLock(token: Token, ttl: int)  // with a freshly generated token
    | Unlock(token: Token)
    | Renew(token: Token)

  predicate Enabled(s: State, st: Step) {
    match st
    case Tick(d) => d >= 0
    case TryLock(t, _) => t !in s.used
    case Unlock(t) => t in s.ttls
    case Renew(t) => t in s.ttls
  }

  /** TryLock returns a Lock; Unlock finds its token; the renew script returns non-zero. */
  predicate Succeeds(s: State, st: Step) {
    match st
    case Tick(_) => true
    case TryLock(t, ttl) => ValidTtl(ttl) && Free(s)
    case Unlock(t) => Owns(s, t)
    case Renew(t) => Owns(s, t)
  }

  function Apply(s: State, st: Step): State
    requires Enabled(s, st)
  {
    match st
    case Tick(d) => s.(now := s.now + d)
    case TryLock(t, ttl) =>
      var s' := s.(used := s.used + {t});
      if Succeeds(s, st) then
        s'.(store := Held(t, s.now + Whole(ttl)), ttls := s.ttls[t := ttl],
            leases := s.leases[t := s.now + Whole(ttl)])
      else s'
    case Unlock(t) =>
      if Owns(s, t) then s.(store := Absent, released := s.released + {t}) else s
    case Renew(t) =>
      if Owns(s, t) then
        s.(store := Held(t, s.now + Whole(s.ttls[t])), leases := s.leases[t := s.now + Whole(s.ttls[t])])
      else s
  }

  // ---------------------------------------------------------------- safety

  /** Lease t was granted, not released, and its time is not over. */
  ghost predicate Live(s: State, t: Token) {
    t in s.leases && t !in s.released && s.now < s.leases[t]
  }

  /** A live lease is the stored key, and the stored key belongs to a granted lease. */
  ghost predicate Inv(s: State) {
    && (forall t :: Live(s, t) ==> s.store == Held(t, s.leases[t]))
    && (s.store.Held? ==> var t := s.store.token;
                          t in s.leases && t !in s.released && s.leases[t] == s.store.deadline)
    && s.leases.Keys == s.ttls.Keys <= s.used && s.released <= s.used
  }

  lemma {:induction false} StepKeepsInv(s: State, st: Step)
    requires Inv(s) && Enabled(s, st)
    ensures Inv(Apply(s, st))
  {
    var s' := Apply(s, st);
    forall t | Live(s', t) ensures s'.store == Held(t, s'.leases[t]) {
      assert !Live(s, t) || s.store == Held(t, s.leases[t]);
    }
  }

  ghost predicate IsRun(states: seq<State>, steps: seq<Step>) {
    && |states| == |steps| + 1 && states[0] == Start(states[0].now)
    && forall i {:trigger steps[i]} :: 0 <= i < |steps| ==>
         Enabled(states[i], steps[i]) && states[i + 1] == Apply(states[i], steps[i])
  }

  lemma {:induction false} RunKeepsInv(states: seq<State>, steps: seq<Step>, n: nat)
    requires IsRun(states, steps) && n < |states|
    ensures Inv(states[n])
  {
    if n > 0 {
      RunKeepsInv(states, steps, n - 1);
      assert Enabled(states[n - 1], steps[n - 1]) && states[n] == Apply(states[n - 1], steps[n - 1]);
      StepKeepsInv(states[n - 1], steps[n - 1]);
    }
  }

  /** Over every interleaving, no two leases are live at once, and a live lease owns the key. */
  lemma {:induction false} MutualExclusion(states: seq<State>, steps: seq<Step>, n: nat, t: Token, u: Token)
    requires IsRun(states, steps) && n < |states|
    requires Live(states[n], t) && Live(states[n], u)
    ensures t == u && Owns(states[n], t)
  {
    RunKeepsInv(states, steps, n);
  }

  /** A foreign Unlock or renewal changes nothing; another client acquires only a free key. */
  lemma {:induction false} ForeignStepsHarmless(s: State, st: Step, t: Token)
    requires Inv(s) && Enabled(s, st) && Owns(s, t)
    requires (st.Unlock? || st.Renew? || st.TryLock?) && st.token != t
    ensures !Succeeds(s, st) && Apply(s, st).store == s.store && Owns(Apply(s, st), t)
  {
  }

  /**
   A lease granted or renewed at step i lasts: until its time is over or its own Unlock
   runs, the token keeps owning the key, whatever the other clients do.
   */
  lemma {:induction false} LeaseHolds(states: seq<State>, steps: seq<Step>, i: nat, j: nat, t: Token, deadline: int)
    requires IsRun(states, steps) && i <= j < |states|
    requires states[i].store.Held? && states[i].store.token == t && states[i].store.deadline >= deadline
    requires t in states[i].ttls && states[i].now + Whole(states[i].ttls[t]) >= deadline
    requires states[j].now < deadline
    requires forall k :: i <= k < j ==> steps[k] != Unlock(t)
    ensures Owns(states[j], t) && states[j].store.deadline >= deadline
    ensures t in states[j].ttls && states[j].now + Whole(states[j].ttls[t]) >= deadline
    decreases j - i
  {
    if i < j {
      assert Enabled(states[j - 1], steps[j - 1]) && states[j] == Apply(states[j - 1], steps[j - 1]);
      LeaseHolds(states, steps, i, j - 1, t, deadline);
      RunKeepsInv(states, steps, j - 1);
    }
  }

  // ---------------------------------------------------------------- what the operations achieve

  ghost predicate NoneLive(s: State) {
    forall t :: !Live(s, t)
  }

  ghost predicate NoOwner(s: State) {
    forall t :: !Owns(s, t)
  }

  /** Somebody owns the key exactly when a lease is live. */
  lemma {:induction false} OwnedIffLive(s: State, t: Token)
    requires Inv(s)
    ensures Owns(s, t) <==> Live(s, t)
  {
  }

  /** Over every run, the Unlock of an owner frees the key: no lease is live afterwards, its own included. */
  lemma {:induction false} UnlockFrees(states: seq<State>, steps: seq<Step>, i: nat, t: Token)
    requires IsRun(states, steps) && i < |steps| && steps[i] == Unlock(t) && Owns(states[i], t)
    ensures NoneLive(states[i + 1]) && NoOwner(states[i + 1])
  {
    RunKeepsInv(states, steps, i);
    RunKeepsInv(states, steps, i + 1);
    assert Enabled(states[i], steps[i]) && states[i + 1] == Apply(states[i], steps[i]);
    NoneLiveIff(states[i + 1]);
  }

  /** The lock right after it was acquired at s.now. */
  ghost predicate Acquired(s: State, t: Token, ttl: int) {
    ValidTtl(ttl) && t in s.ttls && s.ttls[t] == ttl && s.store == Held(t, s.now + Whole(ttl))
  }

  /**
   Over every run, a TryLock acquires the lock, for the whole milliseconds of its ttl, if and
   only if the ttl is valid and no lease is live; otherwise the key stays as it is.
   */
  lemma {:induction false} TryLockIff(states: seq<State>, steps: seq<Step>, i: nat, t: Token, ttl: int)
    requires IsRun(states, steps) && i < |steps| && steps[i] == TryLock(t, ttl)
    ensures Owns(states[i + 1], t) <==> ValidTtl(ttl) && NoneLive(states[i])
    ensures Owns(states[i + 1], t) ==>
              states[i + 1].store.deadline == states[i].now + Whole(ttl) && Acquired(states[i + 1], t, ttl)
    ensures !Owns(states[i + 1], t) ==> states[i + 1].store == states[i].store
  {
    RunKeepsInv(states, steps, i);
    RunKeepsInv(states, steps, i + 1);
    assert Enabled(states[i], steps[i]) && states[i + 1] == Apply(states[i], steps[i]);
    NoneLiveIff(states[i]);
    FreshDoesNotOwn(states[i], t);
    if ValidTtl(ttl) {
      WholePositive(ttl);
    }
  }

  lemma {:induction false} NoneLiveIff(s: State)
    requires Inv(s)
    ensures NoneLive(s) <==> s.store.Absent? || s.now >= s.store.deadline
  {
    if s.store.Held? && s.now < s.store.deadline {
      assert Live(s, s.store.token);
    }
  }

  lemma {:induction false} FreshDoesNotOwn(s: State, t: Token)
    requires Inv(s) && t !in s.used
    ensures !Owns(s, t)
  {
  }

  lemma {:induction false} WholePositive(ttl: int)
    requires ValidTtl(ttl)
    ensures 0 < Whole(ttl) <= ttl < Whole(ttl) + MILLISECOND
  {
  }

  /** Over every run, a renewal by the owner sets the deadline anew; one by anybody else changes nothing. */
  lemma {:induction false} RenewExtends(states: seq<State>, steps: seq<Step>, i: nat, t: Token)
    requires IsRun(states, steps) && i < |steps| && steps[i] == Renew(t)
    ensures t in states[i].ttls
    ensures states[i + 1].store
         == if Owns(states[i], t) then Held(t, states[i].now + Whole(states[i].ttls[t])) else states[i].store
  {
    assert Enabled(states[i], steps[i]) && states[i + 1] == Apply(states[i], steps[i]);
  }

  // ---------------------------------------------------------------- renewal

  /** The ticker interval of renewLoop. */
  function Interval(ttl: int): int {
    var third := ttl / 3;
    if third < MIN_LOCK_TTL then MIN_LOCK_TTL else third
  }

  /** renewLoop: one renewal attempt per tick; reached[k] says whether the k-th one gets to Redis. */
  function RenewLoop(s: State, t: Token, interval: int, reached: seq<bool>): State
    requires interval >= 0 && t in s.ttls
    ensures t in RenewLoop(s, t, interval, reached).ttls
  {
    if reached == [] then s
    else
      var n := |reached| - 1;
      var ticked := Apply(RenewLoop(s, t, interval, reached[..n]), Tick(interval));
      if reached[n] then Apply(ticked, Renew(t)) else ticked
  }

  ghost predicate NoTwoMissed(reached: seq<bool>) {
    forall i :: 0 <= i && i + 1 < |reached| ==> reached[i] || reached[i + 1]
  }

  /** The token owns the key at every instant from the start to the last tick. */
  ghost predicate Unbroken(s: State, t: Token, interval: int, reached: seq<bool>)
    requires interval >= 0 && t in s.ttls
  {
    forall n, d :: 0 <= n < |reached| && 0 <= d <= interval ==>
      Owns(Apply(RenewLoop(s, t, interval, reached[..n]), Tick(d)), t)
  }

  lemma {:induction false} IntervalFits(ttl: int)
    requires ttl >= 3 * MILLISECOND
    ensures 0 < 2 * Interval(ttl) < Whole(ttl)
  {
  }

  /** And not more often than that: an interval is a third of the ttl, but never below a millisecond. */
  lemma {:induction false} IntervalIsThird(ttl: int)
    requires ValidTtl(ttl)
    ensures MILLISECOND <= Interval(ttl)
    ensures 3 * Interval(ttl) <= ttl < 3 * Interval(ttl) + 3 || (ttl < 3 * MILLISECOND && Interval(ttl) == MILLISECOND)
  {
  }

  /** After a run the key has more than one interval left, more than two after a successful renewal. */
  lemma {:induction false} RenewedState(s: State, t: Token, ttl: int, reached: seq<bool>)
    requires Acquired(s, t, ttl) && ttl >= 3 * MILLISECOND && NoTwoMissed(reached)
    ensures var s' := RenewLoop(s, t, Interval(ttl), reached);
            && s'.store.Held? && s'.store.token == t && s'.ttls[t] == ttl
            && s'.store.deadline - s'.now > Interval(ttl)
            && (reached == [] || reached[|reached| - 1] ==> s'.store.deadline - s'.now > 2 * Interval(ttl))
  {
    IntervalFits(ttl);
    if reached != [] {
      var before := reached[..|reached| - 1];
      assert NoTwoMissed(before);
      RenewedState(s, t, ttl, before);
      LastTwo(reached);
    }
  }

  lemma {:induction false} LastTwo(reached: seq<bool>)
    requires NoTwoMissed(reached)
    ensures |reached| >= 2 ==> reached[|reached| - 2] || reached[|reached| - 1]
  {
    assert |reached| >= 2 ==> reached[|reached| - 2] || reached[(|reached| - 2) + 1];
  }

  /** Alone on the server, with ttl >= 3ms, the lease is continuous if no two consecutive ticks are missed. */
  lemma {:induction false} LoopContinuity(s: State, t: Token, ttl: int, reached: seq<bool>)
    requires Acquired(s, t, ttl) && ttl >= 3 * MILLISECOND && NoTwoMissed(reached)
    ensures Unbroken(s, t, Interval(ttl), reached)
  {
    forall n, d | 0 <= n < |reached| && 0 <= d <= Interval(ttl)
      ensures Owns(Apply(RenewLoop(s, t, Interval(ttl), reached[..n]), Tick(d)), t)
    {
      assert NoTwoMissed(reached[..n]) by {
        assert forall i :: 0 <= i < n ==> reached[..n][i] == reached[i];
      }
      RenewedState(s, t, ttl, reached[..n]);
    }
  }

  /** 3ms is the exact bound: below it one missed tick already loses the lock. */
  lemma {:induction false} ContinuityIff(s: State, t: Token, ttl: int)
    requires Acquired(s, t, ttl)
    ensures ttl >= 3 * MILLISECOND <==>
            forall reached :: NoTwoMissed(reached) ==> Unbroken(s, t, Interval(ttl), reached)
  {
    if ttl >= 3 * MILLISECOND {
      forall reached | NoTwoMissed(reached) ensures Unbroken(s, t, Interval(ttl), reached) {
        LoopContinuity(s, t, ttl, reached);
      }
    } else {
      var reached := [false, true];
      assert NoTwoMissed(reached);
      assert Interval(ttl) == MILLISECOND && Whole(ttl) <= 2 * MILLISECOND;
      assert reached[..1] == [false] && [false][..0] == [];
      assert RenewLoop(s, t, MILLISECOND, [false]) == Apply(s, Tick(MILLISECOND));
      assert !Owns(Apply(RenewLoop(s, t, MILLISECOND, reached[..1]), Tick(MILLISECOND)), t);
      assert !Unbroken(s, t, MILLISECOND, reached);
    }
  }

  // ---------------------------------------------------------------- renewal among other clients

  /** The instant of the k-th tick of a loop started at `start`. */
  function TickAt(start: int, interval: int, k: nat): int {
    start + k * interval
  }

  /** Between steps i and j the token is renewed at the instant `at`. */
  ghost predicate RenewedAt(states: seq<State>, steps: seq<Step>, i: nat, j: nat, t: Token, at: int)
    requires |states| == |steps| + 1 && j < |states|
  {
    exists k :: i <= k < j && steps[k] == Renew(t) && states[k].now == at
  }

  /** Ticks k and k + 1 are both over by step j, and neither has renewed. */
  ghost predicate MissedTwo(states: seq<State>, steps: seq<Step>, i: nat, j: nat, t: Token, interval: int, k: nat)
    requires |states| == |steps| + 1 && i <= j < |states|
  {
    var at := TickAt(states[i].now, interval, k);
    && at + interval < states[j].now
    && !RenewedAt(states, steps, i, j, t, at) && !RenewedAt(states, steps, i, j, t, at + interval)
  }

  ghost predicate NeverMissedTwo(states: seq<State>, steps: seq<Step>, i: nat, j: nat, t: Token, interval: int)
    requires |states| == |steps| + 1 && i <= j < |states|
  {
    forall k: nat :: k > 0 ==> !MissedTwo(states, steps, i, j, t, interval, k)
  }

  lemma {:induction false} TimeMoves(states: seq<State>, steps: seq<Step>, i: nat, j: nat)
    requires IsRun(states, steps) && i <= j < |states|
    ensures states[i].now <= states[j].now
    decreases j - i
  {
    if i < j {
      TimeMoves(states, steps, i, j - 1);
      assert Enabled(states[j - 1], steps[j - 1]) && states[j] == Apply(states[j - 1], steps[j - 1]);
    }
  }

  /** The last tick strictly before `now`. */
  lemma {:induction false} LastTick(start: int, interval: int, now: int) returns (k: nat)
    requires interval > 0 && start < now
    ensures TickAt(start, interval, k) < now <= TickAt(start, interval, k) + interval
    ensures k > 0 ==> TickAt(start, interval, k) == TickAt(start, interval, k - 1) + interval
    decreases now - start
  {
    if now <= start + interval {
      k := 0;
    } else {
      k := LastTick(start + interval, interval, now);
      assert (k + 1) * interval == k * interval + interval;
      assert TickAt(start, interval, k + 1) == TickAt(start + interval, interval, k);
      k := k + 1;
    }
  }

  lemma {:induction false} RenewKeepsTime(states: seq<State>, steps: seq<Step>, q: nat, t: Token)
    requires IsRun(states, steps) && q < |steps| && steps[q] == Renew(t)
    ensures states[q + 1].now == states[q].now
  {
    assert Enabled(states[q], steps[q]) && states[q + 1] == Apply(states[q], steps[q]);
  }

  /** The state after a renewal that lies before step m. */
  lemma {:induction false} AfterRenewal(states: seq<State>, steps: seq<Step>, i: nat, m: nat, j: nat, t: Token, at: int)
      returns (r: nat)
    requires IsRun(states, steps) && i <= m <= j < |states|
    requires RenewedAt(states, steps, i, j, t, at) && at < states[m].now
    ensures i < r <= m && steps[r - 1] == Renew(t) && states[r].now == at
  {
    var q :| i <= q < j && steps[q] == Renew(t) && states[q].now == at;
    if q >= m {
      TimeMoves(states, steps, m, q);
    }
    RenewKeepsTime(states, steps, q, t);
    r := q + 1;
  }

  /** Either the acquisition or a renewal lies at most two intervals back. */
  lemma {:induction false} RenewedRecently(states: seq<State>, steps: seq<Step>, i: nat, m: nat, j: nat, t: Token, interval: int)
      returns (r: nat)
    requires IsRun(states, steps) && i <= m <= j < |states| && interval > 0
    requires NeverMissedTwo(states, steps, i, j, t, interval)
    ensures i <= r <= m && (r > i ==> steps[r - 1] == Renew(t))
    ensures states[m].now - states[r].now <= 2 * interval
  {
    r := i;
    if states[i].now < states[m].now {
      var k := LastTick(states[i].now, interval, states[m].now);
      if k >= 2 {
        r := TwoTicksBack(states, steps, i, m, j, t, interval, TickAt(states[i].now, interval, k - 1), k - 1);
      }
    }
  }

  lemma {:induction false} TwoTicksBack(states: seq<State>, steps: seq<Step>, i: nat, m: nat, j: nat, t: Token,
                                        interval: int, at: int, k: nat)
      returns (r: nat)
    requires IsRun(states, steps) && i <= m <= j < |states| && k > 0 && interval > 0
    requires NeverMissedTwo(states, steps, i, j, t, interval)
    requires at == TickAt(states[i].now, interval, k) && at + interval < states[m].now
    ensures i < r <= m && steps[r - 1] == Renew(t)
    ensures states[r].now == at || states[r].now == at + interval
  {
    TimeMoves(states, steps, m, j);
    assert !MissedTwo(states, steps, i, j, t, interval, k);
    r := AfterRenewal(states, steps, i, m, j, t,
                      if RenewedAt(states, steps, i, j, t, at) then at else at + interval);
  }

  /** The ttl of a Lock object never changes. */
  lemma {:induction false} TtlFixed(states: seq<State>, steps: seq<Step>, i: nat, j: nat, t: Token)
    requires IsRun(states, steps) && i <= j < |states| && t in states[i].ttls
    ensures t in states[j].ttls && states[j].ttls[t] == states[i].ttls[t]
    decreases j - i
  {
    if i < j {
      TtlFixed(states, steps, i, j - 1, t);
      RunKeepsInv(states, steps, j - 1);
      assert Enabled(states[j - 1], steps[j - 1]) && states[j] == Apply(states[j - 1], steps[j - 1]);
    }
  }

  /**
   With ttl >= 3ms a lock acquired at step i owns the key at every later step m of the run,
   whatever the other clients do, as long as its loop misses no two consecutive ticks and its
   own Unlock has not run.
   */
  lemma {:induction false} LeaseContinuity(states: seq<State>, steps: seq<Step>, i: nat, m: nat, j: nat, t: Token, ttl: int)
    requires IsRun(states, steps) && i <= m <= j < |states|
    requires Acquired(states[i], t, ttl) && ttl >= 3 * MILLISECOND
    requires NeverMissedTwo(states, steps, i, j, t, Interval(ttl))
    requires forall k :: i <= k < j ==> steps[k] != Unlock(t)
    ensures Owns(states[m], t)
    decreases m
  {
    IntervalFits(ttl);
    var r := RenewedRecently(states, steps, i, m, j, t, Interval(ttl));
    TtlFixed(states, steps, i, r, t);
    if r > i {
      LeaseContinuity(states, steps, i, r - 1, j, t, ttl);
      assert Enabled(states[r - 1], steps[r - 1]) && states[r] == Apply(states[r - 1], steps[r - 1]);
    }
    LeaseHolds(states, steps, r, m, t, states[r].now + Whole(ttl));
  }
}
