/**
 Whole-run meaning of the cache of cache/memcache.go, against two records kept beside the
 run: the number of the step at which each key was last written or hit, and the map of what
 was last written under each key. Neither is ever reordered, evicted from or swept.
 */
module CacheHistory {
  import opened Options
  import opened Sequences
  import opened CacheSpec
  import opened LruInclusion
  import opened RealFacts

  // ---------------------------------------------------------------- recency against time stamps

  /** The keys an operation reads with a hit or writes. */
  function Touched<V>(c: Cache<V>, t: Timed<V>): set<Key> {
    match t.op
    case SetOp(key, _, _, _) => {key}
    case GetOp(key) => if Hit(c, key, t.now).Some? then {key} else {}
    case AddOp(key, _, addTo, _) =>
      if key in c.data && !Expired(c.data[key], t.now) && addTo(c.data[key].value).None? then {} else {key}
    case _ => {}
  }

  /** For each key ever touched along the trace, the number of the last step that touched it. */
  function Stamps<V>(c: Cache<V>, trace: seq<Timed<V>>): map<Key, nat> {
    if trace == [] then map[]
    else
      var before := trace[..|trace| - 1];
      var touched := Touched(Run(c, before), trace[|trace| - 1]);
      Stamped(Stamps(c, before), touched, |trace|)
  }

  ghost predicate Ranked(order: seq<Key>, stamps: map<Key, nat>) {
    && (forall k :: k in order ==> k in stamps)
    && (forall i, j :: 0 <= i < j < |order| ==> stamps[order[i]] > stamps[order[j]])
  }

  lemma {:induction false} KeepRanked(order: seq<Key>, a: set<Key>, stamps: map<Key, nat>)
    requires Ranked(order, stamps)
    ensures Ranked(Keep(order, a), stamps)
  {
    if order != [] {
      var rest := order[1..];
      assert forall k :: k in rest ==> k in order;
      KeepRanked(rest, a, stamps);
      KeepMembers(rest, a);
      assert forall k :: k in rest ==> stamps[order[0]] > stamps[k];
      if order[0] in a {
        ConsRanked(order[0], Keep(rest, a), stamps);
      }
    }
  }

  lemma {:induction false} ConsRanked(key: Key, rest: seq<Key>, stamps: map<Key, nat>)
    requires Ranked(rest, stamps) && key in stamps
    requires forall k :: k in rest ==> stamps[key] > stamps[k]
    ensures Ranked([key] + rest, stamps)
  {
  }

  lemma {:induction false} FrontRanked(key: Key, rest: seq<Key>, stamps: map<Key, nat>, n: nat)
    requires Ranked(rest, stamps) && key !in rest
    requires forall k :: k in stamps ==> stamps[k] < n
    ensures Ranked([key] + rest, stamps[key := n])
  {
  }

  lemma {:induction false} WriteRanked<V>(c: Cache<V>, key: Key, e: Entry<V>, stamps: map<Key, nat>, n: nat)
    requires Inv(c) && c.limit > 0 && Ranked(c.order, stamps)
    requires forall k :: k in stamps ==> stamps[k] < n
    ensures Ranked(Write(c, key, e).order, stamps[key := n])
  {
    var rest := Rest(c, key);
    KeepRanked(c.order, Elems(c.order) - {key}, stamps);
    KeepMembers(c.order, Elems(c.order) - {key});
    WriteShape(c, key, e);
    if |rest| < c.limit {
      FrontRanked(key, rest, stamps, n);
    } else {
      PrefixRanked(rest, |rest| - 1, stamps);
      FrontRanked(key, rest[..|rest| - 1], stamps, n);
    }
  }

  lemma {:induction false} PrefixRanked(order: seq<Key>, n: nat, stamps: map<Key, nat>)
    requires n <= |order| && Ranked(order, stamps)
    ensures Ranked(order[..n], stamps)
  {
    assert forall k :: k in order[..n] ==> k in order;
  }

  /** The stamps after a step that touches the given keys. */
  function Stamped(stamps: map<Key, nat>, touched: set<Key>, n: nat): map<Key, nat> {
    stamps + map k | k in touched :: n
  }

  lemma {:induction false} StampedOne(stamps: map<Key, nat>, key: Key, n: nat)
    ensures Stamped(stamps, {key}, n) == stamps[key := n] && Stamped(stamps, {}, n) == stamps
  {
    assert Stamped(stamps, {}, n).Keys == stamps.Keys;
  }

  lemma {:induction false} StepRanked<V>(c: Cache<V>, t: Timed<V>, stamps: map<Key, nat>, n: nat)
    requires Inv(c) && c.limit > 0 && Ranked(c.order, stamps)
    requires forall k :: k in stamps ==> stamps[k] < n
    ensures Ranked(Step(c, t).order, Stamped(stamps, Touched(c, t), n))
  {
    match t.op
    case SetOp(key, value, ttl, draw) =>
      WriteRanked(c, key, Entry(value, Deadline(c.expire, ttl, draw, t.now)), stamps, n);
      StampedOne(stamps, key, n);
    case GetOp(key) =>
      GetRanked(c, key, t.now, stamps, n);
      StampedOne(stamps, key, n);
    case AddOp(key, init, addTo, draw) =>
      AddRanked(c, key, init, addTo, draw, t.now, stamps, n);
      StampedOne(stamps, key, n);
    case _ =>
      RemovalRanked(c, t, stamps, n);
  }

  lemma {:induction false} RemovalRanked<V>(c: Cache<V>, t: Timed<V>, stamps: map<Key, nat>, n: nat)
    requires Ranked(c.order, stamps) && (t.op.DeleteOp? || t.op.ExpireOp? || t.op.ScanOp?)
    ensures Ranked(Step(c, t).order, Stamped(stamps, Touched(c, t), n))
  {
    StampedOne(stamps, Key(""), n);
    match t.op
    case DeleteOp(keys) => KeepRanked(c.order, Elems(c.order) - Elems(keys), stamps);
    case ExpireOp(key, ttl, draw) => KeepRanked(c.order, Elems(c.order) - {key}, stamps);
    case ScanOp => KeepRanked(c.order, Elems(c.order) - ExpiredKeys(c.data, t.now), stamps);
  }

  lemma {:induction false} GetRanked<V>(c: Cache<V>, key: Key, now: int, stamps: map<Key, nat>, n: nat)
    requires Inv(c) && c.limit > 0 && Ranked(c.order, stamps)
    requires forall k :: k in stamps ==> stamps[k] < n
    ensures Ranked(Get(c, key, now).order, if Hit(c, key, now).Some? then stamps[key := n] else stamps)
  {
    if key in c.data {
      if Expired(c.data[key], now) {
        KeepRanked(c.order, Elems(c.order) - {key}, stamps);
      } else {
        TouchIsWrite(c, key);
        WriteRanked(c, key, c.data[key], stamps, n);
      }
    }
  }

  lemma {:induction false} AddRanked<V>(c: Cache<V>, key: Key, init: V, addTo: V -> Option<V>, draw: real, now: int,
                     stamps: map<Key, nat>, n: nat)
    requires Inv(c) && c.limit > 0 && Ranked(c.order, stamps)
    requires forall k :: k in stamps ==> stamps[k] < n
    ensures Ranked(AddDelta(c, key, init, addTo, draw, now).order,
                   if key in Touched(c, At(now, AddOp(key, init, addTo, draw))) then stamps[key := n] else stamps)
  {
    if key !in c.data || Expired(c.data[key], now) {
      WriteRanked(c, key, Entry(init, Deadline(c.expire, 0, draw, now)), stamps, n);
    } else if addTo(c.data[key].value).Some? {
      WriteRanked(c, key, c.data[key].(value := addTo(c.data[key].value).value), stamps, n);
    }
  }

  /** In every reachable state the list is ordered by last touch, most recent first. */
  lemma {:induction false} OrderIsRecency<V>(limit: int, expire: int, trace: seq<Timed<V>>)
    requires limit > 0
    ensures var c0 := Empty<V>(limit, expire);
            && Ranked(Run(c0, trace).order, Stamps(c0, trace))
            && (forall k :: k in Stamps(c0, trace) ==> Stamps(c0, trace)[k] <= |trace|)
  {
    if trace != [] {
      var before, t := trace[..|trace| - 1], trace[|trace| - 1];
      var c0 := Empty<V>(limit, expire);
      OrderIsRecency<V>(limit, expire, before);
      RunKeepsInv<V>(limit, expire, before);
      StepRanked(Run(c0, before), t, Stamps(c0, before), |trace|);
    }
  }

  lemma {:induction false} EvictsLast<V>(c: Cache<V>, key: Key, e: Entry<V>, victim: Key, stamps: map<Key, nat>)
    requires Inv(c) && c.limit > 0 && Ranked(c.order, stamps)
    requires victim in c.data && victim !in Write(c, key, e).data
    ensures key !in c.data && victim != key && |c.order| == c.limit
    ensures Write(c, key, e).data == c.data[key := e] - {victim}
    ensures victim in stamps
    ensures forall k :: k in c.data && k != victim ==> k in stamps && stamps[k] > stamps[victim]
  {
    RestShape(c, key);
    WriteShape(c, key, e);
    LastIsLeast(c.order, stamps);
  }

  lemma {:induction false} LastIsLeast(order: seq<Key>, stamps: map<Key, nat>)
    requires order != [] && Ranked(order, stamps)
    ensures var last := order[|order| - 1];
            last in stamps && forall k :: k in order && k != last ==> k in stamps && stamps[k] > stamps[last]
  {
  }

  /**
   Eviction is exactly LRU: if writing a key loses another key, the cache was full, the
   written key was new, and the one lost key is the least recently touched of all present.
   */
  lemma {:induction false} EvictsLeastRecentlyTouched<V>(limit: int, expire: int, trace: seq<Timed<V>>,
                                      key: Key, e: Entry<V>, victim: Key)
    requires limit > 0
    requires var c := Run(Empty<V>(limit, expire), trace);
             victim in c.data && victim !in Write(c, key, e).data
    ensures var c := Run(Empty<V>(limit, expire), trace);
            var stamps := Stamps(Empty<V>(limit, expire), trace);
            && key !in c.data && victim != key && |c.order| == limit
            && Write(c, key, e).data == c.data[key := e] - {victim}
            && victim in stamps
            && (forall k :: k in c.data && k != victim ==> k in stamps && stamps[k] > stamps[victim])
  {
    RunKeepsInv<V>(limit, expire, trace);
    OrderIsRecency<V>(limit, expire, trace);
    EvictsLast(Run(Empty<V>(limit, expire), trace), key, e, victim, Stamps(Empty<V>(limit, expire), trace));
  }

  // ---------------------------------------------------------------- contents against what was written

  /**
   What the writes, Delete and Expire leave along a run from c: no eviction, no lazy expiry,
   no sweep. The run itself is asked only whether an Increment or Decrement finds its key.
   */
  function Written<V>(c: Cache<V>, trace: seq<Timed<V>>): map<Key, Entry<V>> {
    if trace == [] then map[]
    else
      var before := trace[..|trace| - 1];
      WrittenStep(Run(c, before), Written(c, before), trace[|trace| - 1])
  }

  function WrittenStep<V>(c: Cache<V>, w: map<Key, Entry<V>>, t: Timed<V>): map<Key, Entry<V>> {
    match t.op
    case SetOp(key, value, ttl, draw) => w[key := Entry(value, Deadline(c.expire, ttl, draw, t.now))]
    case DeleteOp(keys) => w - Elems(keys)
    case ExpireOp(key, ttl, draw) =>
      if key !in w then w
      else if ttl <= 0 then w - {key}
      else w[key := w[key].(expireAt := Some(t.now + Around(ttl, draw)))]
    case AddOp(key, init, addTo, draw) =>
      if key !in w || Hit(c, key, t.now).None? then w[key := Entry(init, Deadline(c.expire, 0, draw, t.now))]
      else if addTo(w[key].value).None? then w
      else w[key := w[key].(value := addTo(w[key].value).value)]
    case _ => w
  }

  /** Whatever the limit, a hit returns the value last written under the key, unexpired. */
  lemma {:induction false} HitIsLastWrite<V>(limit: int, expire: int, trace: seq<Timed<V>>, key: Key, now: int)
    ensures var c, w := Run(Empty<V>(limit, expire), trace), Written(Empty<V>(limit, expire), trace);
            && Submap(c.data, w)
            && (Hit(c, key, now).Some? ==>
                  key in w && !Expired(w[key], now) && Hit(c, key, now).value == w[key].value)
  {
    if trace != [] {
      var before, t, c0 := trace[..|trace| - 1], trace[|trace| - 1], Empty<V>(limit, expire);
      HitIsLastWrite<V>(limit, expire, before, key, now);
      RunKeepsInv<V>(limit, expire, before);
      StepWithinWritten(Run(c0, before), t, Written(c0, before));
    }
  }

  lemma {:induction false} WriteWithin<V>(c: Cache<V>, key: Key, e: Entry<V>)
    requires Inv(c)
    ensures Submap(Write(c, key, e).data, c.data[key := e])
  {
    if c.limit > 0 {
      WriteShape(c, key, e);
    }
  }

  lemma {:induction false} StepWithinWritten<V>(c: Cache<V>, t: Timed<V>, w: map<Key, Entry<V>>)
    requires Inv(c) && Submap(c.data, w)
    ensures Submap(Step(c, t).data, WrittenStep(c, w, t))
  {
    match t.op
    case SetOp(key, value, ttl, draw) =>
      WriteWithin(c, key, Entry(value, Deadline(c.expire, ttl, draw, t.now)));
    case GetOp(key) =>
      if key in c.data {
        TouchIsWrite(c, key);
        WriteWithin(c, key, c.data[key]);
      }
    case AddOp(key, init, addTo, draw) =>
      AddWithinWritten(c, t, w);
    case _ =>
  }

  lemma {:induction false} AddWithinWritten<V>(c: Cache<V>, t: Timed<V>, w: map<Key, Entry<V>>)
    requires Inv(c) && Submap(c.data, w) && t.op.AddOp?
    ensures Submap(Step(c, t).data, WrittenStep(c, w, t))
  {
    var key := t.op.key;
    if Hit(c, key, t.now).None? {
      WriteWithin(c, key, Entry(t.op.init, Deadline(c.expire, 0, t.op.draw, t.now)));
    } else {
      var sum := t.op.addTo(c.data[key].value);
      if sum.Some? {
        WriteWithin(c, key, c.data[key].(value := sum.value));
      }
    }
  }

  /** The sweep removes exactly the expired entries, and leaves the others as they were. */
  lemma {:induction false} SweepExact<V>(c: Cache<V>, now: int, key: Key)
    ensures key in Scan(c, now).data <==> key in c.data && !Expired(c.data[key], now)
    ensures key in Scan(c, now).data ==> Scan(c, now).data[key] == c.data[key]
    ensures Hit(Scan(c, now), key, now) == Hit(c, key, now)
  {
  }

  /** The jittered expiry stays within 5% of the requested one. */
  lemma {:induction false} JitterRange(base: int, draw: real)
    requires base > 0 && 0.0 <= draw < 1.0
    ensures 0.95 * base as real - 1.0 < Around(base, draw) as real <= 1.05 * base as real
  {
    var y := Factor(draw) * base as real;
    assert 0.95 * base as real <= y <= 1.05 * base as real by {
      ScaledRange(Factor(draw), base as real);
    }
    FloorRange(y, 0.95 * base as real, 1.05 * base as real);
  }

  /** The jitter uses that whole range: the draw 0 gives the longest expiry, and a larger draw no longer one. */
  lemma {:induction false} JitterSpreads(base: int, draw: real, draw': real)
    requires base > 0 && 0.0 <= draw <= draw' < 1.0
    ensures Around(base, draw') <= Around(base, draw) <= Around(base, 0.0) == (1.05 * base as real).Floor
    ensures ((draw' - draw) * base as real) >= 20.0 ==> Around(base, draw') < Around(base, draw)
  {
    var b := base as real;
    SpreadBy(b, draw, draw');
    SpreadBy(b, 0.0, draw);
    assert Factor(0.0) * b == 1.05 * b;
  }

  lemma {:induction false} SpreadBy(b: real, draw: real, draw': real)
    requires b >= 0.0 && draw <= draw'
    ensures Factor(draw) * b - Factor(draw') * b == 0.1 * ((draw' - draw) * b) >= 0.0
  {
    assert Factor(draw) - Factor(draw') == 0.1 * (draw' - draw);
    MulLe(0.0, draw' - draw, b);
    assert Factor(draw) * b - Factor(draw') * b == (Factor(draw) - Factor(draw')) * b;
    assert (0.1 * (draw' - draw)) * b == 0.1 * ((draw' - draw) * b);
  }

  lemma {:induction false} ScaledRange(factor: real, x: real)
    requires 0.95 <= factor <= 1.05 && x >= 0.0
    ensures 0.95 * x <= factor * x <= 1.05 * x
  {
    MulLe(0.95, factor, x);
    MulLe(factor, 1.05, x);
  }

  lemma {:induction false} FloorRange(y: real, lo: real, hi: real)
    requires lo <= y <= hi
    ensures lo - 1.0 < y.Floor as real <= hi
  {
  }

  // ---------------------------------------------------------------- what an entry survives

  /** Whether a key that is or is not held before the step is held after it, unless evicted. */
  predicate Survives<V>(t: Timed<V>, w: map<Key, Entry<V>>, key: Key, held: bool) {
    match t.op
    case SetOp(k, _, _, _) => k == key || held
    case AddOp(k, _, _, _) => k == key || held
    case DeleteOp(keys) => held && key !in keys
    case ExpireOp(k, ttl, _) => held && (k == key ==> ttl > 0)
    case GetOp(k) => held && (k == key ==> !Late(w, key, t.now))
    case ScanOp => held && !Late(w, key, t.now)
  }

  /**
   The key was written, not deleted since, and neither a Get of it nor a sweep came past its
   deadline: a condition on the trace and on what was written.
   */
  predicate Kept<V>(c: Cache<V>, trace: seq<Timed<V>>, key: Key) {
    trace != [] &&
    var before := trace[..|trace| - 1];
    Survives(trace[|trace| - 1], Written(c, before), key, Kept(c, before, key))
  }

  /** The key is past the deadline written for it. */
  predicate Late<V>(w: map<Key, Entry<V>>, key: Key, now: int) {
    key in w && Expired(w[key], now)
  }

  predicate LiveIn<V>(w: map<Key, Entry<V>>, key: Key, now: int) {
    key in w && !Expired(w[key], now)
  }

  /** One step of presence; the unlimited cache loses nothing else. */
  lemma {:induction false} StepPresence<V>(c: Cache<V>, t: Timed<V>, w: map<Key, Entry<V>>, key: Key)
    requires Inv(c) && Submap(c.data, w)
    ensures key in Step(c, t).data ==> Survives(t, w, key, key in c.data)
    ensures c.limit <= 0 && Survives(t, w, key, key in c.data) ==> key in Step(c, t).data
  {
    match t.op
    case SetOp(k, value, ttl, draw) =>
      WriteWithin(c, k, Entry(value, Deadline(c.expire, ttl, draw, t.now)));
    case AddOp(k, init, addTo, draw) =>
      AddPresence(c, t, key);
    case GetOp(k) =>
      if k in c.data {
        TouchIsWrite(c, k);
        WriteWithin(c, k, c.data[k]);
      }
    case _ =>
  }

  lemma {:induction false} AddPresence<V>(c: Cache<V>, t: Timed<V>, key: Key)
    requires Inv(c) && t.op.AddOp?
    ensures key in Step(c, t).data ==> key == t.op.key || key in c.data
    ensures c.limit <= 0 && (key == t.op.key || key in c.data) ==> key in Step(c, t).data
  {
    var k := t.op.key;
    if Hit(c, k, t.now).None? {
      WriteWithin(c, k, Entry(t.op.init, Deadline(c.expire, 0, t.op.draw, t.now)));
    } else {
      var sum := t.op.addTo(c.data[k].value);
      if sum.Some? {
        WriteWithin(c, k, c.data[k].(value := sum.value));
      }
    }
  }

  /** Under any limit only kept keys are present; the unlimited cache holds all of them. */
  lemma {:induction false} PresentIff<V>(limit: int, expire: int, trace: seq<Timed<V>>, key: Key)
    ensures var c0 := Empty<V>(limit, expire);
            && (key in Run(c0, trace).data ==> Kept(c0, trace, key))
            && (limit <= 0 && Kept(c0, trace, key) ==> key in Run(c0, trace).data)
  {
    if trace != [] {
      var before, t, c0 := trace[..|trace| - 1], trace[|trace| - 1], Empty<V>(limit, expire);
      PresentIff<V>(limit, expire, before, key);
      RunKeepsInv<V>(limit, expire, before);
      HitIsLastWrite<V>(limit, expire, before, key, t.now);
      StepPresence(Run(c0, before), t, Written(c0, before), key);
    }
  }

  /** The unlimited cache hits exactly the kept, unexpired keys, with the value last written. */
  lemma {:induction false} UnlimitedIsExactTtlMap<V>(expire: int, trace: seq<Timed<V>>, key: Key, now: int)
    ensures var c0 := Empty<V>(0, expire);
            var w := Written(c0, trace);
            && (Kept(c0, trace, key) ==> key in w)
            && Hit(Run(c0, trace), key, now)
               == if Kept(c0, trace, key) && !Expired(w[key], now) then Some(w[key].value) else None
  {
    PresentIff<V>(0, expire, trace, key);
    HitIsLastWrite<V>(0, expire, trace, key, now);
  }

  /**
   Exactly when Expire brings a key back in the unlimited cache: it was written, not deleted
   since, is past its deadline, and no Get of it and no sweep has come past the deadline.
   */
  lemma {:induction false} RevivesIff<V>(expire: int, trace: seq<Timed<V>>, key: Key, ttl: int, draw: real, now: int, later: int)
    requires ttl > 0 && later <= now + Around(ttl, draw)
    ensures var c0 := Empty<V>(0, expire);
            var c, w := Run(c0, trace), Written(c0, trace);
            var c' := Step(c, At(now, ExpireOp(key, ttl, draw)));
            && (Hit(c, key, now).None? && Hit(c', key, later).Some? <==> Kept(c0, trace, key) && Late(w, key, now))
            && (Hit(c', key, later).Some? ==> key in w && Hit(c', key, later).value == w[key].value)
  {
    PresentIff<V>(0, expire, trace, key);
    HitIsLastWrite<V>(0, expire, trace, key, now);
  }

  // ---------------------------------------------------------------- when deletion cannot be observed

  ghost predicate Ordered<V>(trace: seq<Timed<V>>) {
    forall i, j :: 0 <= i < j < |trace| ==> trace[i].now <= trace[j].now
  }

  /** Every lookup from now on is answered as if nothing were ever collected. */
  ghost predicate Exact<V>(c: Cache<V>, w: map<Key, Entry<V>>, now: int) {
    forall key, later :: now <= later ==>
      Hit(c, key, later) == if LiveIn(w, key, later) then Some(w[key].value) else None
  }

  /** This Expire would extend a key that is past its deadline and already collected. */
  ghost predicate TooLate<V>(c: Cache<V>, before: seq<Timed<V>>, t: Timed<V>) {
    && t.op.ExpireOp? && t.op.ttl > 0 && Around(t.op.ttl, t.op.draw) >= 0
    && Late(Written(c, before), t.op.key, t.now) && !Kept(c, before, t.op.key)
  }

  ghost predicate NoneTooLate<V>(c: Cache<V>, trace: seq<Timed<V>>) {
    forall i :: 0 <= i < |trace| ==> !TooLate(c, trace[..i], trace[i])
  }

  /** After the first i calls, the cache started as c is exact. */
  ghost predicate ExactAfter<V>(c: Cache<V>, trace: seq<Timed<V>>, i: nat)
    requires 0 < i <= |trace|
  {
    Exact(Run(c, trace[..i]), Written(c, trace[..i]), trace[i - 1].now)
  }

  lemma {:induction false} StepExact<V>(c: Cache<V>, t: Timed<V>, w: map<Key, Entry<V>>)
    requires c.limit <= 0 && Inv(c) && Submap(c.data, w) && Exact(c, w, t.now)
    requires t.op.ExpireOp? && t.op.ttl > 0 && Around(t.op.ttl, t.op.draw) >= 0 && Late(w, t.op.key, t.now) ==>
               t.op.key in c.data
    ensures Exact(Step(c, t), WrittenStep(c, w, t), t.now)
  {
    StepWithinWritten(c, t, w);
    forall key, later | t.now <= later && LiveIn(WrittenStep(c, w, t), key, later)
      ensures key in Step(c, t).data
    {
      StepPresence(c, t, w, key);
      assert Hit(c, key, t.now).Some? <==> LiveIn(w, key, t.now);
    }
  }

  lemma {:induction false} ExactSofar<V>(expire: int, trace: seq<Timed<V>>, i: nat)
    requires Ordered(trace) && NoneTooLate(Empty<V>(0, expire), trace) && 0 < i <= |trace|
    ensures ExactAfter(Empty<V>(0, expire), trace, i)
  {
    var c0, before, t := Empty<V>(0, expire), trace[..i - 1], trace[i - 1];
    assert trace[..i][..i - 1] == before;
    if i > 1 {
      ExactSofar(expire, trace, i - 1);
    }
    assert !TooLate(c0, before, t);
    RunKeepsInv<V>(0, expire, before);
    HitIsLastWrite<V>(0, expire, before, Key(""), 0);
    if t.op.ExpireOp? {
      PresentIff<V>(0, expire, before, t.op.key);
    }
    StepExact(Run(c0, before), t, Written(c0, before));
  }

  /** An Expire that comes too late finds nothing, though its key was written and not deleted. */
  lemma {:induction false} TooLateIsSeen<V>(expire: int, trace: seq<Timed<V>>, i: nat)
    requires i < |trace| && TooLate(Empty<V>(0, expire), trace[..i], trace[i])
    ensures !ExactAfter(Empty<V>(0, expire), trace, i + 1)
  {
    var c0, t := Empty<V>(0, expire), trace[i];
    var w' := Written(c0, trace[..i + 1]);
    assert trace[..i + 1][..i] == trace[..i];
    PresentIff<V>(0, expire, trace[..i], t.op.key);
    assert LiveIn(w', t.op.key, t.now);
    assert Hit(Run(c0, trace[..i + 1]), t.op.key, t.now).None?;
  }

  /**
   Exactly when lazy deletion and the sweep cannot be observed along a whole run of the
   unlimited cache: no Expire comes to a key that is past its deadline and already collected.
   */
  lemma {:induction false} CollectionUnobservableIff<V>(expire: int, trace: seq<Timed<V>>)
    requires Ordered(trace)
    ensures var c0 := Empty<V>(0, expire);
            (forall i :: 0 < i <= |trace| ==> ExactAfter(c0, trace, i)) <==> NoneTooLate(c0, trace)
  {
    var c0 := Empty<V>(0, expire);
    if NoneTooLate(c0, trace) {
      forall i | 0 < i <= |trace| ensures ExactAfter(c0, trace, i) {
        ExactSofar(expire, trace, i);
      }
    } else {
      var i :| 0 <= i < |trace| && TooLate(c0, trace[..i], trace[i]);
      TooLateIsSeen(expire, trace, i);
    }
  }

  /** Both sides of RevivesIff occur: an untouched entry comes back; a swept or looked-up one does not. */
  lemma {:induction false} ExpireRevivesUnswept()
    ensures var k := Key("k");
            var set0: Timed<int> := At(0, SetOp(k, 7, 10, 0.5));
            var late := At(20, ExpireOp(k, 10, 0.5));
            && Hit(Run(Empty<int>(0, 0), [set0]), k, 20) == None
            && Hit(Run(Empty<int>(0, 0), [set0, late]), k, 25) == Some(7)
            && Hit(Run(Empty<int>(0, 0), [set0, At(20, ScanOp), late]), k, 25) == None
            && Hit(Run(Empty<int>(0, 0), [set0, At(20, GetOp(k)), late]), k, 25) == None
  {
    var k := Key("k");
    var set0: Timed<int> := At(0, SetOp(k, 7, 10, 0.5));
    var late: Timed<int> := At(20, ExpireOp(k, 10, 0.5));
    var c0 := Empty<int>(0, 0);
    var c1 := Step(c0, set0);
    assert Around(10, 0.5) == 10;
    assert c1.data == map[k := Entry(7, Some(10))];
    RunMore(c0, [], set0);
    RunMore(c0, [set0], late);
    Collected(c1, set0, At(20, ScanOp), late);
    Collected(c1, set0, At(20, GetOp(k)), late);
  }

  lemma {:induction false} RunMore<V>(c: Cache<V>, trace: seq<Timed<V>>, t: Timed<V>)
    ensures Run(c, trace + [t]) == Step(Run(c, trace), t)
  {
    assert (trace + [t])[..|trace|] == trace;
  }

  lemma {:induction false} Collected(c1: Cache<int>, set0: Timed<int>, middle: Timed<int>, late: Timed<int>)
    requires c1 == Step(Empty<int>(0, 0), set0) && c1.data == map[Key("k") := Entry(7, Some(10))]
    requires middle == At(20, ScanOp) || middle == At(20, GetOp(Key("k")))
    requires late == At(20, ExpireOp(Key("k"), 10, 0.5))
    ensures Hit(Run(Empty<int>(0, 0), [set0, middle, late]), Key("k"), 25) == None
  {
    var c0 := Empty<int>(0, 0);
    RunMore(c0, [], set0);
    RunMore(c0, [set0], middle);
    RunMore(c0, [set0, middle], late);
    assert [] + [set0] == [set0] && [set0] + [middle] == [set0, middle];
    assert [set0, middle] + [late] == [set0, middle, late];
    assert Key("k") in ExpiredKeys(c1.data, 20);
    assert Key("k") !in Step(c1, middle).data;
  }
}
