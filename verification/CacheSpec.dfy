/**
 The in-memory cache of cache/memcache.go as a value: the data map, the recency list
 (front = most recently used) and one function per critical section. The clock reading
 `now` and the random draw behind the expiry jitter are inputs.
 */
module CacheSpec {
  import opened Options
  import opened Sequences

  datatype Key = Key(name: string)

  /** expireAt == None is the zero time: the entry never expires. */
  datatype Entry<V> = Entry(value: V, expireAt: Option<int>)

  datatype Cache<V> = Cache(limit: int, expire: int, data: map<Key, Entry<V>>, order: seq<Key>)

  const EXPIRY_DEVIATION := 0.05

  /** unstable.AroundDuration: the jittered duration for a random draw in [0, 1). */
  function Around(base: int, draw: real): int {
    (Factor(draw) * base as real).Floor
  }

  function Factor(draw: real): real {
    1.0 + EXPIRY_DEVIATION - 2.0 * EXPIRY_DEVIATION * draw
  }

  predicate Expired<V>(e: Entry<V>, now: int) {
    e.expireAt.Some? && now > e.expireAt.value
  }

  function Empty<V>(limit: int, expire: int): Cache<V> {
    Cache(limit, expire, map[], [])
  }

  /** keyLru.add with its eviction callback; a no-op when capacity is unlimited (emptyLru). */
  function Touch<V>(c: Cache<V>, key: Key): Cache<V> {
    if c.limit <= 0 then c
    else if key in c.order then
      c.(order := [key] + Keep(c.order, Elems(c.order) - {key}))
    else
      var pushed := [key] + c.order;
      if |pushed| > c.limit then
        c.(data := c.data - {pushed[|pushed| - 1]}, order := pushed[..|pushed| - 1])
      else
        c.(order := pushed)
  }

  /** delete from data plus keyLru.remove, for a set of keys. */
  function Drop<V>(c: Cache<V>, keys: set<Key>): Cache<V> {
    c.(data := c.data - keys, order := Keep(c.order, Elems(c.order) - keys))
  }

  function Write<V>(c: Cache<V>, key: Key, e: Entry<V>): Cache<V> {
    Touch(c.(data := c.data[key := e]), key)
  }

  /** The expiry instant SetEx stores: a ttl <= 0 falls back to the default expiry. */
  function Deadline(expire: int, ttl: int, draw: real, now: int): Option<int> {
    var effective := if ttl <= 0 then expire else ttl;
    if effective <= 0 then None else Some(now + Around(effective, draw))
  }

  function SetEx<V>(c: Cache<V>, key: Key, value: V, ttl: int, draw: real, now: int): Cache<V> {
    Write(c, key, Entry(value, Deadline(c.expire, ttl, draw, now)))
  }

  function Hit<V>(c: Cache<V>, key: Key, now: int): Option<V> {
    if key in c.data && !Expired(c.data[key], now) then Some(c.data[key].value) else None
  }

  function Get<V>(c: Cache<V>, key: Key, now: int): Cache<V> {
    if key !in c.data then c
    else if Expired(c.data[key], now) then Drop(c, {key})
    else Touch(c, key)
  }

  /** addDelta: addTo is addToValue for the given delta, failing on a non-numeric value. */
  function AddDelta<V>(c: Cache<V>, key: Key, init: V, addTo: V -> Option<V>, draw: real, now: int): Cache<V> {
    if key !in c.data || Expired(c.data[key], now) then
      Write(c, key, Entry(init, Deadline(c.expire, 0, draw, now)))
    else
      match addTo(c.data[key].value)
      case None => c
      case Some(v) => Write(c, key, c.data[key].(value := v))
  }

  /** Expire: a missing key is left alone (ErrNotFound); an expired but unswept one is revived. */
  function ExpireKey<V>(c: Cache<V>, key: Key, ttl: int, draw: real, now: int): Cache<V> {
    if key !in c.data then c
    else if ttl <= 0 then Drop(c, {key})
    else c.(data := c.data[key := c.data[key].(expireAt := Some(now + Around(ttl, draw)))])
  }

  function ExpiredKeys<V>(data: map<Key, Entry<V>>, now: int): set<Key> {
    set k | k in data && Expired(data[k], now)
  }

  function Scan<V>(c: Cache<V>, now: int): Cache<V> {
    Drop(c, ExpiredKeys(c.data, now))
  }

  datatype Op<!V> =
    | SetOp(key: Key, value: V, ttl: int, draw: real)
    | GetOp(key: Key)
    | DeleteOp(keys: seq<Key>)
    | ExpireOp(key: Key, ttl: int, draw: real)
    | ScanOp
    | AddOp(key: Key, init: V, addTo: V -> Option<V>, draw: real)

  datatype Timed<!V> = At(now: int, op: Op<V>)

  function Step<V>(c: Cache<V>, t: Timed<V>): Cache<V> {
    match t.op
    case SetOp(key, value, ttl, draw) => SetEx(c, key, value, ttl, draw, t.now)
    case GetOp(key) => Get(c, key, t.now)
    case DeleteOp(keys) => Drop(c, Elems(keys))
    case ExpireOp(key, ttl, draw) => ExpireKey(c, key, ttl, draw, t.now)
    case ScanOp => Scan(c, t.now)
    case AddOp(key, init, addTo, draw) => AddDelta(c, key, init, addTo, draw, t.now)
  }

  function Run<V>(c: Cache<V>, trace: seq<Timed<V>>): Cache<V> {
    if trace == [] then c
    else Step(Run(c, trace[..|trace| - 1]), trace[|trace| - 1])
  }

  // ---------------------------------------------------------------- representation invariant

  /** Data map and recency list hold the same duplicate-free key set, within the limit. */
  ghost predicate Inv<V>(c: Cache<V>) {
    if c.limit <= 0 then c.order == []
    else
      && Distinct(c.order)
      && (forall k :: k in c.order <==> k in c.data)
      && |c.order| <= c.limit
  }

  /** The recency list without one key: what every touch puts behind that key. */
  function Rest<V>(c: Cache<V>, key: Key): seq<Key> {
    Keep(c.order, Elems(c.order) - {key})
  }

  lemma {:induction false} RestShape<V>(c: Cache<V>, key: Key)
    requires Inv(c) && c.limit > 0
    ensures Distinct([key] + Rest(c, key))
    ensures forall k :: k in Rest(c, key) <==> k in c.data && k != key
    ensures |Rest(c, key)| == if key in c.data then |c.order| - 1 else |c.order|
    ensures key !in c.data ==> Rest(c, key) == c.order
  {
    var others := Elems(c.order) - {key};
    KeepDistinct(c.order, others);
    KeepMembers(c.order, others);
    if key in c.order {
      KeepRemoveOne(c.order, others, key);
    } else {
      KeepAll(c.order, others);
    }
  }

  /** Both branches of keyLru.add are "move to the front, then cut the list to the limit". */
  lemma {:induction false} WriteShape<V>(c: Cache<V>, key: Key, e: Entry<V>)
    requires Inv(c) && c.limit > 0
    ensures var rest := Rest(c, key);
            if |rest| < c.limit then
              Write(c, key, e) == c.(data := c.data[key := e], order := [key] + rest)
            else
              && key !in c.data && |rest| == c.limit
              && Write(c, key, e) == c.(data := c.data[key := e] - {rest[|rest| - 1]},
                                        order := [key] + rest[..|rest| - 1])
  {
    RestShape(c, key);
    var rest := Rest(c, key);
    if key !in c.data && |rest| == c.limit {
      var full := [key] + c.order;
      assert full[|full| - 1] == rest[|rest| - 1];
      assert full[..|full| - 1] == [key] + rest[..|rest| - 1];
    }
  }

  lemma {:induction false} CutShape<T>(x: T, rest: seq<T>)
    requires Distinct([x] + rest) && rest != []
    ensures Distinct([x] + rest[..|rest| - 1])
    ensures forall k :: k in rest[..|rest| - 1] <==> k in rest && k != rest[|rest| - 1]
    ensures x != rest[|rest| - 1]
  {
    var full, n := [x] + rest, |rest| - 1;
    assert full[0] != full[n + 1];
    assert [x] + rest[..n] == full[..n + 1];
    assert rest == rest[..n] + [rest[n]];
    DistinctTail(x, rest);
  }

  lemma {:induction false} WriteKeepsInv<V>(c: Cache<V>, key: Key, e: Entry<V>)
    requires Inv(c)
    ensures Inv(Write(c, key, e))
    ensures key in Write(c, key, e).data && Write(c, key, e).data[key] == e
  {
    if c.limit > 0 {
      var rest := Rest(c, key);
      RestShape(c, key);
      WriteShape(c, key, e);
      if |rest| == c.limit {
        CutShape(key, rest);
      }
    }
  }

  lemma {:induction false} TouchIsWrite<V>(c: Cache<V>, key: Key)
    requires key in c.data
    ensures Touch(c, key) == Write(c, key, c.data[key])
  {
    assert c.data[key := c.data[key]] == c.data;
  }

  lemma {:induction false} DropKeepsInv<V>(c: Cache<V>, keys: set<Key>)
    requires Inv(c)
    ensures Inv(Drop(c, keys))
  {
    KeepDistinct(c.order, Elems(c.order) - keys);
    KeepMembers(c.order, Elems(c.order) - keys);
  }

  lemma {:induction false} StepKeepsInv<V>(c: Cache<V>, t: Timed<V>)
    requires Inv(c)
    ensures Inv(Step(c, t)) && Step(c, t).limit == c.limit && Step(c, t).expire == c.expire
  {
    match t.op
    case SetOp(key, value, ttl, draw) =>
      WriteKeepsInv(c, key, Entry(value, Deadline(c.expire, ttl, draw, t.now)));
    case GetOp(key) =>
      GetKeepsInv(c, key, t.now);
    case DeleteOp(keys) =>
      DropKeepsInv(c, Elems(keys));
    case ExpireOp(key, ttl, draw) =>
      DropKeepsInv(c, {key});
    case ScanOp =>
      DropKeepsInv(c, ExpiredKeys(c.data, t.now));
    case AddOp(key, init, addTo, draw) =>
      AddKeepsInv(c, key, init, addTo, draw, t.now);
  }

  lemma {:induction false} GetKeepsInv<V>(c: Cache<V>, key: Key, now: int)
    requires Inv(c)
    ensures Inv(Get(c, key, now))
  {
    if key in c.data {
      if Expired(c.data[key], now) {
        DropKeepsInv(c, {key});
      } else {
        TouchIsWrite(c, key);
        WriteKeepsInv(c, key, c.data[key]);
      }
    }
  }

  lemma {:induction false} AddKeepsInv<V>(c: Cache<V>, key: Key, init: V, addTo: V -> Option<V>, draw: real, now: int)
    requires Inv(c)
    ensures Inv(AddDelta(c, key, init, addTo, draw, now))
  {
    if key !in c.data || Expired(c.data[key], now) {
      WriteKeepsInv(c, key, Entry(init, Deadline(c.expire, 0, draw, now)));
    } else if addTo(c.data[key].value).Some? {
      WriteKeepsInv(c, key, c.data[key].(value := addTo(c.data[key].value).value));
    }
  }

  /** With a limit set, every reachable state has equal key sets, no duplicates and at most `limit` keys. */
  lemma {:induction false} RunKeepsInv<V>(limit: int, expire: int, trace: seq<Timed<V>>)
    ensures var c := Run(Empty<V>(limit, expire), trace);
            Inv(c) && c.limit == limit && c.expire == expire && (limit > 0 ==> |c.data| <= limit)
  {
    if trace != [] {
      RunKeepsInv<V>(limit, expire, trace[..|trace| - 1]);
      StepKeepsInv(Run(Empty<V>(limit, expire), trace[..|trace| - 1]), trace[|trace| - 1]);
    }
    var c := Run(Empty<V>(limit, expire), trace);
    if limit > 0 {
      assert c.data.Keys == Elems(c.order);
      ElemsSize(c.order);
    }
  }

  lemma {:induction false} ElemsSize<T>(s: seq<T>)
    ensures |Elems(s)| <= |s|
  {
    if s != [] {
      ElemsSize(s[1..]);
      assert Elems(s) == {s[0]} + Elems(s[1..]);
    }
  }
}
