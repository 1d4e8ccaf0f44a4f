/**
 LRU inclusion for the cache of cache/memcache.go. A missed Get leaves the recency list
 alone, so the smaller list is not a prefix of the larger one; it is a subsequence, and the
 surplus of the larger list never exceeds the difference of the limits.
 */
module LruInclusion {
  import opened Options
  import opened Sequences
  import opened CacheSpec

  ghost predicate Submap<V>(a: map<Key, Entry<V>>, b: map<Key, Entry<V>>) {
    forall k :: k in a ==> k in b && b[k] == a[k]
  }

  ghost predicate Included<V>(s: Cache<V>, l: Cache<V>) {
    Inv(s) && Inv(l) && Tied(s, l)
  }

  ghost predicate Tied<V>(s: Cache<V>, l: Cache<V>) {
    && 0 < s.limit <= l.limit && s.expire == l.expire
    && Submap(s.data, l.data)
    && s.order == Keep(l.order, s.data.Keys)
    && |l.order| - |s.order| <= l.limit - s.limit
  }

  /** Operations whose effect does not depend on what a fetch or a previous value returned. */
  predicate Comparable<V>(t: Timed<V>) {
    !t.op.AddOp?
  }

  // ---------------------------------------------------------------- removals

  lemma {:induction false} DropIncluded<V>(s: Cache<V>, l: Cache<V>, sk: set<Key>, lk: set<Key>)
    requires Included(s, l)
    requires forall k :: k in s.data ==> (k in sk <==> k in lk)
    ensures Included(Drop(s, sk), Drop(l, lk))
  {
    var s', l' := Drop(s, sk), Drop(l, lk);
    DropKeepsInv(s, sk);
    DropKeepsInv(l, lk);
    var u := Elems(l.order) - lk;
    KeepKeep(l.order, s.data.Keys, u);
    KeepMembers(l.order, s.data.Keys);
    KeepSame(s.order, Elems(s.order) - sk, u);
    assert s'.order == Keep(l.order, s.data.Keys * u);
    KeepKeep(l.order, u, s'.data.Keys);
    KeepSame(l.order, s.data.Keys * u, u * s'.data.Keys);
    KeepSurplus(l.order, s.data.Keys, u);
  }

  // ---------------------------------------------------------------- writes

  /** What lies behind the written key in the two lists is again related. */
  lemma {:induction false} RestIncluded<V>(s: Cache<V>, l: Cache<V>, key: Key)
    requires Included(s, l)
    ensures Rest(s, key) == Keep(Rest(l, key), s.data.Keys - {key})
    ensures |Rest(l, key)| - |Rest(s, key)| <= l.limit - s.limit
  {
    var behind := s.data.Keys - {key};
    RestShape(s, key);
    RestShape(l, key);
    KeepKeep(l.order, s.data.Keys, Elems(s.order) - {key});
    KeepKeep(l.order, Elems(l.order) - {key}, behind);
    KeepSame(l.order, s.data.Keys * (Elems(s.order) - {key}), (Elems(l.order) - {key}) * behind);
  }

  /** Cutting the last key off the smaller list. */
  lemma {:induction false} CutSmall(rs: seq<Key>, rl: seq<Key>, behind: set<Key>)
    requires Distinct(rl) && rs == Keep(rl, behind) && rs != []
    ensures Keep(rl, behind - {rs[|rs| - 1]}) == rs[..|rs| - 1]
  {
    var behind' := behind - {rs[|rs| - 1]};
    KeepDistinct(rl, behind);
    KeepMembers(rl, behind);
    KeepKeep(rl, behind, behind');
    assert behind * behind' == behind';
    KeepButLast(rs, behind');
  }

  /** A key at the end of the larger list is absent from the smaller one or at its end too. */
  lemma {:induction false} CutLarge(front: seq<Key>, x: Key, behind: set<Key>)
    ensures Keep(front + [x], behind) == if x in behind then Keep(front, behind) + [x] else Keep(front, behind)
  {
    KeepConcat(front, [x], behind);
  }

  lemma {:induction false} CutBoth(rs: seq<Key>, rl: seq<Key>, behind: set<Key>)
    requires Distinct(rl) && rs == Keep(rl, behind) && rs != [] && rl != []
    ensures Keep(rl[..|rl| - 1], behind - {rs[|rs| - 1]}) == rs[..|rs| - 1]
    ensures rl[|rl| - 1] in behind ==> rl[|rl| - 1] == rs[|rs| - 1]
  {
    var front, x, y := rl[..|rl| - 1], rl[|rl| - 1], rs[|rs| - 1];
    CutSmall(rs, rl, behind);
    assert rl == front + [x];
    CutLarge(front, x, behind);
    CutLarge(front, x, behind - {y});
  }

  lemma {:induction false} WriteIncluded<V>(s: Cache<V>, l: Cache<V>, key: Key, e: Entry<V>)
    requires Included(s, l)
    ensures Included(Write(s, key, e), Write(l, key, e))
  {
    WriteKeepsInv(s, key, e);
    WriteKeepsInv(l, key, e);
    if |Rest(s, key)| < s.limit {
      WriteIncludedWhole(s, l, key, e);
    } else if |Rest(l, key)| < l.limit {
      WriteIncludedCutOne(s, l, key, e);
    } else {
      WriteIncludedCutBoth(s, l, key, e);
    }
  }

  /** The smaller cache does not evict; then neither does the larger one. */
  lemma {:induction false} WriteIncludedWhole<V>(s: Cache<V>, l: Cache<V>, key: Key, e: Entry<V>)
    requires Included(s, l)
    requires |Rest(s, key)| < s.limit
    ensures Tied(Write(s, key, e), Write(l, key, e))
  {
    RestIncluded(s, l, key);
    WriteShape(s, key, e);
    WriteShape(l, key, e);
    RestShape(l, key);
    FrontKept(key, Rest(l, key), s.data.Keys - {key}, Write(s, key, e).data.Keys);
  }

  /** Only the smaller cache evicts. */
  lemma {:induction false} WriteIncludedCutOne<V>(s: Cache<V>, l: Cache<V>, key: Key, e: Entry<V>)
    requires Included(s, l)
    requires |Rest(s, key)| >= s.limit && |Rest(l, key)| < l.limit
    ensures Tied(Write(s, key, e), Write(l, key, e))
  {
    var rs, rl := Rest(s, key), Rest(l, key);
    RestIncluded(s, l, key);
    RestDistinct(l, key);
    Evicts(s, key, e);
    WriteShape(l, key, e);
    assert s.data.Keys - {key} == s.data.Keys;
    CutSmall(rs, rl, s.data.Keys);
    CutStep(s.data, l.data, l.data[key := e], rs, rl, rl, key, e);
  }

  /** Both evict: the larger cache drops a key that the smaller one lacks or drops as well. */
  lemma {:induction false} WriteIncludedCutBoth<V>(s: Cache<V>, l: Cache<V>, key: Key, e: Entry<V>)
    requires Included(s, l)
    requires |Rest(s, key)| >= s.limit && |Rest(l, key)| >= l.limit
    ensures Tied(Write(s, key, e), Write(l, key, e))
  {
    var rs, rl := Rest(s, key), Rest(l, key);
    RestIncluded(s, l, key);
    RestDistinct(l, key);
    Evicts(s, key, e);
    Evicts(l, key, e);
    assert s.data.Keys - {key} == s.data.Keys;
    CutBoth(rs, rl, s.data.Keys);
    CutBothTied(s, l, key, e, rs, rl);
  }

  lemma {:induction false} RestDistinct<V>(c: Cache<V>, key: Key)
    requires Inv(c) && c.limit > 0
    ensures Distinct(Rest(c, key)) && key !in Rest(c, key)
  {
    RestShape(c, key);
    DistinctTail(key, Rest(c, key));
  }

  /** The evicting case of a write. */
  lemma {:induction false} Evicts<V>(c: Cache<V>, key: Key, e: Entry<V>)
    requires Inv(c) && c.limit > 0 && |Rest(c, key)| >= c.limit
    ensures key !in c.data && |Rest(c, key)| == c.limit
    ensures var rest := Rest(c, key);
            Write(c, key, e) == c.(data := c.data[key := e] - {rest[|rest| - 1]}, order := [key] + rest[..|rest| - 1])
  {
    WriteShape(c, key, e);
  }

  lemma {:induction false} CutBothTied<V>(s: Cache<V>, l: Cache<V>, key: Key, e: Entry<V>, rs: seq<Key>, rl: seq<Key>)
    requires 0 < s.limit <= l.limit && s.expire == l.expire && Submap(s.data, l.data)
    requires key !in s.data && key !in rl && |rs| == s.limit && |rl| == l.limit
    requires rs == Keep(rl, s.data.Keys)
    requires Keep(rl[..|rl| - 1], s.data.Keys - {rs[|rs| - 1]}) == rs[..|rs| - 1]
    requires rl[|rl| - 1] in s.data.Keys ==> rl[|rl| - 1] == rs[|rs| - 1]
    ensures Tied(s.(data := s.data[key := e] - {rs[|rs| - 1]}, order := [key] + rs[..|rs| - 1]),
                 l.(data := l.data[key := e] - {rl[|rl| - 1]}, order := [key] + rl[..|rl| - 1]))
  {
    CutStep(s.data, l.data, l.data[key := e] - {rl[|rl| - 1]}, rs, rl, rl[..|rl| - 1], key, e);
  }

  lemma {:induction false} CutStep<V>(sd: map<Key, Entry<V>>, ld: map<Key, Entry<V>>, ld': map<Key, Entry<V>>,
                   rs: seq<Key>, rl: seq<Key>, rl': seq<Key>, key: Key, e: Entry<V>)
    requires Submap(sd, ld) && key !in sd && key !in rl && rl' <= rl
    requires rs != [] && rs == Keep(rl, sd.Keys)
    requires Keep(rl', sd.Keys - {rs[|rs| - 1]}) == rs[..|rs| - 1]
    requires ld' == ld[key := e]
          || (rl != [] && ld' == ld[key := e] - {rl[|rl| - 1]}
              && (rl[|rl| - 1] in sd ==> rl[|rl| - 1] == rs[|rs| - 1]))
    ensures var sd' := sd[key := e] - {rs[|rs| - 1]};
            Submap(sd', ld') && Keep([key] + rl', sd'.Keys) == [key] + rs[..|rs| - 1]
  {
    var y := rs[|rs| - 1];
    var sd' := sd[key := e] - {y};
    KeepMembers(rl, sd.Keys);
    assert y in rs;
    assert forall k :: k in rl' ==> k in rl;
    FrontKept(key, rl', sd.Keys - {y}, sd'.Keys);
  }

  lemma {:induction false} FrontKept(key: Key, rest: seq<Key>, behind: set<Key>, keep: set<Key>)
    requires key in keep
    requires forall k :: k in rest ==> (k in behind <==> k in keep)
    ensures Keep([key] + rest, keep) == [key] + Keep(rest, behind)
  {
    KeepSame(rest, behind, keep);
    assert ([key] + rest)[1..] == rest;
  }

  // ---------------------------------------------------------------- hits only the larger cache sees

  lemma {:induction false} TouchLargeIncluded<V>(s: Cache<V>, l: Cache<V>, key: Key)
    requires Included(s, l)
    requires key in l.data && key !in s.data
    ensures Included(s, Touch(l, key))
  {
    TouchIsWrite(l, key);
    WriteKeepsInv(l, key, l.data[key]);
    RestShape(l, key);
    RestShape(s, key);
    RestIncluded(s, l, key);
    var rest := Rest(l, key);
    KeepSame(rest, s.data.Keys - {key}, s.data.Keys);
    assert ([key] + rest)[1..] == rest;
  }

  // ---------------------------------------------------------------- the theorem

  lemma {:induction false} StepIncluded<V>(s: Cache<V>, l: Cache<V>, t: Timed<V>)
    requires Included(s, l) && Comparable(t)
    ensures Included(Step(s, t), Step(l, t))
  {
    match t.op
    case SetOp(key, value, ttl, draw) =>
      WriteIncluded(s, l, key, Entry(value, Deadline(s.expire, ttl, draw, t.now)));
    case GetOp(key) =>
      GetIncluded(s, l, key, t.now);
    case DeleteOp(keys) =>
      DropIncluded(s, l, Elems(keys), Elems(keys));
    case ExpireOp(key, ttl, draw) =>
      ExpireIncluded(s, l, key, ttl, draw, t.now);
    case ScanOp =>
      DropIncluded(s, l, ExpiredKeys(s.data, t.now), ExpiredKeys(l.data, t.now));
  }

  lemma {:induction false} GetIncluded<V>(s: Cache<V>, l: Cache<V>, key: Key, now: int)
    requires Included(s, l)
    ensures Included(Get(s, key, now), Get(l, key, now))
  {
    if key in l.data {
      if Expired(l.data[key], now) {
        DropIncluded(s, l, {key}, {key});
        if key !in s.data {
          DropNothing(s, key);
        }
      } else if key in s.data {
        TouchIsWrite(s, key);
        TouchIsWrite(l, key);
        WriteIncluded(s, l, key, s.data[key]);
      } else {
        TouchLargeIncluded(s, l, key);
      }
    }
  }

  lemma {:induction false} DropNothing<V>(c: Cache<V>, key: Key)
    requires Inv(c) && key !in c.data
    ensures Drop(c, {key}) == c
  {
    assert c.data - {key} == c.data;
    KeepAll(c.order, Elems(c.order) - {key});
  }

  lemma {:induction false} ExpireIncluded<V>(s: Cache<V>, l: Cache<V>, key: Key, ttl: int, draw: real, now: int)
    requires Included(s, l)
    ensures Included(ExpireKey(s, key, ttl, draw, now), ExpireKey(l, key, ttl, draw, now))
  {
    if ttl <= 0 {
      DropIncluded(s, l, {key}, {key});
      if key !in s.data { DropNothing(s, key); }
      if key !in l.data { DropNothing(l, key); }
    } else {
      KeepSame(l.order, s.data.Keys, ExpireKey(s, key, ttl, draw, now).data.Keys);
    }
  }

  /**
   LRU inclusion: along every trace with the same clock and the same jitter draws, the
   contents of the smaller cache are a submap of the contents of the larger one, so every
   hit of the smaller cache is the same hit of the larger one.
   */
  lemma {:induction false} LruInclusion<V>(n: int, m: int, expire: int, trace: seq<Timed<V>>, key: Key, now: int)
    requires 1 <= n <= m
    requires forall i :: 0 <= i < |trace| ==> Comparable(trace[i])
    ensures var s, l := Run(Empty<V>(n, expire), trace), Run(Empty<V>(m, expire), trace);
            Included(s, l) && (Hit(s, key, now).Some? ==> Hit(l, key, now) == Hit(s, key, now))
  {
    if trace != [] {
      var before, last := trace[..|trace| - 1], trace[|trace| - 1];
      LruInclusion<V>(n, m, expire, before, key, now);
      StepIncluded(Run(Empty<V>(n, expire), before), Run(Empty<V>(m, expire), before), last);
    }
  }

  // ---------------------------------------------------------------- the unlimited cache

  ghost predicate IncludedUnlimited<V>(s: Cache<V>, l: Cache<V>) {
    Inv(s) && s.limit > 0 && l.limit <= 0 && l.order == [] && s.expire == l.expire && Submap(s.data, l.data)
  }

  /** The unlimited cache contains every limited one along the same trace. */
  lemma {:induction false} UnlimitedIncludesAll<V>(n: int, expire: int, trace: seq<Timed<V>>)
    requires 1 <= n
    requires forall i :: 0 <= i < |trace| ==> Comparable(trace[i])
    ensures IncludedUnlimited(Run(Empty<V>(n, expire), trace), Run(Empty<V>(0, expire), trace))
  {
    if trace != [] {
      var before, t := trace[..|trace| - 1], trace[|trace| - 1];
      var s, l := Run(Empty<V>(n, expire), before), Run(Empty<V>(0, expire), before);
      UnlimitedIncludesAll<V>(n, expire, before);
      StepKeepsInv(s, t);
      StepUnlimited(s, l, t);
    }
  }

  lemma {:induction false} StepUnlimited<V>(s: Cache<V>, l: Cache<V>, t: Timed<V>)
    requires IncludedUnlimited(s, l) && Comparable(t)
    ensures Submap(Step(s, t).data, Step(l, t).data)
    ensures Step(l, t).order == [] && Step(l, t).limit == l.limit && Step(l, t).expire == l.expire
  {
    match t.op
    case SetOp(key, value, ttl, draw) =>
      WriteShape(s, key, Entry(value, Deadline(s.expire, ttl, draw, t.now)));
    case GetOp(key) =>
      if key in s.data {
        TouchIsWrite(s, key);
        WriteShape(s, key, s.data[key]);
      }
    case DeleteOp(keys) =>
    case ExpireOp(key, ttl, draw) =>
    case ScanOp =>
  }
}
