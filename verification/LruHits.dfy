/**
 What a limited cache of cache/memcache.go is sure to hold: the hit law of LRU over whole
 runs. The reference is the number of distinct keys touched since the last touch of a key.
 */
module LruHits {
  import opened Options
  import opened Sequences
  import opened CacheSpec
  import opened LruInclusion
  import opened CacheHistory

  /** The keys touched since the last touch of this one. */
  function Since(stamps: map<Key, nat>, key: Key): set<Key>
    requires key in stamps
  {
    set k | k in stamps && stamps[k] > stamps[key]
  }

  // ---------------------------------------------------------------- invariant

  /** A kept key that is absent was touched before all present ones, and n others were touched since. */
  ghost predicate Explained<V>(c: Cache<V>, stamps: map<Key, nat>, key: Key, kept: bool) {
    && (kept ==> key in stamps)
    && (kept && key !in c.data ==>
          && |Since(stamps, key)| >= c.limit
          && forall k :: k in c.data ==> k in stamps && stamps[k] > stamps[key])
  }

  lemma {:induction false} SetSize<T>(a: set<T>, b: set<T>)
    requires a <= b
    ensures |a| <= |b|
  {
    assert b == a + (b - a);
  }

  /** New touches only add to the keys touched since. */
  lemma {:induction false} SinceGrows(stamps: map<Key, nat>, touched: set<Key>, n: nat, key: Key)
    requires key in stamps && key !in touched && forall k :: k in stamps ==> stamps[k] < n
    ensures Stamped(stamps, touched, n)[key] == stamps[key]
    ensures |Since(Stamped(stamps, touched, n), key)| >= |Since(stamps, key)|
  {
    SetSize(Since(stamps, key), Since(Stamped(stamps, touched, n), key));
  }

  /** The evicted key: everything left in the list, and the key written, was touched since. */
  lemma {:induction false} EvictedSince(order: seq<Key>, stamps: map<Key, nat>, key: Key, n: nat)
    requires order != [] && Distinct(order) && Ranked(order, stamps) && key !in order
    requires forall k :: k in stamps ==> stamps[k] < n
    ensures |Since(stamps[key := n], order[|order| - 1])| >= |order|
  {
    var last, rest := order[|order| - 1], order[..|order| - 1];
    var stamps' := stamps[key := n];
    LastIsLeast(order, stamps);
    ElemsExact(rest);
    assert forall k :: k in rest ==> k in order && k != last;
    assert |Elems(rest) + {key}| == |order|;
    SetSize(Elems(rest) + {key}, Since(stamps', last));
  }

  lemma {:induction false} ElemsExact<T>(s: seq<T>)
    requires Distinct(s)
    ensures |Elems(s)| == |s|
  {
    if s != [] {
      var front, last := s[..|s| - 1], s[|s| - 1];
      ElemsExact(front);
      assert last !in front;
      assert Elems(s) == Elems(front) + {last};
    }
  }

  // ---------------------------------------------------------------- one step

  /** A write of another key, with the eviction it may cause. */
  lemma {:induction false} OtherWriteExplained<V>(c: Cache<V>, written: Key, e: Entry<V>, stamps: map<Key, nat>, n: nat,
                                                  key: Key, kept: bool)
    requires Inv(c) && c.limit > 0 && Ranked(c.order, stamps) && Explained(c, stamps, key, kept)
    requires key != written && forall k :: k in stamps ==> stamps[k] < n
    ensures Explained(Write(c, written, e), stamps[written := n], key, kept)
  {
    var c', stamps' := Write(c, written, e), stamps[written := n];
    WriteWithin(c, written, e);
    if kept && key !in c'.data {
      if key in c.data {
        EvictsLast(c, written, e, key, stamps);
        LastIsLeast(c.order, stamps);
        assert c.order[|c.order| - 1] == key;
        EvictedSince(c.order, stamps, written, n);
      } else {
        StampedOne(stamps, written, n);
        SinceGrows(stamps, {written}, n, key);
      }
    }
  }

  lemma {:induction false} WriteExplained<V>(c: Cache<V>, written: Key, e: Entry<V>, stamps: map<Key, nat>, n: nat,
                                             key: Key, kept: bool)
    requires Inv(c) && c.limit > 0 && Ranked(c.order, stamps) && Explained(c, stamps, key, kept)
    requires forall k :: k in stamps ==> stamps[k] < n
    ensures Explained(Write(c, written, e), Stamped(stamps, {written}, n), key, written == key || kept)
  {
    StampedOne(stamps, written, n);
    if written == key {
      WriteKeepsInv(c, written, e);
    } else {
      OtherWriteExplained(c, written, e, stamps, n, key, kept);
    }
  }

  /** A step that touches nothing and drops the key only when it no longer survives. */
  lemma {:induction false} QuietExplained<V>(c: Cache<V>, c': Cache<V>, stamps: map<Key, nat>, n: nat, key: Key,
                                             kept: bool, kept': bool)
    requires Explained(c, stamps, key, kept) && c'.limit == c.limit && c'.data.Keys <= c.data.Keys
    requires (kept' ==> kept) && (kept' && key in c.data ==> key in c'.data)
    ensures Explained(c', Stamped(stamps, {}, n), key, kept')
  {
    StampedOne(stamps, key, n);
  }

  lemma {:induction false} GetExplained<V>(c: Cache<V>, t: Timed<V>, w: map<Key, Entry<V>>, stamps: map<Key, nat>, n: nat,
                                           key: Key, kept: bool)
    requires Inv(c) && c.limit > 0 && Ranked(c.order, stamps) && Explained(c, stamps, key, kept)
    requires Submap(c.data, w) && t.op.GetOp? && (key in c.data ==> kept)
    requires forall k :: k in stamps ==> stamps[k] < n
    ensures Explained(Step(c, t), Stamped(stamps, Touched(c, t), n), key, Survives(t, w, key, kept))
  {
    var k := t.op.key;
    if Hit(c, k, t.now).Some? {
      TouchIsWrite(c, k);
      WriteExplained(c, k, c.data[k], stamps, n, key, kept);
    } else {
      QuietExplained(c, Step(c, t), stamps, n, key, kept, Survives(t, w, key, kept));
    }
  }

  lemma {:induction false} AddExplained<V>(c: Cache<V>, t: Timed<V>, w: map<Key, Entry<V>>, stamps: map<Key, nat>, n: nat,
                                           key: Key, kept: bool)
    requires Inv(c) && c.limit > 0 && Ranked(c.order, stamps) && Explained(c, stamps, key, kept)
    requires t.op.AddOp? && (key in c.data ==> kept)
    requires forall k :: k in stamps ==> stamps[k] < n
    ensures Explained(Step(c, t), Stamped(stamps, Touched(c, t), n), key, Survives(t, w, key, kept))
  {
    var k := t.op.key;
    if Hit(c, k, t.now).None? {
      WriteExplained(c, k, Entry(t.op.init, Deadline(c.expire, 0, t.op.draw, t.now)), stamps, n, key, kept);
    } else {
      var sum := t.op.addTo(c.data[k].value);
      if sum.Some? {
        WriteExplained(c, k, c.data[k].(value := sum.value), stamps, n, key, kept);
      } else {
        QuietExplained(c, Step(c, t), stamps, n, key, kept, Survives(t, w, key, kept));
      }
    }
  }

  lemma {:induction false} StepExplained<V>(c: Cache<V>, t: Timed<V>, w: map<Key, Entry<V>>, stamps: map<Key, nat>, n: nat,
                                            key: Key, kept: bool)
    requires Inv(c) && c.limit > 0 && Ranked(c.order, stamps) && Explained(c, stamps, key, kept)
    requires Submap(c.data, w) && (key in c.data ==> kept)
    requires forall k :: k in stamps ==> stamps[k] < n
    ensures Explained(Step(c, t), Stamped(stamps, Touched(c, t), n), key, Survives(t, w, key, kept))
  {
    match t.op
    case SetOp(k, value, ttl, draw) =>
      WriteExplained(c, k, Entry(value, Deadline(c.expire, ttl, draw, t.now)), stamps, n, key, kept);
    case GetOp(_) =>
      GetExplained(c, t, w, stamps, n, key, kept);
    case AddOp(_, _, _, _) =>
      AddExplained(c, t, w, stamps, n, key, kept);
    case _ =>
      QuietExplained(c, Step(c, t), stamps, n, key, kept, Survives(t, w, key, kept));
  }

  // ---------------------------------------------------------------- whole runs

  lemma {:induction false} RunExplained<V>(limit: int, expire: int, trace: seq<Timed<V>>, key: Key)
    requires limit > 0
    ensures var c0 := Empty<V>(limit, expire);
            Explained(Run(c0, trace), Stamps(c0, trace), key, Kept(c0, trace, key))
  {
    if trace != [] {
      var before, t, c0 := trace[..|trace| - 1], trace[|trace| - 1], Empty<V>(limit, expire);
      RunExplained<V>(limit, expire, before, key);
      RunKeepsInv<V>(limit, expire, before);
      OrderIsRecency<V>(limit, expire, before);
      HitIsLastWrite<V>(limit, expire, before, key, t.now);
      PresentIff<V>(limit, expire, before, key);
      StepExplained(Run(c0, before), t, Written(c0, before), Stamps(c0, before), |trace|, key, Kept(c0, before, key));
    }
  }

  /** The keys touched since that have not been deleted or collected themselves. */
  function KeptSince<V>(c: Cache<V>, trace: seq<Timed<V>>, key: Key): set<Key>
    requires key in Stamps(c, trace)
  {
    set k | k in Since(Stamps(c, trace), key) && Kept(c, trace, k)
  }

  /** A kept key since whose last touch fewer than n distinct other keys were touched is present. */
  lemma {:induction false} FewSinceIsPresent<V>(limit: int, expire: int, trace: seq<Timed<V>>, key: Key)
    requires limit > 0 && Kept(Empty<V>(limit, expire), trace, key)
    ensures var c0 := Empty<V>(limit, expire);
            && key in Stamps(c0, trace)
            && (|Since(Stamps(c0, trace), key)| < limit ==> key in Run(c0, trace).data)
  {
    RunKeepsInv<V>(limit, expire, trace);
    RunExplained<V>(limit, expire, trace, key);
  }

  /** A present key holds what was last written, is kept, and fewer than n kept keys were touched since. */
  lemma {:induction false} PresentIsRecent<V>(limit: int, expire: int, trace: seq<Timed<V>>, key: Key)
    requires limit > 0 && key in Run(Empty<V>(limit, expire), trace).data
    ensures var c0 := Empty<V>(limit, expire);
            && Kept(c0, trace, key) && key in Stamps(c0, trace) && |KeptSince(c0, trace, key)| < limit
            && key in Written(c0, trace) && Run(c0, trace).data[key] == Written(c0, trace)[key]
  {
    PresentIff<V>(limit, expire, trace, key);
    FewSinceIsPresent<V>(limit, expire, trace, key);
    HitIsLastWrite<V>(limit, expire, trace, key, 0);
    FewKeptSince<V>(limit, expire, trace, key);
  }

  lemma {:induction false} FewKeptSince<V>(limit: int, expire: int, trace: seq<Timed<V>>, key: Key)
    requires limit > 0 && key in Run(Empty<V>(limit, expire), trace).data
    requires key in Stamps(Empty<V>(limit, expire), trace)
    ensures |KeptSince(Empty<V>(limit, expire), trace, key)| < limit
  {
    var c0 := Empty<V>(limit, expire);
    var c, since := Run(c0, trace), KeptSince(c0, trace, key);
    RunKeepsInv<V>(limit, expire, trace);
    forall k | k in since ensures k in c.data && k != key {
      RunExplained<V>(limit, expire, trace, k);
    }
    SetSize(since + {key}, c.data.Keys);
  }

  /** When every key touched since is still kept, the law is exact: a hit if and only if fewer than n were. */
  lemma {:induction false} HitIff<V>(limit: int, expire: int, trace: seq<Timed<V>>, key: Key, now: int)
    requires limit > 0 && Kept(Empty<V>(limit, expire), trace, key) && key in Stamps(Empty<V>(limit, expire), trace)
    requires forall k :: k in Since(Stamps(Empty<V>(limit, expire), trace), key) ==> Kept(Empty<V>(limit, expire), trace, k)
    ensures var c0 := Empty<V>(limit, expire);
            var w := Written(c0, trace);
            && key in w
            && Hit(Run(c0, trace), key, now)
               == if |Since(Stamps(c0, trace), key)| < limit && !Expired(w[key], now) then Some(w[key].value) else None
  {
    var c0 := Empty<V>(limit, expire);
    FewSinceIsPresent<V>(limit, expire, trace, key);
    assert KeptSince(c0, trace, key) == Since(Stamps(c0, trace), key);
    if key in Run(c0, trace).data {
      PresentIsRecent<V>(limit, expire, trace, key);
    }
    KeptWritten<V>(limit, expire, trace, key);
  }

  lemma {:induction false} KeptWritten<V>(limit: int, expire: int, trace: seq<Timed<V>>, key: Key)
    requires Kept(Empty<V>(limit, expire), trace, key)
    ensures key in Written(Empty<V>(limit, expire), trace)
  {
    var before, t, c0 := trace[..|trace| - 1], trace[|trace| - 1], Empty<V>(limit, expire);
    if Kept(c0, before, key) {
      KeptWritten<V>(limit, expire, before, key);
    }
  }

  // ---------------------------------------------------------------- a write is there

  /** The lifetime SetEx asks for: its own ttl, else the default; None means forever. */
  function Lifetime(expire: int, ttl: int): Option<int> {
    if ttl > 0 then Some(ttl) else if expire > 0 then Some(expire) else None
  }

  /** Within the lifetime less its jitter the entry is alive, beyond the lifetime plus its jitter it is not. */
  lemma {:induction false} DeadlineMeets<V>(expire: int, ttl: int, draw: real, now: int, later: int, value: V)
    requires 0.0 <= draw < 1.0
    ensures var e, life := Entry(value, Deadline(expire, ttl, draw, now)), Lifetime(expire, ttl);
            if life.None? then !Expired(e, later)
            else
              && ((later - now) as real <= 0.95 * life.value as real - 1.0 ==> !Expired(e, later))
              && ((later - now) as real > 1.05 * life.value as real ==> Expired(e, later))
  {
    var life := Lifetime(expire, ttl);
    if life.Some? {
      JitterRange(life.value, draw);
    }
  }

  /** Under any limit, a value just set is found for at least its lifetime less the jitter. */
  lemma {:induction false} SetThenGet<V>(limit: int, expire: int, trace: seq<Timed<V>>,
                                         key: Key, value: V, ttl: int, draw: real, now: int, later: int)
    requires 0.0 <= draw < 1.0
    ensures var c := Run(Empty<V>(limit, expire), trace + [At(now, SetOp(key, value, ttl, draw))]);
            var life := Lifetime(expire, ttl);
            && key in c.data && c.data[key].value == value
            && (life.None? || (later - now) as real <= 0.95 * life.value as real - 1.0 ==>
                  Hit(c, key, later) == Some(value))
            && (life.Some? && (later - now) as real > 1.05 * life.value as real ==> Hit(c, key, later) == None)
  {
    RunMore(Empty<V>(limit, expire), trace, At(now, SetOp(key, value, ttl, draw)));
    RunKeepsInv<V>(limit, expire, trace);
    WriteKeepsInv(Run(Empty<V>(limit, expire), trace), key, Entry(value, Deadline(expire, ttl, draw, now)));
    DeadlineMeets(expire, ttl, draw, now, later, value);
  }

  /**
   Under any limit, Increment and Decrement initialise a key that is missing or expired, update
   one they find, and leave it as it is when its value is not numeric.
   */
  lemma {:induction false} AddThenGet<V>(limit: int, expire: int, trace: seq<Timed<V>>,
                                         key: Key, init: V, addTo: V -> Option<V>, draw: real, now: int)
    ensures var c := Run(Empty<V>(limit, expire), trace);
            var c' := Run(Empty<V>(limit, expire), trace + [At(now, AddOp(key, init, addTo, draw))]);
            && key in c'.data
            && match Hit(c, key, now)
               case None => c'.data[key].value == init
               case Some(v) => c'.data[key] == c.data[key].(value := if addTo(v).Some? then addTo(v).value else v)
  {
    var c := Run(Empty<V>(limit, expire), trace);
    RunMore(Empty<V>(limit, expire), trace, At(now, AddOp(key, init, addTo, draw)));
    RunKeepsInv<V>(limit, expire, trace);
    if Hit(c, key, now).None? {
      WriteKeepsInv(c, key, Entry(init, Deadline(expire, 0, draw, now)));
    } else {
      var sum := addTo(c.data[key].value);
      if sum.Some? {
        WriteKeepsInv(c, key, c.data[key].(value := sum.value));
      }
    }
  }
}
