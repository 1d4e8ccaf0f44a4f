/**
 MemCache and keyLru of cache/memcache.go with their mutable fields. Every method is proved
 to move the abstract state by the corresponding function of CacheSpec, so the theorems of
 LruInclusion and CacheHistory speak about these objects. Statistics, locks and the
 background loops are not part of the model; each method is one critical section.
 */
module MemCacheImpl {
  import opened Options
  import opened Sequences
  import opened CacheSpec

  /** A node of the recency list, compared by identity as *list.Element is. */
  class Element {
    const key: Key

    constructor (key: Key)
      ensures this.key == key
    {
      this.key := key;
    }
  }

  ghost function KeysOf(es: seq<Element>): (r: seq<Key>)
    ensures |r| == |es|
    ensures forall i :: 0 <= i < |es| ==> r[i] == es[i].key
  {
    seq(|es|, i requires 0 <= i < |es| => es[i].key)
  }

  lemma {:induction false} KeysOfKeep(es: seq<Element>, kept: set<Element>, keys: set<Key>)
    requires forall e :: e in es ==> (e in kept <==> e.key in keys)
    ensures KeysOf(Keep(es, kept)) == Keep(KeysOf(es), keys)
  {
    if es != [] {
      KeysOfKeep(es[1..], kept, keys);
      assert KeysOf(es)[1..] == KeysOf(es[1..]);
    }
  }

  lemma {:induction false} KeysOfCons(e: Element, es: seq<Element>)
    ensures KeysOf([e] + es) == [e.key] + KeysOf(es)
  {
  }

  class KeyLru<V(==)> {
    const limit: int
    const owner: MemCache<V>       // the receiver of the eviction callback
    var evicts: seq<Element>       // front is most recently used
    var elements: map<Key, Element>

    ghost predicate Consistent()
      reads this
    {
      && limit > 0
      && (forall e :: e in evicts ==> e.key in elements && elements[e.key] == e)
      && (forall k :: k in elements ==> elements[k].key == k && elements[k] in evicts)
      && Distinct(evicts)
    }

    ghost function Order(): seq<Key>
      reads this
    {
      KeysOf(evicts)
    }

    constructor (limit: int, owner: MemCache<V>)
      requires limit > 0
      ensures Consistent() && Order() == [] && this.limit == limit && this.owner == owner
    {
      this.limit, this.owner, evicts, elements := limit, owner, [], map[];
    }

    method RemoveElement(e: Element)
      requires Consistent() && e in evicts
      modifies this, owner`data
      ensures Consistent()
      ensures Order() == Keep(old(Order()), Elems(old(Order())) - {e.key})
      ensures owner.data == old(owner.data) - {e.key}
    {
      KeysOfKeep(evicts, Elems(evicts) - {e}, Elems(Order()) - {e.key});
      KeepMembers(evicts, Elems(evicts) - {e});
      KeepDistinct(evicts, Elems(evicts) - {e});
      evicts := Keep(evicts, Elems(evicts) - {e});
      elements := elements - {e.key};
      owner.OnEvict(e.key);
    }

    method Remove(key: Key)
      requires Consistent()
      modifies this, owner`data
      ensures Consistent()
      ensures Order() == Keep(old(Order()), Elems(old(Order())) - {key})
      ensures owner.data == if key in old(Order()) then old(owner.data) - {key} else old(owner.data)
    {
      if key in elements {
        assert elements[key] in evicts;
        RemoveElement(elements[key]);
      } else {
        KeepAll(Order(), Elems(Order()) - {key});
      }
    }

    method RemoveOldest()
      requires Consistent()
      modifies this, owner`data
      ensures Consistent()
      ensures var order := old(Order());
              if order == [] then Order() == [] && owner.data == old(owner.data)
              else Order() == order[..|order| - 1] && owner.data == old(owner.data) - {order[|order| - 1]}
    {
      if |evicts| > 0 {
        ghost var order := Order();
        KeysDistinct();
        KeepButLast(order, Elems(order) - {order[|order| - 1]});
        RemoveElement(evicts[|evicts| - 1]);
      }
    }

    lemma {:induction false} KeysDistinct()
      requires Consistent()
      ensures Distinct(Order())
      ensures forall k :: k in Order() <==> k in elements
    {
      forall k | k in elements
        ensures k in Order()
      {
        var i :| 0 <= i < |evicts| && evicts[i] == elements[k];
        assert Order()[i] == k;
      }
    }

    method MoveToFront(key: Key)
      requires Consistent() && key in elements
      modifies this`evicts
      ensures Consistent()
      ensures Order() == [key] + Keep(old(Order()), Elems(old(Order())) - {key})
    {
      var e := elements[key];
      ghost var others := Elems(evicts) - {e};
      KeysOfKeep(evicts, others, Elems(Order()) - {key});
      KeepMembers(evicts, others);
      KeepDistinct(evicts, others);
      var rest := Keep(evicts, Elems(evicts) - {e});
      KeysOfCons(e, rest);
      evicts := [e] + rest;
      assert forall x :: x in evicts <==> x in old(evicts);
    }

    method PushFront(key: Key)
      requires Consistent() && key !in elements
      modifies this
      ensures Consistent()
      ensures Order() == [key] + old(Order())
    {
      var e := new Element(key);
      KeysOfCons(e, evicts);
      assert e !in evicts;
      evicts := [e] + evicts;
      elements := elements[key := e];
    }

    lemma {:induction false} Indexed(key: Key)
      requires Consistent()
      ensures key in Order() <==> key in elements
    {
      KeysDistinct();
    }

    /** A new key enters at the front; beyond the limit the oldest key leaves. */
    method AddNew(key: Key)
      requires Consistent() && key !in elements
      modifies this, owner`data
      ensures Consistent()
      ensures var pushed := [key] + old(Order());
              if |pushed| > limit
              then Order() == pushed[..|pushed| - 1] && owner.data == old(owner.data) - {pushed[|pushed| - 1]}
              else Order() == pushed && owner.data == old(owner.data)
    {
      PushFront(key);
      if |evicts| > limit {
        RemoveOldest();
      }
    }

    /** keyLru.add: the list and the owner's data move as CacheSpec.Touch says. */
    method Add(key: Key)
      requires Consistent()
      modifies this, owner`data
      ensures Consistent()
      ensures var c := Touch(Cache(limit, 0, old(owner.data), old(Order())), key);
              Order() == c.order && owner.data == c.data
    {
      Indexed(key);
      if key in elements {
        MoveToFront(key);
      } else {
        AddNew(key);
      }
    }
  }

  class MemCache<V(==)> {
    const expire: int
    var data: map<Key, Entry<V>>
    var lru: KeyLru?<V>            // null stands for emptyLru: capacity is unlimited

    ghost predicate Valid()
      reads this, lru
    {
      lru != null ==> lru.owner == this && lru.Consistent()
    }

    ghost function State(): Cache<V>
      reads this, lru
    {
      if lru == null then Cache(0, expire, data, []) else Cache(lru.limit, expire, data, lru.Order())
    }

    constructor (expire: int, limit: int)
      ensures Valid() && (lru != null ==> fresh(lru))
      ensures State() == Empty(if limit <= 0 then 0 else limit, expire)
    {
      this.expire, data, lru := expire, map[], null;
      new;
      if limit > 0 {
        lru := new KeyLru(limit, this);
      }
    }

    method OnEvict(key: Key)
      modifies this`data
      ensures data == old(data) - {key}
    {
      data := data - {key};
    }

    /** c.data[key] = e followed by lru.add(key). */
    method Store(key: Key, e: Entry<V>)
      requires Valid()
      modifies this`data, lru
      ensures Valid() && lru == old(lru)
      ensures State() == Write(old(State()), key, e)
    {
      data := data[key := e];
      if lru != null {
        lru.Add(key);
      }
    }

    /** delete(c.data, key) followed by lru.remove(key). */
    method Discard(key: Key)
      requires Valid()
      modifies this`data, lru
      ensures Valid() && lru == old(lru)
      ensures State() == Drop(old(State()), {key})
    {
      data := data - {key};
      if lru != null {
        lru.Remove(key);
      }
    }

    method SetExpiring(key: Key, value: V, ttl: int, draw: real, now: int)
      requires Valid()
      modifies this`data, lru
      ensures Valid() && lru == old(lru)
      ensures State() == SetEx(old(State()), key, value, ttl, draw, now)
    {
      var ttl' := ttl;
      if ttl' <= 0 {
        ttl' := expire;
      }
      var expireAt: Option<int> := None;
      if ttl' > 0 {
        expireAt := Some(now + Around(ttl', draw));
      }
      assert expireAt == Deadline(State().expire, ttl, draw, now);
      Store(key, Entry(value, expireAt));
    }

    method DoGet(key: Key, now: int) returns (r: Option<V>)
      requires Valid()
      modifies this`data, lru
      ensures Valid() && lru == old(lru)
      ensures r == Hit(old(State()), key, now)
      ensures State() == Get(old(State()), key, now)
    {
      if key !in data {
        return None;
      }
      var entry := data[key];
      if Expired(entry, now) {
        Discard(key);
        return None;
      }
      if lru != null {
        lru.Add(key);
      }
      return Some(entry.value);
    }

    method Delete(keys: seq<Key>)
      requires Valid()
      modifies this`data, lru
      ensures Valid() && lru == old(lru)
      ensures State() == Drop(old(State()), Elems(keys))
    {
      ghost var before := State();
      ghost var gone: set<Key> := {};
      DropNone(before);
      for i := 0 to |keys|
        invariant Valid() && lru == old(lru)
        invariant gone == Elems(keys[..i])
        invariant State() == Drop(before, gone)
        invariant i == |keys| ==> gone == Elems(keys)
      {
        DropMore(before, gone, keys[i]);
        ElemsPrefix(keys, i);
        Discard(keys[i]);
        gone := gone + {keys[i]};
      }
    }

    /** Reports false for ErrNotFound. */
    method Expire(key: Key, ttl: int, draw: real, now: int) returns (found: bool)
      requires Valid()
      modifies this`data, lru
      ensures Valid() && lru == old(lru)
      ensures found <==> key in old(data)
      ensures State() == ExpireKey(old(State()), key, ttl, draw, now)
    {
      found := key in data;
      if !found {
        return;
      }
      if ttl <= 0 {
        Discard(key);
        return;
      }
      data := data[key := data[key].(expireAt := Some(now + Around(ttl, draw)))];
    }

    /** Deletes while ranging over the map, in any order. */
    method ScanExpired(now: int)
      requires Valid()
      modifies this`data, lru
      ensures Valid() && lru == old(lru)
      ensures State() == Scan(old(State()), now)
    {
      ghost var before := State();
      var left := data.Keys;
      ghost var gone: set<Key> := {};
      DropNone(before);
      while left != {}
        invariant Valid() && lru == old(lru)
        invariant left <= before.data.Keys
        invariant gone == ExpiredKeys(before.data, now) - left
        invariant State() == Drop(before, gone)
        decreases left
      {
        var k :| k in left;
        left := left - {k};
        if k in data && Expired(data[k], now) {
          DropMore(before, gone, k);
          gone := gone + {k};
          Discard(k);
        }
      }
      assert gone == ExpiredKeys(before.data, now);
    }

    /** Reports false when addToValue fails. */
    method AddDelta(key: Key, init: V, addTo: V -> Option<V>, draw: real, now: int) returns (ok: bool)
      requires Valid()
      modifies this`data, lru
      ensures Valid() && lru == old(lru)
      ensures State() == CacheSpec.AddDelta(old(State()), key, init, addTo, draw, now)
      ensures !ok ==> data == old(data)
    {
      if key !in data || Expired(data[key], now) {
        var expireAt := if expire <= 0 then None else Some(now + Around(expire, draw));
        assert expireAt == Deadline(State().expire, 0, draw, now);
        Store(key, Entry(init, expireAt));
        return true;
      }
      match addTo(data[key].value)
      case None => return false;
      case Some(v) =>
        Store(key, data[key].(value := v));
        return true;
    }
  }

  /** What a call answers: the value of a hit, nothing otherwise. */
  function Answer<V>(c: Cache<V>, t: Timed<V>): Option<V> {
    if t.op.GetOp? then Hit(c, t.op.key, t.now) else None
  }

  function Answers<V>(c: Cache<V>, trace: seq<Timed<V>>): seq<Option<V>> {
    if trace == [] then []
    else
      var before, last := trace[..|trace| - 1], trace[|trace| - 1];
      Answers(c, before) + [Answer(Run(c, before), last)]
  }

  /** A trace run on a real object answers every call as the abstract run does. */
  method Replay<V(==)>(limit: int, expire: int, trace: seq<Timed<V>>) returns (answers: seq<Option<V>>)
    ensures answers == Answers(Empty(if limit <= 0 then 0 else limit, expire), trace)
  {
    var c := new MemCache<V>(expire, limit);
    ghost var start := c.State();
    answers := [];
    for i := 0 to |trace|
      invariant c.Valid() && (c.lru != null ==> fresh(c.lru))
      invariant c.State() == Run(start, trace[..i])
      invariant answers == Answers(start, trace[..i])
    {
      var answer := PerformNext(c, start, trace[..i], trace[i]);
      Snoc(trace, i);
      answers := answers + [answer];
    }
    Snoc(trace, |trace|);
  }

  lemma {:induction false} Snoc<T>(s: seq<T>, i: nat)
    requires i <= |s|
    ensures if i < |s| then s[..i] + [s[i]] == s[..i + 1] else s[..i] == s
  {
  }

  /** The next call after a trace. */
  method PerformNext<V(==)>(c: MemCache<V>, ghost start: Cache<V>, ghost before: seq<Timed<V>>, t: Timed<V>)
      returns (answer: Option<V>)
    requires c.Valid() && c.State() == Run(start, before)
    modifies c`data, c.lru
    ensures c.Valid() && c.lru == old(c.lru)
    ensures c.State() == Run(start, before + [t])
    ensures Answers(start, before) + [answer] == Answers(start, before + [t])
  {
    RunSnoc(start, before, t);
    answer := Perform(c, t);
  }

  lemma {:induction false} RunSnoc<V>(c: Cache<V>, before: seq<Timed<V>>, t: Timed<V>)
    ensures Run(c, before + [t]) == Step(Run(c, before), t)
    ensures Answers(c, before + [t]) == Answers(c, before) + [Answer(Run(c, before), t)]
  {
    assert (before + [t])[..|before|] == before;
  }

  method Perform<V(==)>(c: MemCache<V>, t: Timed<V>) returns (answer: Option<V>)
    requires c.Valid()
    modifies c`data, c.lru
    ensures c.Valid() && c.lru == old(c.lru)
    ensures c.State() == Step(old(c.State()), t)
    ensures answer == Answer(old(c.State()), t)
  {
    answer := None;
    match t.op
    case SetOp(key, value, ttl, draw) => c.SetExpiring(key, value, ttl, draw, t.now);
    case GetOp(key) => answer := c.DoGet(key, t.now);
    case DeleteOp(keys) => c.Delete(keys);
    case ExpireOp(key, ttl, draw) => var _ := c.Expire(key, ttl, draw, t.now);
    case ScanOp => c.ScanExpired(t.now);
    case AddOp(key, init, addTo, draw) => var _ := c.AddDelta(key, init, addTo, draw, t.now);
  }

  lemma {:induction false} ElemsPrefix<T>(s: seq<T>, i: nat)
    requires i < |s|
    ensures Elems(s[..i + 1]) == Elems(s[..i]) + {s[i]}
    ensures s[..|s|] == s
  {
    assert s[..i + 1] == s[..i] + [s[i]];
  }

  lemma {:induction false} DropNone<V>(c: Cache<V>)
    ensures Drop(c, {}) == c
  {
    assert c.data - {} == c.data;
    KeepAll(c.order, Elems(c.order) - {});
  }

  lemma {:induction false} DropMore<V>(c: Cache<V>, keys: set<Key>, key: Key)
    ensures Drop(Drop(c, keys), {key}) == Drop(c, keys + {key})
  {
    var a := Elems(c.order) - keys;
    KeepMembers(c.order, a);
    KeepKeep(c.order, a, Elems(Keep(c.order, a)) - {key});
    KeepSame(c.order, a * (Elems(Keep(c.order, a)) - {key}), Elems(c.order) - (keys + {key}));
    assert c.data - keys - {key} == c.data - (keys + {key});
  }
}
