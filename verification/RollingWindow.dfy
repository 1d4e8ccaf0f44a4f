/**
 rollingWindow of breaker/window.go: a ring of time buckets, proved against a plain event
 log. Times are integer nanoseconds; one clock reading per operation.
 */
module RollingWindowModel {

  datatype Event = Success | Fail | Drop

  datatype Bucket = Bucket(sum: nat, success: nat, failure: nat, drop: nat) {
    function Add(e: Event): Bucket {
      match e
      case Fail => this.(sum := sum + 1, failure := failure + 1)
      case Drop => this.(sum := sum + 1, drop := drop + 1)
      case Success => this.(sum := sum + 1, success := success + 1)
    }
  }

  const ZERO := Bucket(0, 0, 0, 0)

  datatype Logged = Logged(time: int, event: Event)

  /** The number of the interval, counted from the creation of the window, that holds t. */
  function Epoch(origin: int, interval: int, t: int): int
    requires interval > 0
  {
    (t - origin) / interval
  }

  /** The statistics of one epoch, read off the log. */
  ghost function BucketOf(origin: int, interval: int, log: seq<Logged>, epoch: int): Bucket
    requires interval > 0
  {
    if log == [] then ZERO
    else
      var rest, last := log[..|log| - 1], log[|log| - 1];
      var b := BucketOf(origin, interval, rest, epoch);
      if Epoch(origin, interval, last.time) == epoch then b.Add(last.event) else b
  }

  lemma {:induction false} NoEventsNoBucket(origin: int, interval: int, log: seq<Logged>, epoch: int)
    requires interval > 0
    requires forall l :: l in log ==> Epoch(origin, interval, l.time) != epoch
    ensures BucketOf(origin, interval, log, epoch) == ZERO
  {
    if log != [] {
      var rest := log[..|log| - 1];
      assert forall l :: l in rest ==> l in log;
      NoEventsNoBucket(origin, interval, rest, epoch);
    }
  }

  lemma {:induction false} BucketOfAppend(origin: int, interval: int, log: seq<Logged>, l: Logged, epoch: int)
    requires interval > 0
    ensures var b := BucketOf(origin, interval, log, epoch);
            BucketOf(origin, interval, log + [l], epoch) ==
            if Epoch(origin, interval, l.time) == epoch then b.Add(l.event) else b
  {
    assert (log + [l])[..|log|] == log;
  }

  // ---------------------------------------------------------------- arithmetic

  lemma {:induction false} ModOnce(x: int, n: int)
    requires 0 <= x < 2 * n
    ensures x % n == if x < n then x else x - n
  {
    if x >= n {
      assert x == 1 * n + (x - n);
    }
  }

  /** Splitting the distance from the origin at a whole number of intervals. */
  lemma {:induction false} EpochFrom(origin: int, interval: int, cur: int, lastTime: int, now: int)
    requires interval > 0 && lastTime == origin + cur * interval
    ensures Epoch(origin, interval, now) == cur + (now - lastTime) / interval
    ensures now - (now - lastTime) % interval == origin + Epoch(origin, interval, now) * interval
    ensures lastTime <= now ==>
              (now - lastTime) / interval >= 0 && lastTime <= now - (now - lastTime) % interval <= now
  {
    var d := now - lastTime;
    var q, r := d / interval, d % interval;
    assert d == q * interval + r;
    assert now - origin == (cur + q) * interval + r;
    DivModUnique(now - origin, interval, cur + q, r);
    if lastTime <= now && q < 0 {
      MulStep(0, q, interval);
    }
    if q >= 0 {
      assert q * interval >= 0;
    }
  }

  lemma {:induction false} DivModUnique(x: int, n: int, q: int, r: int)
    requires n > 0 && 0 <= r < n && x == q * n + r
    ensures x / n == q && x % n == r
  {
    assert x == (x / n) * n + x % n;
    QuotientUnique(n, q, r, x / n, x % n);
  }

  lemma {:induction false} QuotientUnique(n: int, q: int, r: int, q': int, r': int)
    requires n > 0 && 0 <= r < n && 0 <= r' < n
    requires q * n + r == q' * n + r'
    ensures q == q' && r == r'
  {
    if q > q' {
      MulStep(q, q', n);
    } else if q < q' {
      MulStep(q', q, n);
    }
  }

  lemma {:induction false} MulStep(a: int, b: int, n: int)
    requires a > b && n > 0
    ensures a * n >= b * n + n
  {
    MulAtLeast(a - b, n);
    assert a * n == b * n + (a - b) * n;
  }

  lemma {:induction false} MulAtLeast(k: int, n: int)
    requires k >= 1 && n > 0
    ensures k * n >= n
  {
  }

  // ---------------------------------------------------------------- the window

  /** The epoch of ring index i when index offset holds epoch cur: offset + 1 is the oldest. */
  ghost function SlotEpoch(offset: int, size: int, cur: int, i: int): int {
    if i <= offset then cur - (offset - i) else cur - (offset + size - i)
  }

  class RollingWindow {
    const size: int
    const interval: int
    const buckets: array<Bucket>
    var offset: int
    var lastTime: int
    ghost const origin: int        // creation time
    ghost var log: seq<Logged>     // every event added so far
    ghost var cur: int             // the epoch of the bucket at offset
    ghost var clock: int           // the latest clock reading of a write

    ghost function EpochAt(i: int): int
      reads this
    {
      SlotEpoch(offset, size, cur, i)
    }

    ghost predicate Shape()
      reads this
    {
      && size > 0 && interval > 0 && buckets.Length == size && 0 <= offset < size
      && lastTime == origin + cur * interval
      && origin <= lastTime <= clock
      && (forall l :: l in log ==> origin <= l.time <= clock && Epoch(origin, interval, l.time) <= cur)
    }

    ghost predicate Valid()
      reads this, buckets
    {
      && Shape()
      && (forall i :: 0 <= i < size ==> buckets[i] == BucketOf(origin, interval, log, EpochAt(i)))
    }

    constructor (size: int, interval: int, now: int)
      requires size > 0 && interval > 0
      ensures Valid() && fresh(buckets)
      ensures this.size == size && this.interval == interval && origin == now && clock == now && log == []
    {
      this.size, this.interval, this.origin := size, interval, now;
      offset, lastTime, log, cur, clock := 0, now, [], 0, now;
      buckets := new Bucket[size](_ => ZERO);
    }

    /** How many buckets have elapsed since lastTime, capped at size. */
    function Span(now: int): (s: int)
      requires interval > 0
      reads this
    {
      var elapsed := (now - lastTime) / interval;
      if 0 <= elapsed < size then elapsed else size
    }

    method ResetExpired(span: int)
      requires Shape() && 0 <= span <= size
      modifies buckets
      ensures forall i :: 0 <= i < size ==>
                buckets[i] == if Passed(offset, span, i) then ZERO else old(buckets[i])
    {
      for i := 0 to span
        invariant forall j :: 0 <= j < size ==>
                    buckets[j] == if Passed(offset, i, j) then ZERO else old(buckets[j])
      {
        ModOnce(offset + i + 1, size);
        buckets[(offset + i + 1) % size] := ZERO;
      }
    }

    /** Index i is one of the span indices after offset, going round the ring. */
    ghost predicate Passed(offset: int, span: int, i: int)
    {
      offset < i <= offset + span || i <= offset + span - size
    }

    method UpdateOffset(now: int)
      requires Valid() && now >= clock
      modifies this`offset, this`lastTime, this`cur, this`clock, buckets
      ensures Valid() && clock == now
      ensures cur == Epoch(origin, interval, now)
    {
      EpochFrom(origin, interval, cur, lastTime, now);
      var span := Span(now);
      var aligned := now - (now - lastTime) % interval;
      ghost var epoch := Epoch(origin, interval, now);
      clock := now;
      if span > 0 {
        Advance(span, aligned, epoch);
      }
    }

    /** The reset loop and the move to a new epoch. */
    method Advance(span: int, aligned: int, ghost epoch: int)
      requires Valid() && 0 < span <= size
      requires epoch >= cur + span && (span < size ==> epoch == cur + span)
      requires aligned == origin + epoch * interval && lastTime <= aligned <= clock
      modifies this`offset, this`lastTime, this`cur, buckets
      ensures Valid() && cur == epoch
    {
      ResetExpired(span);
      ModOnce(offset + span, size);
      ghost var before := cur;
      offset := (offset + span) % size;
      lastTime := aligned;
      cur := epoch;
      forall i | 0 <= i < size
        ensures buckets[i] == BucketOf(origin, interval, log, EpochAt(i))
      {
        if EpochAt(i) > before {
          NoEventsNoBucket(origin, interval, log, EpochAt(i));
        }
      }
    }

    /** add: the window afterwards represents the log with one more event. */
    method Add(now: int, e: Event)
      requires Valid() && now >= clock
      modifies this, buckets
      ensures Valid() && log == old(log) + [Logged(now, e)] && clock == now
    {
      UpdateOffset(now);
      buckets[offset] := buckets[offset].Add(e);
      ghost var before := log;
      log := log + [Logged(now, e)];
      forall i | 0 <= i < size
        ensures buckets[i] == BucketOf(origin, interval, log, EpochAt(i))
      {
        BucketOfAppend(origin, interval, before, Logged(now, e), EpochAt(i));
      }
    }
  }
}
