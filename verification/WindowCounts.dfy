/**
 What the rolling window of the breaker holds, counted straight from the event log: numbers
 of entries and sets of epochs, without buckets and without a fold.
 */
module WindowCounts {
  import opened RollingWindowModel

  /** The entry lies in the epochs lo..hi. */
  predicate Between(origin: int, interval: int, l: Logged, lo: int, hi: int)
    requires interval > 0
  {
    lo <= Epoch(origin, interval, l.time) <= hi
  }

  /** How many entries lie in the epochs lo..hi. */
  function Requests(origin: int, interval: int, log: seq<Logged>, lo: int, hi: int): nat
    requires interval > 0
  {
    if log == [] then 0
    else
      Requests(origin, interval, log[..|log| - 1], lo, hi)
      + (if Between(origin, interval, log[|log| - 1], lo, hi) then 1 else 0)
  }

  /** How many of them are successes. */
  function Accepts(origin: int, interval: int, log: seq<Logged>, lo: int, hi: int): nat
    requires interval > 0
  {
    if log == [] then 0
    else
      Accepts(origin, interval, log[..|log| - 1], lo, hi)
      + (if log[|log| - 1].event == Success && Between(origin, interval, log[|log| - 1], lo, hi) then 1 else 0)
  }

  /** The log has an event of this kind in this epoch. */
  ghost predicate Has(origin: int, interval: int, log: seq<Logged>, event: Event, epoch: int)
    requires interval > 0
  {
    exists l :: l in log && l.event == event && Epoch(origin, interval, l.time) == epoch
  }

  /** The epochs of lo..hi with an event `kind` that neither share nor precede an event `other`. */
  ghost function StreakOf(origin: int, interval: int, log: seq<Logged>, kind: Event, other: Event, lo: int, hi: int): set<int>
    requires interval > 0
  {
    set e | lo <= e <= hi && Has(origin, interval, log, kind, e) && NoneFrom(origin, interval, log, other, e, hi)
  }

  ghost predicate NoneFrom(origin: int, interval: int, log: seq<Logged>, event: Event, e: int, hi: int)
    requires interval > 0
  {
    forall later :: e <= later <= hi ==> !Has(origin, interval, log, event, later)
  }

  // ---------------------------------------------------------------- one epoch

  lemma {:induction false} HasMore(origin: int, interval: int, rest: seq<Logged>, l: Logged, event: Event, epoch: int)
    requires interval > 0
    ensures Has(origin, interval, rest + [l], event, epoch) <==>
            Has(origin, interval, rest, event, epoch)
            || (l.event == event && Epoch(origin, interval, l.time) == epoch)
  {
    var log := rest + [l];
    assert l in log && forall x :: x in rest ==> x in log;
  }

  /** The bucket of an epoch counts its entries. */
  lemma {:induction false} BucketCounts(origin: int, interval: int, log: seq<Logged>, e: int)
    requires interval > 0
    ensures var b := BucketOf(origin, interval, log, e);
            && b.sum == Requests(origin, interval, log, e, e)
            && b.success == Accepts(origin, interval, log, e, e)
            && (b.success > 0 <==> Has(origin, interval, log, Success, e))
            && (b.failure > 0 <==> Has(origin, interval, log, Fail, e))
  {
    if log != [] {
      var rest, l := log[..|log| - 1], log[|log| - 1];
      BucketCounts(origin, interval, rest, e);
      HasMore(origin, interval, rest, l, Success, e);
      HasMore(origin, interval, rest, l, Fail, e);
      assert rest + [l] == log;
    }
  }

  // ---------------------------------------------------------------- one more epoch

  lemma {:induction false} CountsSplit(origin: int, interval: int, log: seq<Logged>, lo: int, hi: int)
    requires interval > 0 && lo <= hi
    ensures Requests(origin, interval, log, lo, hi)
         == Requests(origin, interval, log, lo, hi - 1) + Requests(origin, interval, log, hi, hi)
    ensures Accepts(origin, interval, log, lo, hi)
         == Accepts(origin, interval, log, lo, hi - 1) + Accepts(origin, interval, log, hi, hi)
  {
    if log != [] {
      CountsSplit(origin, interval, log[..|log| - 1], lo, hi);
    }
  }

  lemma {:induction false} CountsEmpty(origin: int, interval: int, log: seq<Logged>, lo: int, hi: int)
    requires interval > 0 && hi < lo
    ensures Requests(origin, interval, log, lo, hi) == 0 && Accepts(origin, interval, log, lo, hi) == 0
  {
    if log != [] {
      CountsEmpty(origin, interval, log[..|log| - 1], lo, hi);
    }
  }

  /** An epoch with the other event ends every streak; otherwise it may extend it. */
  lemma {:induction false} StreakStep(origin: int, interval: int, log: seq<Logged>, kind: Event, other: Event, lo: int, hi: int)
    requires interval > 0 && lo <= hi
    ensures |StreakOf(origin, interval, log, kind, other, lo, hi)|
         == if Has(origin, interval, log, other, hi) then 0
            else |StreakOf(origin, interval, log, kind, other, lo, hi - 1)|
                 + if Has(origin, interval, log, kind, hi) then 1 else 0
  {
    var now := StreakOf(origin, interval, log, kind, other, lo, hi);
    var before := StreakOf(origin, interval, log, kind, other, lo, hi - 1);
    forall e | lo <= e < hi
      ensures NoneFrom(origin, interval, log, other, e, hi) <==>
              NoneFrom(origin, interval, log, other, e, hi - 1) && !Has(origin, interval, log, other, hi)
    {
      NoneFromStep(origin, interval, log, other, e, hi);
    }
    if Has(origin, interval, log, other, hi) {
      assert now == {};
    } else if Has(origin, interval, log, kind, hi) {
      assert now == before + {hi};
    } else {
      assert now == before;
    }
  }

  lemma {:induction false} NoneFromStep(origin: int, interval: int, log: seq<Logged>, event: Event, e: int, hi: int)
    requires interval > 0 && e <= hi
    ensures NoneFrom(origin, interval, log, event, e, hi) <==>
            NoneFrom(origin, interval, log, event, e, hi - 1) && !Has(origin, interval, log, event, hi)
  {
  }
}
