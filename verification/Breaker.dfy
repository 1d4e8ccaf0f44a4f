/**
 googleBreaker of breaker/sre.go over the rolling window. float64 is modelled by real, the
 random draw of proba.TrueOnProba by an input in [0, 1).
 */
module Breaker {
  import opened RollingWindowModel
  import opened WindowCounts

  const BUCKETS := 40
  const FORCE_PASS_DURATION := 1_000_000_000

  datatype WindowResult = WindowResult(accepts: nat, total: nat, failing: nat, working: nat)

  const NOTHING := WindowResult(0, 0, 0, 0)

  function Aggregate(r: WindowResult, b: Bucket): WindowResult {
    WindowResult(
      r.accepts + b.success,
      r.total + b.sum,
      if b.success > 0 then 0 else if b.failure > 0 then r.failing + 1 else r.failing,
      if b.failure > 0 then 0 else if b.success > 0 then r.working + 1 else r.working)
  }

  /** The oldest-to-newest aggregation over the epochs lo..hi of a statistic per epoch. */
  ghost function FoldEpochs(stats: int -> Bucket, lo: int, hi: int): WindowResult
    decreases hi - lo + 1
  {
    if hi < lo then NOTHING else Aggregate(FoldEpochs(stats, lo, hi - 1), stats(hi))
  }

  ghost function Stats(origin: int, interval: int, log: seq<Logged>): int -> Bucket
    requires interval > 0
  {
    e => BucketOf(origin, interval, log, e)
  }

  /** The reference meaning of history: exactly the events of the last `size` epochs. */
  ghost function WindowOf(origin: int, interval: int, log: seq<Logged>, size: int, now: int): WindowResult
    requires interval > 0
  {
    var e := Epoch(origin, interval, now);
    FoldEpochs(Stats(origin, interval, log), e - size + 1, e)
  }

  /** The same meaning by counting: entries, successes, and the current streaks of failing and of working epochs. */
  ghost function CountedWindow(origin: int, interval: int, log: seq<Logged>, lo: int, hi: int): WindowResult
    requires interval > 0
  {
    WindowResult(
      Accepts(origin, interval, log, lo, hi), Requests(origin, interval, log, lo, hi),
      |StreakOf(origin, interval, log, Fail, Success, lo, hi)|, |StreakOf(origin, interval, log, Success, Fail, lo, hi)|)
  }

  lemma {:induction false} FoldCounts(origin: int, interval: int, log: seq<Logged>, lo: int, hi: int)
    requires interval > 0
    ensures FoldEpochs(Stats(origin, interval, log), lo, hi) == CountedWindow(origin, interval, log, lo, hi)
    decreases hi - lo + 1
  {
    if hi < lo {
      CountsEmpty(origin, interval, log, lo, hi);
    } else {
      FoldCounts(origin, interval, log, lo, hi - 1);
      BucketCounts(origin, interval, log, hi);
      CountsSplit(origin, interval, log, lo, hi);
      StreakStep(origin, interval, log, Fail, Success, lo, hi);
      StreakStep(origin, interval, log, Success, Fail, lo, hi);
    }
  }

  lemma {:induction false} WindowIsFold(origin: int, interval: int, log: seq<Logged>, size: int, now: int, hi: int)
    requires interval > 0 && hi == Epoch(origin, interval, now)
    ensures WindowOf(origin, interval, log, size, now) == FoldEpochs(Stats(origin, interval, log), hi - size + 1, hi)
  {
  }

  /**
   The window in terms of the log alone: `total` entries lie in the last `size` epochs and
   `accepts` of them are successes; `failing` epochs have a failure with no success in them or
   later, `working` epochs a success with no failure in them or later.
   */
  lemma {:induction false} WindowByCounting(origin: int, interval: int, log: seq<Logged>, size: int, now: int, hi: int)
    requires interval > 0 && hi == Epoch(origin, interval, now)
    ensures WindowOf(origin, interval, log, size, now) == CountedWindow(origin, interval, log, hi - size + 1, hi)
  {
    FoldCounts(origin, interval, log, hi - size + 1, hi);
    WindowIsFold(origin, interval, log, size, now, hi);
  }

  /** The traversal with one modulo per bucket that the two loops of history avoid. */
  ghost function ModularFold(bs: seq<Bucket>, start: nat, n: nat): WindowResult
    requires |bs| > 0
  {
    if n == 0 then NOTHING
    else Aggregate(ModularFold(bs, start, n - 1), bs[(start + n - 1) % |bs|])
  }

  ghost predicate QuietAfter(stats: int -> Bucket, cur: int) {
    forall e :: e > cur ==> stats(e) == ZERO
  }

  /** Epochs after the newest event contribute nothing. */
  lemma {:induction false} FoldQuiet(stats: int -> Bucket, lo: int, cur: int, hi: int)
    requires cur <= hi && QuietAfter(stats, cur)
    ensures FoldEpochs(stats, lo, hi) == FoldEpochs(stats, lo, cur)
    decreases hi - cur
  {
    if cur < hi {
      FoldQuiet(stats, lo, cur, hi - 1);
    }
  }

  ghost function RingIndex(start: int, j: int, size: int): int {
    if start + j < size then start + j else start + j - size
  }

  /** The same traversal with the wrap-around written as a case split. */
  ghost function RingFold(bs: seq<Bucket>, start: nat, n: nat): WindowResult
    requires start < |bs| && n <= |bs|
  {
    if n == 0 then NOTHING
    else Aggregate(RingFold(bs, start, n - 1), bs[RingIndex(start, n - 1, |bs|)])
  }

  lemma {:induction false} RingIsModular(bs: seq<Bucket>, start: nat, n: nat)
    requires start < |bs| && n <= |bs|
    ensures RingFold(bs, start, n) == ModularFold(bs, start, n)
  {
    if n > 0 {
      RingIsModular(bs, start, n - 1);
      ModOnce(start + n - 1, |bs|);
    }
  }

  /** Each ring slot holds the statistics of its epoch. */
  ghost predicate Slots(stats: int -> Bucket, bs: seq<Bucket>, offset: int, cur: int) {
    forall i :: 0 <= i < |bs| ==> bs[i] == stats(SlotEpoch(offset, |bs|, cur, i))
  }

  /** The first n buckets after offset + span, going round the ring, are consecutive epochs. */
  lemma {:induction false} RingIsEpochs(stats: int -> Bucket, bs: seq<Bucket>, offset: nat, cur: int,
                                        span: nat, n: nat)
    requires offset < |bs| && span < |bs| && n <= |bs| - span
    requires Slots(stats, bs, offset, cur)
    ensures var lo := cur + span - |bs| + 1;
            RingFold(bs, RingIndex(offset, span + 1, |bs|), n) == FoldEpochs(stats, lo, lo + n - 1)
  {
    if n > 0 {
      RingIsEpochs(stats, bs, offset, cur, span, n - 1);
      var i := RingIndex(RingIndex(offset, span + 1, |bs|), n - 1, |bs|);
      assert SlotEpoch(offset, |bs|, cur, i) == cur + span - |bs| + n;
    }
  }

  /** What history visits when its newest bucket is epoch cur and span epochs have passed. */
  ghost function Visited(bs: seq<Bucket>, offset: nat, span: nat): WindowResult
    requires offset < |bs|
  {
    if span < |bs| then RingFold(bs, RingIndex(offset, span + 1, |bs|), |bs| - span) else NOTHING
  }

  /** The buckets history visits are the last |bs| epochs up to epoch hi. */
  lemma {:induction false} TraversalIsWindow(stats: int -> Bucket, bs: seq<Bucket>, offset: nat, cur: int, hi: int, span: nat)
    requires offset < |bs| && hi >= cur
    requires Slots(stats, bs, offset, cur) && QuietAfter(stats, cur)
    requires span == if hi - cur < |bs| then hi - cur else |bs|
    ensures Visited(bs, offset, span) == FoldEpochs(stats, hi - |bs| + 1, hi)
  {
    var lo := hi - |bs| + 1;
    if span < |bs| {
      RingIsEpochs(stats, bs, offset, cur, span, |bs| - span);
      assert cur + span - |bs| + 1 == lo && lo + (|bs| - span) - 1 == cur;
      FoldQuiet(stats, lo, cur, hi);
    } else {
      FoldQuiet(stats, lo, lo - 1, hi);
    }
  }

  lemma {:induction false} WindowSlots(rw: RollingWindow)
    requires rw.Valid()
    ensures QuietAfter(Stats(rw.origin, rw.interval, rw.log), rw.cur)
    ensures Slots(Stats(rw.origin, rw.interval, rw.log), rw.buckets[..], rw.offset, rw.cur)
  {
    forall e | e > rw.cur ensures BucketOf(rw.origin, rw.interval, rw.log, e) == ZERO {
      NoEventsNoBucket(rw.origin, rw.interval, rw.log, e);
    }
  }

  lemma {:induction false} SpanIsEpochs(rw: RollingWindow, now: int)
    requires rw.Shape() && now >= rw.clock
    ensures var ahead := Epoch(rw.origin, rw.interval, now) - rw.cur;
            ahead >= 0 && rw.Span(now) == if ahead < rw.size then ahead else rw.size
  {
    EpochFrom(rw.origin, rw.interval, rw.cur, rw.lastTime, now);
  }

  lemma {:induction false} VisitedIsWindow(rw: RollingWindow, hi: int, span: nat)
    requires rw.Valid() && hi >= rw.cur
    requires span == if hi - rw.cur < rw.size then hi - rw.cur else rw.size
    ensures Visited(rw.buckets[..], rw.offset, span)
         == FoldEpochs(Stats(rw.origin, rw.interval, rw.log), hi - rw.size + 1, hi)
  {
    WindowSlots(rw);
    TraversalIsWindow(Stats(rw.origin, rw.interval, rw.log), rw.buckets[..], rw.offset, rw.cur, hi, span);
  }

  // ---------------------------------------------------------------- the rejection formula

  datatype Config = Config(k: real, minK: real, protection: int)

  /** What the defaults and the options WithK, WithMinK and WithProtection allow. */
  predicate Sane(c: Config) {
    c.k > 0.0 && c.minK > 0.0 && c.protection >= 0
  }

  function Max(x: real, y: real): real {
    if x >= y then x else y
  }

  function Weight(c: Config, failing: int): real {
    Max(c.k - (c.k - c.minK) * failing as real / BUCKETS as real, c.minK)
  }

  function Surplus(c: Config, h: WindowResult): real {
    (h.total - c.protection) as real - Weight(c, h.failing) * h.accepts as real
  }

  function DropRatio(c: Config, h: WindowResult): real {
    Surplus(c, h) / (h.total + 1) as real
  }

  predicate ForcedPass(lastPass: int, now: int) {
    lastPass > 0 && now - lastPass > FORCE_PASS_DURATION
  }

  /** Buckets with successes dilute the rejection. */
  function Dilution(working: int): real {
    (BUCKETS - working) as real / BUCKETS as real
  }

  /** The probability with which accept rejects, given the aggregated window. */
  function Probability(c: Config, h: WindowResult, lastPass: int, now: int): real {
    if DropRatio(c, h) <= 0.0 || ForcedPass(lastPass, now) then 0.0
    else DropRatio(c, h) * Dilution(h.working)
  }

  class GoogleBreaker {
    const k: real
    const minK: real
    const protection: int
    const stat: RollingWindow
    var lastPass: int

    ghost predicate Valid()
      reads this, stat, stat.buckets
    {
      stat.Valid() && stat.size == BUCKETS
    }

    /** cfg.window / buckets must be positive: Span divides by it. */
    constructor (k: real, minK: real, protection: int, window: int, now: int)
      requires window / BUCKETS > 0
      ensures Valid() && fresh(stat) && fresh(stat.buckets)
      ensures this.k == k && this.minK == minK && this.protection == protection
      ensures lastPass == 0 && stat.log == [] && stat.clock == now && stat.origin == now
      ensures stat.interval == window / BUCKETS
    {
      this.k, this.minK, this.protection, lastPass := k, minK, protection, 0;
      stat := new RollingWindow(BUCKETS, window / BUCKETS, now);
    }

    /** history agrees with the event log, and its two loops with the modular traversal. */
    method History(now: int) returns (r: WindowResult)
      requires Valid() && now >= stat.clock
      ensures r == WindowOf(stat.origin, stat.interval, stat.log, stat.size, now)
      ensures var e := Epoch(stat.origin, stat.interval, now);
              r == CountedWindow(stat.origin, stat.interval, stat.log, e - stat.size + 1, e)
      ensures var span := stat.Span(now);
              r == ModularFold(stat.buckets[..], (stat.offset + span + 1) % stat.size, stat.size - span)
    {
      var span := stat.Span(now);
      SpanIsEpochs(stat, now);
      assert 0 <= span <= BUCKETS;
      VisitedIsWindow(stat, Epoch(stat.origin, stat.interval, now), span);
      WindowByCounting(stat.origin, stat.interval, stat.log, stat.size, now, Epoch(stat.origin, stat.interval, now));
      r := Traverse(stat.buckets, stat.offset, span);
    }

    static method Traverse(buckets: array<Bucket>, offset: int, span: int) returns (r: WindowResult)
      requires buckets.Length == BUCKETS && 0 <= offset < BUCKETS && 0 <= span <= BUCKETS
      ensures r == Visited(buckets[..], offset, span)
      ensures r == ModularFold(buckets[..], (offset + span + 1) % BUCKETS, BUCKETS - span)
    {
      ghost var bs := buckets[..];
      var diff := BUCKETS - span;
      r := NOTHING;
      if diff > 0 {
        var start := (offset + span + 1) % BUCKETS;
        var end := start + diff;
        assert start == RingIndex(offset, span + 1, BUCKETS);
        var i := start;
        while i < BUCKETS && i < end
          invariant start <= i <= BUCKETS && i <= end
          invariant r == RingFold(bs, start, i - start)
        {
          assert RingIndex(start, i - start, BUCKETS) == i;
          r := Aggregate(r, buckets[i]);
          i := i + 1;
        }
        if end > BUCKETS {
          i := 0;
          while i < end - BUCKETS
            invariant 0 <= i <= end - BUCKETS
            invariant r == RingFold(bs, start, BUCKETS - start + i)
          {
            assert RingIndex(start, BUCKETS - start + i, BUCKETS) == i;
            r := Aggregate(r, buckets[i]);
            i := i + 1;
          }
        }
        assert r == RingFold(bs, start, diff);
        RingIsModular(bs, start, diff);
      }
    }

    ghost function Policy(): Config {
      Config(k, minK, protection)
    }

    ghost function Window(now: int): WindowResult
      requires stat.interval > 0
      reads this, stat
    {
      WindowOf(stat.origin, stat.interval, stat.log, stat.size, now)
    }

    /** Rejects exactly when the draw falls below the probability; remembers sampled and forced passes. */
    method Accept(now: int, draw: real) returns (rejected: bool)
      requires Valid() && now >= stat.clock && 0.0 <= draw < 1.0
      modifies this`lastPass
      ensures rejected <==> draw < Probability(Policy(), Window(now), old(lastPass), now)
      ensures lastPass == if !rejected && DropRatio(Policy(), Window(now)) > 0.0 then now else old(lastPass)
    {
      var h := History(now);
      rejected := Decide(h, now, draw);
    }

    /** accept after the window has been aggregated. */
    method Decide(h: WindowResult, now: int, draw: real) returns (rejected: bool)
      requires 0.0 <= draw < 1.0
      modifies this`lastPass
      ensures rejected <==> draw < Probability(Policy(), h, old(lastPass), now)
      ensures lastPass == if !rejected && DropRatio(Policy(), h) > 0.0 then now else old(lastPass)
    {
      var w := k - (k - minK) * h.failing as real / BUCKETS as real;
      var weighted := Max(w, minK) * h.accepts as real;
      var dropRatio := ((h.total - protection) as real - weighted) / (h.total + 1) as real;
      if dropRatio <= 0.0 {
        return false;
      }
      if lastPass > 0 && now - lastPass > FORCE_PASS_DURATION {
        lastPass := now;
        return false;
      }
      dropRatio := dropRatio * Dilution(h.working);
      if dropRatio > 0.0 && draw < dropRatio {
        return true;
      }
      lastPass := now;
      return false;
    }

    /** The start of doReq: a rejected request leaves a drop, an admitted one nothing yet. */
    method Arrive(now: int, draw: real) returns (rejected: bool)
      requires Valid() && stat.clock <= now && 0.0 <= draw < 1.0
      modifies this, stat, stat.buckets
      ensures Valid() && stat.clock <= now
      ensures rejected <==> draw < old(Probability(Policy(), Window(now), lastPass, now))
      ensures stat.log == if rejected then old(stat.log) + [Logged(now, Drop)] else old(stat.log)
    {
      rejected := Accept(now, draw);
      if rejected {
        stat.Add(now, Drop);
      }
    }

    /** The deferred end of doReq: the outcome; a panic counts as unacceptable. */
    method Complete(now: int, acceptable: bool)
      requires Valid() && stat.clock <= now
      modifies stat, stat.buckets
      ensures Valid() && stat.clock <= now && lastPass == old(lastPass)
      ensures stat.log == old(stat.log) + [Logged(now, Outcome(acceptable))]
    {
      stat.Add(now, Outcome(acceptable));
    }
  }

  function Outcome(acceptable: bool): Event {
    if acceptable then Success else Fail
  }

  // ---------------------------------------------------------------- concurrent requests

  /** The two critical moments of a request; the request function runs in between. */
  datatype Moment =
    | Begin(id: nat, now: int, draw: real)
    | End(id: nat, now: int, acceptable: bool)

  /** Moments of any number of requests, interleaved: each begins once, and time does not decrease. */
  ghost predicate Schedule(ms: seq<Moment>, start: int) {
    && (forall i :: 0 <= i < |ms| ==> start <= ms[i].now && (ms[i].Begin? ==> 0.0 <= ms[i].draw < 1.0))
    && (forall i, j :: 0 <= i < j < |ms| ==> ms[i].now <= ms[j].now)
    && (forall i, j :: 0 <= i < j < |ms| && ms[i].Begin? && ms[j].Begin? ==> ms[i].id != ms[j].id)
  }

  /** Who has been rejected, is running, or has finished, and the request each new event comes from. */
  datatype Tally = Tally(dropped: set<nat>, running: set<nat>, finished: set<nat>, owners: seq<nat>)

  function Begun(ms: seq<Moment>): set<nat> {
    set m | m in ms && m.Begin? :: m.id
  }

  /** The event a request leaves: a drop when it begins, or its outcome when it ends. */
  ghost predicate Leaves(ms: seq<Moment>, t: Tally, id: nat, l: Logged) {
    if id in t.dropped then
      l.event == Drop && exists m :: m in ms && m.Begin? && m.id == id && m.now == l.time
    else
      id in t.finished && exists m :: m in ms && m.End? && m.id == id && l == Logged(m.now, Outcome(m.acceptable))
  }

  /** Each request that was dropped or finished has left exactly one event, and no other event exists. */
  ghost predicate OneEventEach(ms: seq<Moment>, t: Tally, events: seq<Logged>) {
    && t.dropped + t.running + t.finished == Begun(ms)
    && t.dropped !! t.running && t.dropped !! t.finished && t.running !! t.finished
    && |t.owners| == |events|
    && (forall i :: 0 <= i < |events| ==> Leaves(ms, t, t.owners[i], events[i]))
    && (forall i, j :: 0 <= i < j < |events| ==> t.owners[i] != t.owners[j])
    && (forall id :: id in t.dropped || id in t.finished ==> id in t.owners)
  }

  /** What one moment does: the breaker decides a Begin; the End of a request that is not running never comes. */
  ghost predicate Handled(m: Moment, t: Tally, t': Tally, added: seq<Logged>) {
    match m
    case Begin(id, now, _) =>
      || (added == [] && t' == t.(running := t.running + {id}))
      || (added == [Logged(now, Drop)] && t' == t.(dropped := t.dropped + {id}, owners := t.owners + [id]))
    case End(id, now, acceptable) =>
      if id in t.running then
        && added == [Logged(now, Outcome(acceptable))]
        && t' == t.(running := t.running - {id}, finished := t.finished + {id}, owners := t.owners + [id])
      else
        added == [] && t' == t
  }

  lemma {:induction false} BegunMore(ms: seq<Moment>, m: Moment)
    ensures Begun(ms + [m]) == Begun(ms) + if m.Begin? then {m.id} else {}
  {
  }

  lemma {:induction false} LeavesMore(ms: seq<Moment>, m: Moment, t: Tally, t': Tally, id: nat, l: Logged)
    requires Leaves(ms, t, id, l)
    requires t.finished <= t'.finished && (id in t'.dropped <==> id in t.dropped)
    ensures Leaves(ms + [m], t', id, l)
  {
    assert forall x :: x in ms ==> x in ms + [m];
  }

  /** The request of the moment has left no event before. */
  lemma {:induction false} NotYetLeft(ms: seq<Moment>, t: Tally, events: seq<Logged>, id: nat)
    requires OneEventEach(ms, t, events) && (id !in Begun(ms) || id in t.running)
    ensures id !in t.dropped && id !in t.finished && id !in t.owners
  {
    forall i | 0 <= i < |events| ensures t.owners[i] != id {
      assert Leaves(ms, t, t.owners[i], events[i]);
    }
  }

  /** A moment that leaves no event. */
  lemma {:induction false} QuietStep(ms: seq<Moment>, m: Moment, t: Tally, t': Tally, events: seq<Logged>)
    requires OneEventEach(ms, t, events) && Handled(m, t, t', [])
    requires m.Begin? ==> m.id !in Begun(ms)
    ensures OneEventEach(ms + [m], t', events)
  {
    BegunMore(ms, m);
    forall i | 0 <= i < |events| ensures Leaves(ms + [m], t', t'.owners[i], events[i]) {
      LeavesMore(ms, m, t, t', t.owners[i], events[i]);
    }
  }

  /** A moment that leaves the one event of its request. */
  lemma {:induction false} LoudStep(ms: seq<Moment>, m: Moment, t: Tally, t': Tally, events: seq<Logged>, l: Logged)
    requires OneEventEach(ms, t, events) && Handled(m, t, t', [l])
    requires m.Begin? ==> m.id !in Begun(ms)
    ensures OneEventEach(ms + [m], t', events + [l])
  {
    BegunMore(ms, m);
    NotYetLeft(ms, t, events, m.id);
    var all := events + [l];
    forall i | 0 <= i < |all| ensures Leaves(ms + [m], t', t'.owners[i], all[i]) {
      if i < |events| {
        assert t'.owners[i] == t.owners[i] && t.owners[i] in t.owners;
        LeavesMore(ms, m, t, t', t.owners[i], events[i]);
      } else {
        assert m in ms + [m];
      }
    }
  }

  lemma {:induction false} BeginsOnce(ms: seq<Moment>, i: nat)
    requires i < |ms| && forall j, k :: 0 <= j < k < |ms| && ms[j].Begin? && ms[k].Begin? ==> ms[j].id != ms[k].id
    ensures ms[i].Begin? ==> ms[i].id !in Begun(ms[..i])
  {
  }

  method Handle(b: GoogleBreaker, m: Moment, t: Tally) returns (t': Tally, ghost added: seq<Logged>)
    requires b.Valid() && b.stat.clock <= m.now && (m.Begin? ==> 0.0 <= m.draw < 1.0)
    modifies b, b.stat, b.stat.buckets
    ensures b.Valid() && b.stat.clock <= m.now
    ensures b.stat.log == old(b.stat.log) + added && Handled(m, t, t', added) && |added| <= 1
  {
    t', added := t, [];
    match m
    case Begin(id, now, draw) =>
      var rejected := b.Arrive(now, draw);
      if rejected {
        t' := t.(dropped := t.dropped + {id}, owners := t.owners + [id]);
        added := [Logged(now, Drop)];
      } else {
        t' := t.(running := t.running + {id});
      }
    case End(id, now, acceptable) =>
      if id in t.running {
        b.Complete(now, acceptable);
        t' := t.(running := t.running - {id}, finished := t.finished + {id}, owners := t.owners + [id]);
        added := [Logged(now, Outcome(acceptable))];
      }
  }

  /** doReq over any interleaving of requests: each leaves exactly one event, a drop or its outcome. */
  method DoReqs(b: GoogleBreaker, ms: seq<Moment>) returns (t: Tally)
    requires b.Valid() && Schedule(ms, b.stat.clock)
    modifies b, b.stat, b.stat.buckets
    ensures b.Valid() && |old(b.stat.log)| <= |b.stat.log|
    ensures b.stat.log[..|old(b.stat.log)|] == old(b.stat.log)
    ensures OneEventEach(ms, t, b.stat.log[|old(b.stat.log)|..])
  {
    t := Tally({}, {}, {}, []);
    ghost var before, events: seq<Logged> := b.stat.log, [];
    for i := 0 to |ms|
      invariant b.Valid() && forall j :: i <= j < |ms| ==> b.stat.clock <= ms[j].now
      invariant b.stat.log == before + events
      invariant OneEventEach(ms[..i], t, events)
    {
      ghost var t0, added := t, [];
      BeginsOnce(ms, i);
      t, added := Handle(b, ms[i], t);
      if added == [] {
        QuietStep(ms[..i], ms[i], t0, t, events);
      } else {
        LoudStep(ms[..i], ms[i], t0, t, events, added[0]);
      }
      events := events + added;
      assert ms[..i] + [ms[i]] == ms[..i + 1];
    }
    assert ms[..|ms|] == ms;
  }
}
