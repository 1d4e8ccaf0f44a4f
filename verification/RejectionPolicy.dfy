/** Whole-run properties of the rejection probability of breaker/sre.go. */
module RejectionPolicy {
  import opened RealFacts
  import opened RollingWindowModel
  import opened Breaker
  import opened WindowCounts

  /** The rejection probability as a function of the event log alone. */
  ghost function Rejects(c: Config, origin: int, interval: int, log: seq<Logged>, lastPass: int, now: int): real
    requires interval > 0
  {
    Probability(c, WindowOf(origin, interval, log, BUCKETS, now), lastPass, now)
  }

  lemma {:induction false} FoldBounds(stats: int -> Bucket, lo: int, hi: int)
    requires hi >= lo - 1
    ensures FoldEpochs(stats, lo, hi).failing <= hi - lo + 1
    ensures FoldEpochs(stats, lo, hi).working <= hi - lo + 1
    decreases hi - lo + 1
  {
    if hi >= lo {
      FoldBounds(stats, lo, hi - 1);
    }
  }

  lemma {:induction false} FoldSame(stats: int -> Bucket, stats': int -> Bucket, lo: int, hi: int)
    requires forall e :: e <= hi ==> stats(e) == stats'(e)
    ensures FoldEpochs(stats, lo, hi) == FoldEpochs(stats', lo, hi)
    decreases hi - lo + 1
  {
    if hi >= lo {
      FoldSame(stats, stats', lo, hi - 1);
    }
  }

  lemma {:induction false} WeightRange(c: Config, failing: int)
    requires Sane(c) && 0 <= failing <= BUCKETS
    ensures 0.0 < c.minK <= Weight(c, failing) <= Weight(c, 0) == Max(c.k, c.minK)
  {
    WeightAntitone(c, 0, failing);
  }

  lemma {:induction false} WeightAntitone(c: Config, f: int, g: int)
    requires Sane(c) && 0 <= f <= g <= BUCKETS
    ensures Weight(c, g) <= Weight(c, f)
  {
    if c.k >= c.minK {
      MulMono(c.k - c.minK, c.k - c.minK, f as real, g as real);
    } else {
      MulMono(c.minK - c.k, c.minK - c.k, f as real, BUCKETS as real);
      MulMono(c.minK - c.k, c.minK - c.k, g as real, BUCKETS as real);
      assert (c.k - c.minK) * f as real == -((c.minK - c.k) * f as real);
      assert (c.k - c.minK) * g as real == -((c.minK - c.k) * g as real);
    }
  }

  lemma {:induction false} DilutionRange(working: nat, working': nat)
    requires working' <= working <= BUCKETS
    ensures 0.0 <= Dilution(working) <= Dilution(working') <= 1.0
  {
  }

  /**
   In every reachable state the rejection probability lies in [0, 1), and it is 0 while the
   window holds at most `protection` requests.
   */
  lemma {:induction false} ProbabilityInRange(c: Config, origin: int, interval: int, log: seq<Logged>, lastPass: int, now: int)
    requires Sane(c) && interval > 0
    ensures 0.0 <= Rejects(c, origin, interval, log, lastPass, now) < 1.0
    ensures WindowOf(origin, interval, log, BUCKETS, now).total <= c.protection ==>
              Rejects(c, origin, interval, log, lastPass, now) == 0.0
  {
    var e := Epoch(origin, interval, now);
    FoldBounds(Stats(origin, interval, log), e - BUCKETS + 1, e);
    ResultInRange(c, WindowOf(origin, interval, log, BUCKETS, now), lastPass, now);
  }

  lemma {:induction false} ResultInRange(c: Config, h: WindowResult, lastPass: int, now: int)
    requires Sane(c) && h.failing <= BUCKETS && h.working <= BUCKETS
    ensures 0.0 <= Probability(c, h, lastPass, now) < 1.0
    ensures h.total <= c.protection ==> Probability(c, h, lastPass, now) == 0.0
  {
    WeightRange(c, h.failing);
    MulMono(0.0, Weight(c, h.failing), 0.0, h.accepts as real);
    FracLess(Surplus(c, h), (h.total + 1) as real, 1.0);
    FracSign(Surplus(c, h), (h.total + 1) as real);
    DilutionRange(h.working, h.working);
    var d, f, p := DropRatio(c, h), Dilution(h.working), Probability(c, h, lastPass, now);
    assert p == 0.0 || (d > 0.0 && p == d * f);
    if d > 0.0 {
      Scale(d, f);
    }
  }

  // ---------------------------------------------------------------- the formula on the log

  /** An open breaker lets a request through when the last pass lies more than a second back. */
  predicate Due(lastPass: int, now: int) {
    lastPass > 0 && now - lastPass > 1_000_000_000
  }

  /** The weight of a success: k, falling towards minK with the failing epochs. */
  function Faded(c: Config, failing: nat): real {
    var w := c.k - (c.k - c.minK) * failing as real / 40.0;
    if w >= c.minK then w else c.minK
  }

  /** The share of requests beyond the protected number and the weighted successes. */
  function Excess(c: Config, total: nat, accepts: nat, weight: real): real {
    ((total - c.protection) as real - weight * accepts as real) / (total + 1) as real
  }

  /** The formula of Client-Side Throttling on plain numbers. */
  function Formula(c: Config, total: nat, accepts: nat, failing: nat, working: nat, due: bool): real {
    var excess := Excess(c, total, accepts, Faded(c, failing));
    if excess <= 0.0 || due then 0.0 else excess * ((40 - working) as real / 40.0)
  }

  lemma {:induction false} WeightIsFaded(c: Config, failing: nat)
    ensures Weight(c, failing) == Faded(c, failing)
  {
  }

  lemma {:induction false} RatioIsExcess(c: Config, h: WindowResult)
    ensures DropRatio(c, h) == Excess(c, h.total, h.accepts, Faded(c, h.failing))
  {
    WeightIsFaded(c, h.failing);
    assert Surplus(c, h) == (h.total - c.protection) as real - Faded(c, h.failing) * h.accepts as real;
  }

  lemma {:induction false} DilutionIs(working: nat)
    ensures Dilution(working) == (40 - working) as real / 40.0
  {
  }

  lemma {:induction false} ProbabilityIsFormula(c: Config, h: WindowResult, lastPass: int, now: int)
    ensures Probability(c, h, lastPass, now)
         == Formula(c, h.total, h.accepts, h.failing, h.working, Due(lastPass, now))
  {
    RatioIsExcess(c, h);
    DilutionIs(h.working);
    assert ForcedPass(lastPass, now) <==> Due(lastPass, now);
  }

  /**
   The rejection probability, from the log alone. Of the requests of the last 40 epochs, those
   beyond the protected number and beyond the weighted successes make up the excess. The weight
   falls from k to minK with the epochs that only failed since the last success; epochs that
   only worked since the last failure reduce the probability in proportion.
   */
  lemma {:induction false} RejectsByCounting(c: Config, origin: int, interval: int, log: seq<Logged>, lastPass: int, now: int, hi: int)
    requires interval > 0 && hi == Epoch(origin, interval, now)
    ensures var lo := hi - 39;
            Rejects(c, origin, interval, log, lastPass, now) ==
            Formula(c, Requests(origin, interval, log, lo, hi), Accepts(origin, interval, log, lo, hi),
                    |StreakOf(origin, interval, log, Fail, Success, lo, hi)|,
                    |StreakOf(origin, interval, log, Success, Fail, lo, hi)|, Due(lastPass, now))
  {
    WindowByCounting(origin, interval, log, BUCKETS, now, hi);
    ProbabilityIsFormula(c, CountedWindow(origin, interval, log, hi - 39, hi), lastPass, now);
  }

  lemma {:induction false} NoSuccessNoAccepts(origin: int, interval: int, log: seq<Logged>, lo: int, hi: int)
    requires interval > 0
    requires forall l :: l in log && Between(origin, interval, l, lo, hi) ==> l.event != Success
    ensures Accepts(origin, interval, log, lo, hi) == 0
    ensures StreakOf(origin, interval, log, Success, Fail, lo, hi) == {}
  {
    if log != [] {
      var rest := log[..|log| - 1];
      assert forall l :: l in rest ==> l in log;
      NoSuccessNoAccepts(origin, interval, rest, lo, hi);
    }
  }

  lemma {:induction false} FormulaWithoutSuccess(c: Config, total: nat, failing: nat)
    requires total > c.protection
    ensures Formula(c, total, 0, failing, 0, false) == (total - c.protection) as real / (total + 1) as real
  {
    FracSign((total - c.protection) as real, (total + 1) as real);
    assert Faded(c, failing) * (0 as real) == 0.0;
    assert (40 - 0) as real / 40.0 == 1.0;
  }

  /** With no success in the window the breaker opens: it rejects all but protection + 1 of total + 1 requests. */
  lemma {:induction false} FailuresOpen(c: Config, origin: int, interval: int, log: seq<Logged>, lastPass: int, now: int, hi: int)
    requires interval > 0 && hi == Epoch(origin, interval, now) && !Due(lastPass, now)
    requires forall l :: l in log && Between(origin, interval, l, hi - 39, hi) ==> l.event != Success
    requires Requests(origin, interval, log, hi - 39, hi) > c.protection
    ensures var total := Requests(origin, interval, log, hi - 39, hi);
            Rejects(c, origin, interval, log, lastPass, now) == (total - c.protection) as real / (total + 1) as real
  {
    RejectsByCounting(c, origin, interval, log, lastPass, now, hi);
    NoSuccessNoAccepts(origin, interval, log, hi - 39, hi);
    FormulaWithoutSuccess(c, Requests(origin, interval, log, hi - 39, hi),
                          |StreakOf(origin, interval, log, Fail, Success, hi - 39, hi)|);
  }

  // ---------------------------------------------------------------- one more event at the same instant

  /** A further event at the same instant only changes the newest bucket of the window. */
  lemma {:induction false} OneMoreEvent(origin: int, interval: int, log: seq<Logged>, now: int, event: Event)
      returns (older: WindowResult, b: Bucket)
    requires interval > 0
    ensures older.failing < BUCKETS && older.working < BUCKETS
    ensures WindowOf(origin, interval, log, BUCKETS, now) == Aggregate(older, b)
    ensures WindowOf(origin, interval, log + [Logged(now, event)], BUCKETS, now) == Aggregate(older, b.Add(event))
  {
    var e, log' := Epoch(origin, interval, now), log + [Logged(now, event)];
    var stats, stats' := Stats(origin, interval, log), Stats(origin, interval, log');
    older := FoldEpochs(stats, e - BUCKETS + 1, e - 1);
    b := stats(e);
    forall x ensures stats'(x) == if x == e then stats(x).Add(event) else stats(x) {
      BucketOfAppend(origin, interval, log, Logged(now, event), x);
    }
    FoldSame(stats, stats', e - BUCKETS + 1, e - 1);
    FoldBounds(stats, e - BUCKETS + 1, e - 1);
  }

  /** More requests and no more weighted accepts: the ratio does not fall. */
  lemma {:induction false} RatioUp(c: Config, h: WindowResult, h': WindowResult)
    requires Sane(c) && h.failing <= h'.failing <= BUCKETS
    requires h'.total == h.total + 1 && h'.accepts == h.accepts
    ensures DropRatio(c, h) <= DropRatio(c, h')
  {
    WeightAntitone(c, h.failing, h'.failing);
    WeightRange(c, h'.failing);
    MulMono(Weight(c, h'.failing), Weight(c, h.failing), h.accepts as real, h.accepts as real);
    var n, n', d := Surplus(c, h), Surplus(c, h'), (h.total + 1) as real;
    FracStepUp(n, n', d);
  }

  lemma {:induction false} ProbabilityUp(c: Config, h: WindowResult, h': WindowResult, lastPass: int, now: int)
    requires h'.working <= h.working <= BUCKETS
    requires DropRatio(c, h) <= DropRatio(c, h')
    ensures Probability(c, h, lastPass, now) <= Probability(c, h', lastPass, now)
  {
    DilutionRange(h.working, h'.working);
    if DropRatio(c, h) > 0.0 {
      MulMono(DropRatio(c, h), DropRatio(c, h'), Dilution(h.working), Dilution(h'.working));
    } else if DropRatio(c, h') > 0.0 {
      MulMono(0.0, DropRatio(c, h'), 0.0, Dilution(h'.working));
    }
  }

  /** At a fixed instant a further failure or drop never lowers the rejection probability. */
  lemma {:induction false} FailureNeverLowers(c: Config, origin: int, interval: int, log: seq<Logged>, lastPass: int, now: int,
                           event: Event)
    requires Sane(c) && interval > 0 && event != Success
    ensures Rejects(c, origin, interval, log, lastPass, now)
         <= Rejects(c, origin, interval, log + [Logged(now, event)], lastPass, now)
  {
    var older, b := OneMoreEvent(origin, interval, log, now, event);
    var h, h' := Aggregate(older, b), Aggregate(older, b.Add(event));
    RatioUp(c, h, h');
    ProbabilityUp(c, h, h', lastPass, now);
  }

  /** One more accept at weight >= 1: the ratio does not rise unless it was and stays non-positive. */
  lemma {:induction false} RatioDown(c: Config, h: WindowResult, h': WindowResult)
    requires Sane(c) && Max(c.k, c.minK) >= 1.0 && h.failing <= BUCKETS && h'.failing == 0
    requires h'.total == h.total + 1 && h'.accepts == h.accepts + 1
    ensures DropRatio(c, h') <= DropRatio(c, h) || DropRatio(c, h') <= 0.0
  {
    WeightRange(c, h.failing);
    var w, w' := Weight(c, h.failing), Weight(c, 0);
    MulMono(w, w', h.accepts as real, h.accepts as real);
    var n, n', d := Surplus(c, h), Surplus(c, h'), (h.total + 1) as real;
    assert w' * (h.accepts + 1) as real == w' * h.accepts as real + w';
    assert n' <= n;
    if n' > 0.0 {
      FracStepDown(n, n', d);
    } else {
      FracSign(n', d + 1.0);
    }
  }

  /** At a fixed instant a further success never raises the rejection probability, if max(k, minK) >= 1. */
  lemma {:induction false} SuccessNeverRaises(c: Config, origin: int, interval: int, log: seq<Logged>, lastPass: int, now: int)
    requires Sane(c) && interval > 0 && Max(c.k, c.minK) >= 1.0
    ensures Rejects(c, origin, interval, log + [Logged(now, Success)], lastPass, now)
         <= Rejects(c, origin, interval, log, lastPass, now)
  {
    var older, b := OneMoreEvent(origin, interval, log, now, Success);
    var h, h' := Aggregate(older, b), Aggregate(older, b.Add(Success));
    RatioDown(c, h, h');
    ResultInRange(c, h, lastPass, now);
    if DropRatio(c, h') > 0.0 {
      ProbabilityUp(c, h', h, lastPass, now);
    }
  }

  // ---------------------------------------------------------------- the exact condition

  ghost predicate Reachable(origin: int, log: seq<Logged>, now: int) {
    && (forall l :: l in log ==> origin <= l.time <= now)
    && (forall i, j :: 0 <= i < j < |log| ==> log[i].time <= log[j].time)
  }

  ghost predicate SuccessHarmless(c: Config, origin: int, interval: int, log: seq<Logged>, lastPass: int, now: int) {
    interval > 0 && Reachable(origin, log, now) ==>
      Rejects(c, origin, interval, log + [Logged(now, Success)], lastPass, now)
      <= Rejects(c, origin, interval, log, lastPass, now)
  }

  /** n successes at the instant the window is created. */
  ghost function Successes(origin: int, n: nat): seq<Logged> {
    seq(n, _ => Logged(origin, Success))
  }

  lemma {:induction false} SuccessBucket(origin: int, interval: int, n: nat, e: int)
    requires interval > 0
    ensures BucketOf(origin, interval, Successes(origin, n), e) == if e == 0 then Bucket(n, n, 0, 0) else ZERO
  {
    if n > 0 {
      SuccessBucket(origin, interval, n - 1, e);
      assert Successes(origin, n)[..n - 1] == Successes(origin, n - 1);
    }
  }

  lemma {:induction false} FoldSingle(stats: int -> Bucket, lo: int, hi: int)
    requires lo <= hi && forall e :: e < hi ==> stats(e) == ZERO
    ensures FoldEpochs(stats, lo, hi) == Aggregate(NOTHING, stats(hi))
  {
    var none := (e: int) => ZERO;
    FoldSame(stats, none, lo, hi - 1);
    FoldQuiet(none, lo, lo - 1, hi - 1);
  }

  lemma {:induction false} SuccessWindow(origin: int, interval: int, n: nat)
    requires interval > 0
    ensures WindowOf(origin, interval, Successes(origin, n), BUCKETS, origin)
         == WindowResult(n, n, 0, if n > 0 then 1 else 0)
  {
    var stats, hi := Stats(origin, interval, Successes(origin, n)), Epoch(origin, interval, origin);
    forall e ensures stats(e) == if e == 0 then Bucket(n, n, 0, 0) else ZERO {
      SuccessBucket(origin, interval, n, e);
    }
    FoldSingle(stats, hi - BUCKETS + 1, hi);
  }

  /** The number of steps of size gap that fit below a limit. */
  lemma {:induction false} WholeSteps(limit: real, gap: real) returns (n: nat)
    requires gap > 0.0 && limit >= 0.0
    ensures n as real * gap <= limit < (n + 1) as real * gap
  {
    var x := limit / gap;
    assert x * gap == limit;
    assert x >= 0.0;
    n := x.Floor;
    StepsBelow(n as real, x, (n + 1) as real, limit, gap);
  }

  lemma {:induction false} StepsBelow(low: real, x: real, high: real, limit: real, gap: real)
    requires low <= x < high && gap > 0.0 && x * gap == limit
    ensures low * gap <= limit < high * gap
  {
    MulLe(low, x, gap);
    MulLess(x, high, gap);
  }

  lemma {:induction false} OnlySuccesses(c: Config, n: nat, h: WindowResult, now: int)
    requires Sane(c) && h == WindowResult(n, n, 0, h.working) && h.working <= 1
    ensures Probability(c, h, 0, now) > 0.0 <==> n as real * (1.0 - Max(c.k, c.minK)) > c.protection as real
    ensures Probability(c, h, 0, now) >= 0.0
  {
    ResultInRange(c, h, 0, now);
    WeightRange(c, 0);
    var w := Weight(c, 0);
    assert n as real * (1.0 - w) == n as real - w * n as real;
    FracSign(Surplus(c, h), (n + 1) as real);
    var d, f := DropRatio(c, h), Dilution(h.working);
    assert f > 0.0;
    assert d > 0.0 ==> Probability(c, h, 0, now) == d * f && d * f > 0.0;
  }

  lemma {:induction false} SuccessRate(c: Config, origin: int, interval: int, n: nat)
    requires Sane(c) && interval > 0
    ensures Rejects(c, origin, interval, Successes(origin, n), 0, origin) > 0.0
       <==> n as real * (1.0 - Max(c.k, c.minK)) > c.protection as real
    ensures Rejects(c, origin, interval, Successes(origin, n), 0, origin) >= 0.0
  {
    SuccessWindow(origin, interval, n);
    OnlySuccesses(c, n, WindowOf(origin, interval, Successes(origin, n), BUCKETS, origin), origin);
  }

  lemma {:induction false} SuccessLog(origin: int, n: nat)
    ensures Reachable(origin, Successes(origin, n), origin)
    ensures Successes(origin, n) + [Logged(origin, Success)] == Successes(origin, n + 1)
  {
  }

  /** With both factors below 1, enough successes alone make the breaker start rejecting. */
  lemma {:induction false} SuccessRaises(c: Config, origin: int, interval: int) returns (n: nat)
    requires Sane(c) && Max(c.k, c.minK) < 1.0 && interval > 0
    ensures !SuccessHarmless(c, origin, interval, Successes(origin, n), 0, origin)
  {
    n := WholeSteps(c.protection as real, 1.0 - Max(c.k, c.minK));
    SuccessRate(c, origin, interval, n);
    SuccessRate(c, origin, interval, n + 1);
    SuccessLog(origin, n);
  }

  /**
   Exactly when a further success can never raise the rejection probability: the larger of
   the two amplification factors is at least 1.
   */
  lemma {:induction false} SuccessNeverRaisesIff(c: Config)
    requires Sane(c)
    ensures Max(c.k, c.minK) >= 1.0 <==>
            forall origin, interval, log, lastPass, now ::
              SuccessHarmless(c, origin, interval, log, lastPass, now)
  {
    if Max(c.k, c.minK) >= 1.0 {
      forall origin, interval, log, lastPass, now
        ensures SuccessHarmless(c, origin, interval, log, lastPass, now)
      {
        if interval > 0 {
          SuccessNeverRaises(c, origin, interval, log, lastPass, now);
        }
      }
    } else {
      var n := SuccessRaises(c, 0, 1);
    }
  }
}
