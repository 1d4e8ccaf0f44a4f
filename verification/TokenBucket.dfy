/**
 TokenBucket of ratelimit/ratelimit.go. Times are integer nanoseconds, token counts and
 rates are real; time.Duration conversions truncate as in the source.
 */
module TokenBucketModel {
  import opened RealFacts

  const SECOND := 1_000_000_000
  const MILLISECOND := 1_000_000

  datatype Bucket = Bucket(tokens: real, last: int)

  datatype Params = Params(rate: real, burst: real)

  function Seconds(d: int): real {
    d as real / SECOND as real
  }

  /** What a call at `now` would find without the cap. */
  function Uncapped(p: Params, b: Bucket, now: int): real {
    b.tokens + Seconds(now - b.last) * p.rate
  }

  function Refilled(p: Params, b: Bucket, now: int): real {
    var t := Uncapped(p, b, now);
    if t > p.burst then p.burst else t
  }

  predicate Allowed(p: Params, b: Bucket, now: int) {
    Refilled(p, b, now) >= 1.0
  }

  function Step(p: Params, b: Bucket, now: int): Bucket {
    var t := Refilled(p, b, now);
    Bucket(if t >= 1.0 then t - 1.0 else t, now)
  }

  /** The real-valued time, in nanoseconds, in which `missing` tokens arrive. */
  function WaitFor(missing: real, rate: real): real
    requires rate > 0.0
  {
    missing / rate * SECOND as real
  }

  /** RetryAfter: 0 stands for "no estimate" and for "a token is available". */
  function RetryAfter(p: Params, b: Bucket, now: int): int {
    if p.rate <= 0.0 then 0
    else
      var tokens := Uncapped(p, b, now);
      if tokens >= 1.0 then 0
      else
        var wait := WaitFor(1.0 - tokens, p.rate).Floor;
        if wait < MILLISECOND then MILLISECOND else wait
  }

  class TokenBucket {
    const p: Params
    var tokens: real
    var lastUpdate: int

    ghost function State(): Bucket
      reads this
    {
      Bucket(tokens, lastUpdate)
    }

    constructor (rate: real, burst: real, now: int)
      ensures p == Params(rate, burst) && State() == Bucket(burst, now)
    {
      p, tokens, lastUpdate := Params(rate, burst), burst, now;
    }

    method Allow(now: int) returns (ok: bool)
      modifies this
      ensures ok <==> Allowed(p, old(State()), now)
      ensures State() == Step(p, old(State()), now)
    {
      tokens := tokens + Seconds(now - lastUpdate) * p.rate;
      if tokens > p.burst {
        tokens := p.burst;
      }
      lastUpdate := now;
      if tokens >= 1.0 {
        tokens := tokens - 1.0;
        return true;
      }
      return false;
    }
  }

  // ---------------------------------------------------------------- runs

  ghost predicate Nondecreasing(times: seq<int>) {
    forall i, j :: 0 <= i < j < |times| ==> times[i] <= times[j]
  }

  function Run(p: Params, b: Bucket, times: seq<int>): Bucket {
    if times == [] then b else Step(p, Run(p, b, times[..|times| - 1]), times[|times| - 1])
  }

  /** How many of the calls made in [t1, t2] were admitted. */
  function Admissions(p: Params, b: Bucket, times: seq<int>, t1: int, t2: int): nat {
    if times == [] then 0
    else
      var before, now := times[..|times| - 1], times[|times| - 1];
      Admissions(p, b, before, t1, t2)
      + (if t1 <= now <= t2 && Allowed(p, Run(p, b, before), now) then 1 else 0)
  }

  lemma {:induction false} SecondsAdd(a: int, b: int, c: int, rate: real)
    ensures Seconds(b - a) * rate + Seconds(c - b) * rate == Seconds(c - a) * rate
  {
    assert Seconds(b - a) + Seconds(c - b) == Seconds(c - a);
  }

  lemma {:induction false} SecondsMono(a: int, b: int, rate: real)
    requires a <= b && rate >= 0.0
    ensures 0.0 <= Seconds(b - a) * rate
  {
    assert Seconds(b - a) >= 0.0;
    MulLe(0.0, Seconds(b - a), rate);
  }

  lemma {:induction false} StepInRange(p: Params, b: Bucket, now: int)
    requires p.rate >= 0.0 && 0.0 <= b.tokens <= p.burst && b.last <= now
    ensures 0.0 <= Refilled(p, b, now) <= p.burst
    ensures Refilled(p, b, now) <= b.tokens + Seconds(now - b.last) * p.rate
    ensures 0.0 <= Step(p, b, now).tokens <= p.burst
  {
    SecondsMono(b.last, now, p.rate);
  }

  /** The state after a run: tokens within [0, burst], and the time of the last call. */
  lemma {:induction false} TokensInRange(p: Params, start: int, times: seq<int>)
    requires p.rate >= 0.0 && p.burst >= 0.0
    requires Nondecreasing([start] + times)
    ensures var b := Run(p, Bucket(p.burst, start), times);
            0.0 <= b.tokens <= p.burst && b.last == ([start] + times)[|times|]
  {
    if times != [] {
      var before, all := times[..|times| - 1], [start] + times;
      assert [start] + before == all[..|times|];
      assert all[|times| - 1] <= all[|times|];
      TokensInRange(p, start, before);
      StepInRange(p, Run(p, Bucket(p.burst, start), before), times[|times| - 1]);
    }
  }

  /** What the run so far has spent of the allowance of [t1, t2]. */
  ghost predicate WithinAllowance(p: Params, b: Bucket, spent: nat, t1: int, t2: int) {
    if b.last < t1 then spent == 0
    else if b.last <= t2 then spent as real + b.tokens <= p.burst + Seconds(b.last - t1) * p.rate
    else spent as real <= p.burst + Seconds(t2 - t1) * p.rate
  }

  lemma {:induction false} AllowanceStep(p: Params, b: Bucket, now: int, spent: nat, t1: int, t2: int)
    requires p.rate >= 0.0 && 0.0 <= b.tokens <= p.burst && b.last <= now && t1 <= t2
    requires WithinAllowance(p, b, spent, t1, t2)
    ensures WithinAllowance(p, Step(p, b, now),
                            spent + (if t1 <= now <= t2 && Allowed(p, b, now) then 1 else 0), t1, t2)
  {
    StepInRange(p, b, now);
    if now > t2 {
      AllowanceEnd(p, b, spent, t1, t2);
    } else if now >= t1 {
      SecondsMono(t1, now, p.rate);
      if b.last >= t1 {
        SecondsAdd(t1, b.last, now, p.rate);
      }
    }
  }

  lemma {:induction false} AllowanceEnd(p: Params, b: Bucket, spent: nat, t1: int, t2: int)
    requires p.rate >= 0.0 && 0.0 <= b.tokens <= p.burst && t1 <= t2
    requires WithinAllowance(p, b, spent, t1, t2)
    ensures spent as real <= p.burst + Seconds(t2 - t1) * p.rate
  {
    SecondsMono(t1, t2, p.rate);
    if t1 <= b.last <= t2 {
      SecondsAdd(t1, b.last, t2, p.rate);
      SecondsMono(b.last, t2, p.rate);
    }
  }

  lemma {:induction false} RunWithinAllowance(p: Params, start: int, times: seq<int>, t1: int, t2: int)
    requires p.rate >= 0.0 && p.burst >= 0.0 && t1 <= t2
    requires Nondecreasing([start] + times)
    ensures var b0 := Bucket(p.burst, start);
            WithinAllowance(p, Run(p, b0, times), Admissions(p, b0, times, t1, t2), t1, t2)
  {
    var b0 := Bucket(p.burst, start);
    if times == [] {
      if t1 <= start {
        SecondsMono(t1, start, p.rate);
      }
      SecondsMono(t1, t2, p.rate);
    } else {
      var before, all := times[..|times| - 1], [start] + times;
      assert [start] + before == all[..|times|];
      assert all[|times| - 1] <= all[|times|];
      TokensInRange(p, start, before);
      RunWithinAllowance(p, start, before, t1, t2);
      AllowanceStep(p, Run(p, b0, before), times[|times| - 1], Admissions(p, b0, before, t1, t2), t1, t2);
    }
  }

  /** Over every run, the admissions in [t1, t2] number at most burst + rate * (t2 - t1). */
  lemma {:induction false} AdmissionBound(p: Params, start: int, times: seq<int>, t1: int, t2: int)
    requires p.rate >= 0.0 && p.burst >= 0.0 && t1 <= t2
    requires Nondecreasing([start] + times)
    ensures Admissions(p, Bucket(p.burst, start), times, t1, t2) as real <= p.burst + Seconds(t2 - t1) * p.rate
  {
    var b0 := Bucket(p.burst, start);
    TokensInRange(p, start, times);
    RunWithinAllowance(p, start, times, t1, t2);
    AllowanceEnd(p, Run(p, b0, times), Admissions(p, b0, times, t1, t2), t1, t2);
  }

  // ---------------------------------------------------------------- exactly which calls are admitted

  /** How many of the calls from number i on were admitted. */
  function AdmittedFrom(p: Params, b: Bucket, times: seq<int>, i: nat): nat {
    if |times| <= i then 0
    else
      var before, now := times[..|times| - 1], times[|times| - 1];
      AdmittedFrom(p, b, before, i) + (if Allowed(p, Run(p, b, before), now) then 1 else 0)
  }

  /** What is left at `now` of the allowance of the time since call number i. */
  function Left(p: Params, b: Bucket, times: seq<int>, i: nat, now: int): real
    requires i < |times|
  {
    p.burst + Seconds(now - times[i]) * p.rate - AdmittedFrom(p, b, times, i) as real
  }

  /** What the last call took, and what arrives from then on. */
  function Taken(p: Params, b: Bucket, times: seq<int>): real
    requires times != []
  {
    if Allowed(p, Run(p, b, times[..|times| - 1]), times[|times| - 1]) then 1.0 else 0.0
  }

  function Gain(p: Params, from: int, now: int): real {
    Seconds(now - from) * p.rate
  }

  lemma {:induction false} LeftLater(p: Params, b: Bucket, times: seq<int>, i: nat, now: int)
    requires i < |times|
    ensures var n := |times| - 1;
            Left(p, b, times, i, now)
            == (if i == n then p.burst else Left(p, b, times[..n], i, times[n]))
               - Taken(p, b, times) + Gain(p, times[n], now)
  {
    var n := |times| - 1;
    if i < n {
      SecondsAdd(times[i], times[n], now, p.rate);
    } else {
      assert AdmittedFrom(p, b, times[..n], i) == 0;
    }
  }

  lemma {:induction false} RefilledAfterCall(p: Params, b: Bucket, last: int, now: int, x: real)
    ensures var taken := if Allowed(p, b, last) then 1.0 else 0.0;
            Refilled(p, Step(p, b, last), now) >= x <==>
            p.burst >= x && Refilled(p, b, last) >= x + taken - Seconds(now - last) * p.rate
  {
  }

  predicate Fits(p: Params, b: Bucket, times: seq<int>, i: nat, now: int, x: real)
    requires i < |times|
  {
    Left(p, b, times, i, now) >= x
  }

  ghost predicate AllFit(p: Params, b: Bucket, times: seq<int>, now: int, x: real) {
    forall i :: 0 <= i < |times| ==> Fits(p, b, times, i, now, x)
  }

  /** What has to be there at the last call for x tokens to be there at `now`. */
  function NeededBefore(p: Params, b: Bucket, times: seq<int>, now: int, x: real): real
    requires times != []
  {
    x + Taken(p, b, times) - Gain(p, times[|times| - 1], now)
  }

  lemma {:induction false} FitsStep(p: Params, b: Bucket, times: seq<int>, i: nat, now: int, x: real)
    requires i < |times|
    ensures var n, y := |times| - 1, NeededBefore(p, b, times, now, x);
            Fits(p, b, times, i, now, x) <==> if i == n then p.burst >= y else Fits(p, b, times[..n], i, times[n], y)
  {
    var n := |times| - 1;
    LeftLater(p, b, times, i, now);
    var base := if i == n then p.burst else Left(p, b, times[..n], i, times[n]);
    Shifted(Left(p, b, times, i, now), base, Taken(p, b, times), Gain(p, times[n], now), x);
  }

  lemma {:induction false} Shifted(left: real, base: real, taken: real, gain: real, x: real)
    requires left == base - taken + gain
    ensures left >= x <==> base >= x + taken - gain
  {
  }

  lemma {:induction false} AllFitStep(p: Params, b: Bucket, times: seq<int>, now: int, x: real, y: real)
    requires times != [] && y == NeededBefore(p, b, times, now, x)
    ensures var n := |times| - 1;
            AllFit(p, b, times, now, x) <==> p.burst >= y && AllFit(p, b, times[..n], times[n], y)
  {
    var n := |times| - 1;
    FitsStep(p, b, times, n, now, x);
    forall i | 0 <= i < n
      ensures Fits(p, b, times, i, now, x) <==> Fits(p, b, times[..n], i, times[n], y)
    {
      FitsStep(p, b, times, i, now, x);
    }
  }

  lemma {:induction false} NeededStep(p: Params, b: Bucket, times: seq<int>, now: int, x: real)
    requires times != []
    ensures var n := |times| - 1;
            Refilled(p, Run(p, b, times), now) >= x <==>
            p.burst >= x && Refilled(p, Run(p, b, times[..n]), times[n]) >= NeededBefore(p, b, times, now, x)
  {
    var n := |times| - 1;
    RefilledAfterCall(p, Run(p, b, times[..n]), times[n], now, x);
  }

  /** The refilled bucket holds x tokens exactly when every allowance since an earlier call has that much left. */
  lemma {:induction false} RefilledAtLeast(p: Params, start: int, times: seq<int>, now: int, x: real)
    requires p.rate >= 0.0 && start <= now && forall i :: 0 <= i < |times| ==> start <= times[i]
    ensures Refilled(p, Run(p, Bucket(p.burst, start), times), now) >= x <==>
            p.burst >= x && AllFit(p, Bucket(p.burst, start), times, now, x)
  {
    var b := Bucket(p.burst, start);
    if times == [] {
      SecondsMono(start, now, p.rate);
    } else {
      var n, y := |times| - 1, NeededBefore(p, b, times, now, x);
      RefilledAtLeast(p, start, times[..n], times[n], y);
      NeededStep(p, b, times, now, x);
      AllFitStep(p, b, times, now, x, y);
    }
  }

  /** One more admission at `now` keeps those since call number i within burst + rate * (time since it). */
  predicate WithinBound(p: Params, b: Bucket, times: seq<int>, i: nat, now: int)
    requires i < |times|
  {
    (AdmittedFrom(p, b, times, i) + 1) as real <= p.burst + Seconds(now - times[i]) * p.rate
  }

  lemma {:induction false} FitsOne(p: Params, b: Bucket, times: seq<int>, i: nat, now: int)
    requires i < |times|
    ensures Fits(p, b, times, i, now, 1.0) <==> WithinBound(p, b, times, i, now)
  {
  }

  /**
   After every run, a call is admitted if and only if there is room for one token at all and
   the bound of AdmissionBound, taken from each earlier call on, has room for it: the bucket
   refuses nothing that the bound would allow.
   */
  lemma {:induction false} AdmittedIff(p: Params, start: int, times: seq<int>, now: int)
    requires p.rate >= 0.0 && start <= now && forall i :: 0 <= i < |times| ==> start <= times[i]
    ensures Allowed(p, Run(p, Bucket(p.burst, start), times), now) <==>
            && p.burst >= 1.0
            && forall i :: 0 <= i < |times| ==> WithinBound(p, Bucket(p.burst, start), times, i, now)
  {
    var b := Bucket(p.burst, start);
    RefilledAtLeast(p, start, times, now, 1.0);
    forall i | 0 <= i < |times|
      ensures Fits(p, b, times, i, now, 1.0) <==> WithinBound(p, b, times, i, now)
    {
      FitsOne(p, b, times, i, now);
    }
  }

  // ---------------------------------------------------------------- when the next token arrives

  ghost predicate AllRefused(p: Params, b: Bucket, times: seq<int>) {
    forall i :: 0 <= i < |times| ==> !Allowed(p, Run(p, b, times[..i]), times[i])
  }

  /** Refused calls do not change when the next token arrives. */
  lemma {:induction false} RefusalsInvisible(p: Params, b: Bucket, times: seq<int>, t: int)
    requires p.burst >= 1.0 && AllRefused(p, b, times)
    ensures Allowed(p, Run(p, b, times), t) <==> Allowed(p, b, t)
  {
    if times != [] {
      var before, now := times[..|times| - 1], times[|times| - 1];
      assert forall i :: 0 <= i < |before| ==> before[..i] == times[..i];
      RefusalsInvisible(p, b, before, t);
      assert times[..|before|] == before;
      RefusalInvisible(p, Run(p, b, before), now, t);
    }
  }

  lemma {:induction false} RefusalInvisible(p: Params, b: Bucket, now: int, t: int)
    requires p.burst >= 1.0 && !Allowed(p, b, now)
    ensures Allowed(p, Step(p, b, now), t) <==> Allowed(p, b, t)
  {
    SecondsAdd(b.last, now, t, p.rate);
  }

  /** The real-valued wait, in nanoseconds, for one full token. */
  function ExactWait(p: Params, b: Bucket, now: int): real
    requires p.rate > 0.0
  {
    WaitFor(1.0 - Uncapped(p, b, now), p.rate)
  }

  /** A later call is admitted exactly when the exact wait is over. */
  lemma {:induction false} AllowedAfterExactWait(p: Params, b: Bucket, now: int, d: int)
    requires p.rate > 0.0 && p.burst >= 1.0
    ensures Allowed(p, b, now + d) <==> d as real >= ExactWait(p, b, now)
  {
    UncappedLater(p, b, now, d);
    assert Allowed(p, b, now + d) <==> Uncapped(p, b, now + d) >= 1.0;
    Arrived(1.0 - Uncapped(p, b, now), p.rate, d);
  }

  lemma {:induction false} Arrived(missing: real, rate: real, d: int)
    requires rate > 0.0
    ensures Seconds(d) * rate >= missing <==> d as real >= WaitFor(missing, rate)
  {
    Threshold(Seconds(d), rate, missing);
    InNanoseconds(d, missing / rate);
  }

  lemma {:induction false} UncappedLater(p: Params, b: Bucket, now: int, d: int)
    ensures Uncapped(p, b, now + d) == Uncapped(p, b, now) + Seconds(d) * p.rate
  {
    SecondsSplit(b.last, now, d, p.rate);
  }

  lemma {:induction false} SecondsSplit(last: int, now: int, d: int, rate: real)
    ensures Seconds(now + d - last) * rate == Seconds(now - last) * rate + Seconds(d) * rate
  {
    var x, y, z := Seconds(now - last), Seconds(d), Seconds(now + d - last);
    assert z == x + y;
  }

  lemma {:induction false} InNanoseconds(d: int, x: real)
    ensures Seconds(d) >= x <==> d as real >= x * SECOND as real
  {
  }

  lemma {:induction false} Threshold(x: real, rate: real, missing: real)
    requires rate > 0.0
    ensures x * rate >= missing <==> x >= missing / rate
  {
    var y := missing / rate;
    assert y * rate == missing;
    if x >= y {
      MulLe(y, x, rate);
    } else {
      MulLess(x, y, rate);
    }
  }

  /** The hint clamps the exact wait to a millisecond from below and drops its fraction. */
  lemma {:induction false} HintIsTruncated(p: Params, b: Bucket, now: int)
    requires p.rate > 0.0
    ensures var exact := ExactWait(p, b, now);
            RetryAfter(p, b, now) ==
            if exact <= 0.0 then 0 else if exact <= MILLISECOND as real then MILLISECOND else exact.Floor
  {
    WaitSign(1.0 - Uncapped(p, b, now), p.rate);
    TruncatedAt(ExactWait(p, b, now), MILLISECOND);
  }

  lemma {:induction false} WaitSign(missing: real, rate: real)
    requires rate > 0.0
    ensures missing <= 0.0 <==> WaitFor(missing, rate) <= 0.0
  {
    var x := missing / rate;
    FracSign(missing, rate);
    assert x <= 0.0 <==> x * SECOND as real <= 0.0;
  }

  lemma {:induction false} TruncatedAt(x: real, bound: int)
    ensures (if x.Floor < bound then bound else x.Floor) == (if x <= bound as real then bound else x.Floor)
  {
  }

  /**
   A retry after RetryAfter, when every call in between was refused, succeeds if and only if
   the exact wait is at most a millisecond or a whole number of nanoseconds; one nanosecond
   later it always succeeds, and no hint is given exactly when a token is there.
   */
  lemma {:induction false} RetryAfterSucceedsIff(p: Params, b: Bucket, now: int, refused: seq<int>)
    requires p.rate > 0.0 && p.burst >= 1.0 && AllRefused(p, b, refused)
    ensures var exact, retry := ExactWait(p, b, now), now + RetryAfter(p, b, now);
            && (Allowed(p, Run(p, b, refused), retry) <==>
                  exact <= MILLISECOND as real || exact == exact.Floor as real)
            && Allowed(p, Run(p, b, refused), retry + 1)
            && (RetryAfter(p, b, now) == 0 <==> Allowed(p, b, now))
  {
    var wait := RetryAfter(p, b, now);
    HintIsTruncated(p, b, now);
    RefusalsInvisible(p, b, refused, now + wait);
    RefusalsInvisible(p, b, refused, now + wait + 1);
    AllowedAfterExactWait(p, b, now, wait);
    AllowedAfterExactWait(p, b, now, wait + 1);
    AllowedAfterExactWait(p, b, now, 0);
  }

  /** Truncation matters: at 3 tokens per second an empty bucket asks for 333333333ns, one too few. */
  lemma {:induction false} RetryAfterCanFallShort()
    ensures var p, b := Params(3.0, 1.0), Bucket(0.0, 0);
            RetryAfter(p, b, 0) == 333_333_333 && !Allowed(p, b, 333_333_333) && Allowed(p, b, 333_333_334)
  {
    ThirdHint();
    ThirdAdmission(333_333_333);
    ThirdAdmission(333_333_334);
  }

  lemma {:induction false} ThirdHint()
    ensures RetryAfter(Params(3.0, 1.0), Bucket(0.0, 0), 0) == 333_333_333
  {
    var p, b := Params(3.0, 1.0), Bucket(0.0, 0);
    assert Uncapped(p, b, 0) == 0.0;
    var wait := WaitFor(1.0, 3.0);
    assert 333_333_333.0 < wait < 333_333_334.0;
  }

  lemma {:induction false} ThirdAdmission(d: int)
    ensures Allowed(Params(3.0, 1.0), Bucket(0.0, 0), d) <==> 3 * d >= SECOND
  {
    var x := Seconds(d - 0);
    assert x * SECOND as real == d as real;
    assert Uncapped(Params(3.0, 1.0), Bucket(0.0, 0), d) == x * 3.0;
  }
}
