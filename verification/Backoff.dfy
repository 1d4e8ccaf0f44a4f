/**
 Delay computation of retry/delay.go on 64-bit durations: a left shift that wraps, a
 saturation test and the ceiling. Durations are integer nanoseconds.
 */
module Backoff {
  import opened Options

  const TWO63 := 0x8000_0000_0000_0000
  const TWO64 := 0x1_0000_0000_0000_0000
  const MAX_DURATION := TWO63 - 1

  datatype Config = Config(
    maxRetries: int, delay: int, maxDelay: int, jitter: bool, delayFunc: Option<(int, int) -> int>)

  predicate IsInt64(x: int) {
    -TWO63 <= x < TWO63
  }

  /** Two's complement reduction to 64 bits. */
  function Wrap(x: int): int {
    (x + TWO63) % TWO64 - TWO63
  }

  function Pow2(n: nat): int {
    if n == 0 then 1 else 2 * Pow2(n - 1)
  }

  /** Go's x << n on int64: bits shifted out are lost. */
  function ShiftLeft(x: int, n: nat): int {
    if n >= 64 then 0 else Wrap(x * Pow2(n))
  }

  /** capDelay; draw is rand.Int64N(half), used only when jitter applies. */
  function CapDelay(d: int, maxDelay: int, jitter: bool, draw: nat): int {
    var capped := if maxDelay > 0 && d > maxDelay then maxDelay else d;
    var floored := if capped < 0 then 0 else capped;
    if jitter && floored / 2 > 0 then
      var shaken := Wrap(floored + draw);
      if maxDelay > 0 && shaken > maxDelay then maxDelay else shaken
    else floored
  }

  function ComputeDelay(c: Config, attempt: nat, previous: int, draw: nat): int
    requires attempt >= 1
  {
    match c.delayFunc
    case Some(f) => CapDelay(f(attempt, previous), c.maxDelay, c.jitter, draw)
    case None =>
      var d := ShiftLeft(c.delay, attempt - 1);
      var saturated :=
        if d < c.delay then (if c.maxDelay <= 0 then MAX_DURATION else c.maxDelay) else d;
      CapDelay(saturated, c.maxDelay, c.jitter, draw)
  }

  function Min(x: int, y: int): int {
    if x <= y then x else y
  }

  /** The ideal exponential backoff, on unbounded integers. */
  function Ideal(c: Config, attempt: nat): int
    requires attempt >= 1
  {
    Min(c.delay * Pow2(attempt - 1), c.maxDelay)
  }

  /** Default strategy without jitter, both durations positive 64-bit values. */
  predicate Plain(c: Config) {
    c.delayFunc.None? && !c.jitter && 0 < c.delay < TWO63 && 0 < c.maxDelay < TWO63
  }

  // ---------------------------------------------------------------- powers of two

  lemma {:induction false} Pow2Add(a: nat, b: nat)
    ensures Pow2(a + b) == Pow2(a) * Pow2(b)
  {
    if a > 0 {
      Pow2Add(a - 1, b);
      assert 2 * (Pow2(a - 1) * Pow2(b)) == (2 * Pow2(a - 1)) * Pow2(b);
    }
  }

  lemma {:induction false} Pow2Positive(n: nat)
    ensures Pow2(n) >= 1
  {
    if n > 0 {
      Pow2Positive(n - 1);
    }
  }

  lemma {:induction false} Pow2Of64()
    ensures Pow2(64) == TWO64 && Pow2(63) == TWO63
  {
    assert Pow2(8) == 256 by {
      assert Pow2(4) == 16;
    }
    Pow2Add(8, 8);
    Pow2Add(16, 16);
    Pow2Add(32, 32);
  }

  // ---------------------------------------------------------------- the shift

  lemma {:induction false} WrapSmall(x: int)
    requires IsInt64(x)
    ensures Wrap(x) == x
  {
  }

  lemma {:induction false} WrapCongruent(x: int) returns (k: int)
    ensures Wrap(x) == x - k * TWO64
  {
    k := (x + TWO63) / TWO64;
  }

  /** A wrapped shift by s keeps its s low bits zero, so when positive it is at least 2^s. */
  lemma {:induction false} ShiftedAtLeast(x: int, s: nat)
    requires s < 64 && ShiftLeft(x, s) > 0
    ensures ShiftLeft(x, s) >= Pow2(s)
  {
    var k := WrapCongruent(x * Pow2(s));
    Pow2Of64();
    Pow2Add(s, 64 - s);
    Pow2Positive(s);
    Factor(Pow2(s), Pow2(64 - s), x, k);
    PositiveMultiple(Pow2(s), x - k * Pow2(64 - s));
  }

  lemma {:induction false} Factor(p: int, m: int, x: int, k: int)
    ensures x * p - k * (p * m) == p * (x - k * m)
  {
    assert k * (p * m) == p * (k * m);
  }

  lemma {:induction false} PositiveMultiple(p: int, q: int)
    requires p >= 1 && p * q > 0
    ensures p * q >= p
  {
    assert q >= 1;
  }

  lemma {:induction false} MulMono(a: int, b: int, p: int)
    requires a <= b && p >= 0
    ensures a * p <= b * p
  {
  }

  // ---------------------------------------------------------------- exactness

  /** The shift for this attempt overflows, and lands on a value that passes for a real delay. */
  predicate Misleading(c: Config, attempt: nat)
    requires attempt >= 1
  {
    && c.delay * Pow2(attempt - 1) >= TWO63
    && c.delay <= ShiftLeft(c.delay, attempt - 1) < c.maxDelay
  }

  /** For one attempt, the delay is the ideal one exactly when the overflow is not misleading. */
  lemma {:induction false} DelayExactIff(c: Config, attempt: nat, previous: int, draw: nat)
    requires Plain(c) && attempt >= 1
    ensures ComputeDelay(c, attempt, previous, draw) == Ideal(c, attempt) <==> !Misleading(c, attempt)
  {
    var s := attempt - 1;
    Pow2Positive(s);
    MulMono(1, c.delay, Pow2(s));
    MulMono(1, Pow2(s), c.delay);
    var product := c.delay * Pow2(s);
    assert product >= c.delay && product >= Pow2(s);
    if product < TWO63 {
      if s >= 64 {
        Pow2Of64();
        Pow2Add(64, s - 64);
        Pow2Positive(s - 64);
        MulMono(1, Pow2(s - 64), TWO64);
        assert false;
      }
      WrapSmall(product);
    }
  }

  /**
   Backoff is exact despite the wrap-around: when delay * maxDelay <= 2^63, every attempt
   waits min(delay * 2^(attempt-1), maxDelay).
   */
  lemma {:induction false} BackoffExact(c: Config, attempt: nat, previous: int, draw: nat)
    requires Plain(c) && attempt >= 1 && c.delay * c.maxDelay <= TWO63
    ensures ComputeDelay(c, attempt, previous, draw) == Ideal(c, attempt)
  {
    var s := attempt - 1;
    if Misleading(c, attempt) {
      ShiftedAtLeast(c.delay, s);
      assert c.delay * Pow2(s) < c.delay * c.maxDelay by {
        MulStrict(Pow2(s), c.maxDelay, c.delay);
      }
      assert false;
    }
    DelayExactIff(c, attempt, previous, draw);
  }

  ghost predicate ExactAt(c: Config, attempt: nat, previous: int, draw: nat)
    requires attempt >= 1
  {
    ComputeDelay(c, attempt, previous, draw) == Ideal(c, attempt)
  }

  /** The whole schedule is exact if and only if none of the first 64 attempts misleads: a finite check. */
  lemma {:induction false} ScheduleExactIff(c: Config)
    requires Plain(c)
    ensures (forall a: nat, previous: int, draw: nat :: a >= 1 ==> ExactAt(c, a, previous, draw))
       <==> (forall a: nat :: 1 <= a <= 64 ==> !Misleading(c, a))
  {
    forall a: nat, previous: int, draw: nat | a >= 1
      ensures ExactAt(c, a, previous, draw) <==> !Misleading(c, a)
    {
      DelayExactIff(c, a, previous, draw);
    }
    forall a: nat | 1 <= a <= 64
      ensures ExactAt(c, a, 0, 0) <==> !Misleading(c, a)
    {
      DelayExactIff(c, a, 0, 0);
    }
  }

  lemma {:induction false} MulStrict(a: int, b: int, p: int)
    requires a < b && p > 0
    ensures p * a < p * b
  {
  }

  /** The ideal schedule, and with it the real one within the bound, never decreases. */
  lemma {:induction false} IdealMonotone(c: Config, a: nat, b: nat)
    requires c.delay > 0 && 1 <= a <= b
    ensures Ideal(c, a) <= Ideal(c, b)
  {
    Pow2Add(b - a, a - 1);
    Pow2Positive(b - a);
    Pow2Positive(a - 1);
    MulMono(1, Pow2(b - a), Pow2(a - 1));
    assert Pow2(a - 1) <= Pow2(b - 1);
    MulMono(Pow2(a - 1), Pow2(b - 1), c.delay);
  }

  /** Outside the bound the delay can be wrong: 5ns shifted by 62 wraps to 2^62 and is taken for real. */
  lemma {:induction false} BackoffInexactOutside(previous: int, draw: nat)
    ensures var c := Config(70, 5, MAX_DURATION, false, None);
            Plain(c) && ComputeDelay(c, 63, previous, draw) == TWO63 / 2 && Ideal(c, 63) == MAX_DURATION
  {
    Pow2Of64();
    assert Pow2(63) == 2 * Pow2(62);
    assert 5 * Pow2(62) == TWO64 + TWO63 / 2;
  }

  /** With jitter the wait stays between the capped delay and one and a half times it, below the ceiling. */
  lemma {:induction false} JitterRange(d: int, maxDelay: int, draw: nat)
    requires 0 < d && 0 < maxDelay <= TWO63 / 2
    requires Min(d, maxDelay) / 2 > 0 ==> draw < Min(d, maxDelay) / 2
    ensures var base := Min(d, maxDelay);
            base <= CapDelay(d, maxDelay, true, draw) <= Min(base + base / 2, maxDelay)
  {
    WrapSmall(Min(d, maxDelay) + (if Min(d, maxDelay) / 2 > 0 then draw else 0));
  }

  /** Jitter on the exact schedule: the draw is added to the ideal delay, and the ceiling still holds. */
  lemma {:induction false} JitteredBackoff(c: Config, attempt: nat, previous: int, draw: nat)
    requires Plain(c.(jitter := false)) && c.jitter && c.maxDelay <= TWO63 / 2
    requires attempt >= 1 && c.delay * c.maxDelay <= TWO63 && draw <= Ideal(c, attempt) / 2
    ensures ComputeDelay(c, attempt, previous, draw)
         == if Ideal(c, attempt) >= 2 then Min(Ideal(c, attempt) + draw, c.maxDelay) else Ideal(c, attempt)
  {
    BackoffExact(c.(jitter := false), attempt, previous, draw);
    assert Ideal(c.(jitter := false), attempt) == Ideal(c, attempt);
    WrapSmall(Ideal(c, attempt) + draw);
  }

  /** Without a ceiling the strategy behaves as under the largest one a duration can express. */
  lemma {:induction false} NoCeilingIsLargest(c: Config, attempt: nat, previous: int, draw: nat)
    requires c.maxDelay <= 0 && !c.jitter && c.delayFunc.None? && 0 < c.delay < TWO63 && attempt >= 1
    ensures Plain(c.(maxDelay := MAX_DURATION))
    ensures ComputeDelay(c, attempt, previous, draw)
         == ComputeDelay(c.(maxDelay := MAX_DURATION), attempt, previous, draw)
    ensures ComputeDelay(c, attempt, previous, draw) == Min(c.delay * Pow2(attempt - 1), MAX_DURATION)
       <==> !Misleading(c.(maxDelay := MAX_DURATION), attempt)
  {
    var d := ShiftLeft(c.delay, attempt - 1);
    assert d <= MAX_DURATION;
    DelayExactIff(c.(maxDelay := MAX_DURATION), attempt, previous, draw);
  }

  /** A custom strategy is asked with the attempt and the previous delay, and only clamped. */
  lemma {:induction false} CustomDelay(c: Config, attempt: nat, previous: int, draw: nat)
    requires attempt >= 1 && c.delayFunc.Some? && !c.jitter
    ensures var wanted, d := c.delayFunc.value(attempt, previous), ComputeDelay(c, attempt, previous, draw);
            && (0 <= wanted && (c.maxDelay <= 0 || wanted <= c.maxDelay) ==> d == wanted)
            && (wanted < 0 ==> d == 0)
            && (0 < c.maxDelay < wanted ==> d == c.maxDelay)
  {
  }
}
