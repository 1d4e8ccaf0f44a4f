/**
 doRetry, normalize and Attempts of retry/retry.go. What fn returns, what the context says
 and the jitter draws are inputs indexed by the attempt.
 */
module Retry {
  import opened Options
  import opened Backoff

  const DEFAULT_MAX_RETRIES := 3
  const DEFAULT_DELAY := 100_000_000
  const DEFAULT_MAX_DELAY := 10_000_000_000

  type Error = nat

  datatype Outcome =
    | Succeeded
    | Cancelled                      // the context was done before an attempt
    | CancelledWaiting               // the context was done during a delay
    | NotRetried(err: Error)
    | Exhausted(last: Option<Error>)

  /** Everything a run of doRetry observes from outside. */
  datatype Env = Env(
    fn: nat -> Option<Error>,        // the error of the i-th execution, None on success
    done: nat -> bool,               // ctx.Err() != nil before the i-th execution
    doneWaiting: nat -> bool,        // ctx.Done() wins the select during the i-th delay
    draw: nat -> nat)

  /** The configuration: how long to wait, and which errors to retry; None is the nil predicate. */
  datatype Settings = Settings(backoff: Config, retryIf: Option<Error -> bool>)

  /** The delay before retry number attempt, threading the previous delay through. */
  function DelayOf(c: Config, env: Env, attempt: nat): int
    requires attempt >= 1
  {
    ComputeDelay(c, attempt, if attempt == 1 then 0 else DelayOf(c, env, attempt - 1), env.draw(attempt))
  }

  /** The first n delays of the strategy, in order. */
  function Schedule(c: Config, env: Env, n: nat): (r: seq<int>)
    ensures |r| == n
  {
    if n == 0 then [] else Schedule(c, env, n - 1) + [DelayOf(c, env, n)]
  }

  lemma {:induction false} ScheduleAt(c: Config, env: Env, n: nat, i: nat)
    requires i < n
    ensures Schedule(c, env, n)[i] == DelayOf(c, env, i + 1)
  {
    if i < n - 1 {
      ScheduleAt(c, env, n - 1, i);
    }
  }

  method NextDelay(c: Config, env: Env, attempt: nat, previous: int) returns (delay: int)
    requires previous == if attempt == 0 then 0 else DelayOf(c, env, attempt)
    ensures delay == DelayOf(c, env, attempt + 1)
  {
    delay := ComputeDelay(c, attempt + 1, previous, env.draw(attempt + 1));
  }

  /** The first n executions failed with errors worth retrying. */
  predicate Retriable(c: Settings, env: Env, n: int)
    requires c.retryIf.Some?
    decreases n
  {
    n > 0 ==> Retriable(c, env, n - 1) && env.fn(n - 1).Some? && c.retryIf.value(env.fn(n - 1).value)
  }

  /** The context was not done before any of the first n executions, nor during the delays between them. */
  predicate Undisturbed(env: Env, n: int)
    decreases n
  {
    n > 0 ==> Undisturbed(env, n - 1) && !env.done(n - 1) && (n > 1 ==> !env.doneWaiting(n - 1))
  }

  lemma {:induction false} EachExecution(c: Settings, env: Env, n: int, i: nat)
    requires c.retryIf.Some? && i < n
    ensures Retriable(c, env, n) ==> env.fn(i).Some? && c.retryIf.value(env.fn(i).value)
    ensures Undisturbed(env, n) ==> !env.done(i) && (i > 0 ==> !env.doneWaiting(i))
  {
    if i < n - 1 {
      EachExecution(c, env, n - 1, i);
    }
  }

  method DoRetry(c: Settings, env: Env) returns (r: Outcome, calls: nat, waits: seq<int>)
    requires c.retryIf.Some?
    // fn runs at most MaxRetries + 1 times, and not at all for a negative MaxRetries
    ensures calls <= if c.backoff.maxRetries < 0 then 0 else c.backoff.maxRetries + 1
    // every execution but a final successful one failed with an error worth retrying
    ensures Retriable(c, env, calls - 1)
    // a context that is done is noticed before the next execution, and during the next delay
    ensures Undisturbed(env, calls)
    ensures r.Succeeded? <==> calls > 0 && env.fn(calls - 1).None?
    ensures r.NotRetried? ==>
              0 < calls <= c.backoff.maxRetries && env.fn(calls - 1) == Some(r.err) && !c.retryIf.value(r.err)
    ensures r.Exhausted? ==>
              && calls == (if c.backoff.maxRetries < 0 then 0 else c.backoff.maxRetries + 1)
              && r.last == (if calls == 0 then None else env.fn(calls - 1))
    ensures r.Cancelled? ==> env.done(calls)
    ensures r.CancelledWaiting? ==> calls > 0 && env.doneWaiting(calls)
    // one delay per retry, each the one the strategy prescribes
    ensures r.Cancelled? || r.CancelledWaiting? ==>
              && calls <= c.backoff.maxRetries && |waits| == calls
              && Retriable(c, env, calls)
    ensures !r.Cancelled? && !r.CancelledWaiting? ==> |waits| == if calls == 0 then 0 else calls - 1
    ensures waits == Schedule(c.backoff, env, |waits|)
  {
    var lastErr: Option<Error> := None;
    var delay := 0;
    calls, waits := 0, [];
    var attempt := 0;
    while attempt <= c.backoff.maxRetries
      invariant attempt >= 0 && calls == attempt && |waits| == attempt
      invariant attempt > 0 ==> attempt <= c.backoff.maxRetries
      invariant Retriable(c, env, calls)
      invariant Undisturbed(env, calls) && (calls > 0 ==> !env.doneWaiting(calls))
      invariant lastErr == if calls == 0 then None else env.fn(calls - 1)
      invariant delay == if attempt == 0 then 0 else DelayOf(c.backoff, env, attempt)
      invariant waits == Schedule(c.backoff, env, attempt)
      decreases c.backoff.maxRetries - attempt
    {
      if env.done(attempt) {
        return Cancelled, calls, waits;
      }
      var err := env.fn(attempt);
      calls := calls + 1;
      if err.None? {
        return Succeeded, calls, waits;
      }
      lastErr := err;
      if attempt >= c.backoff.maxRetries {
        break;
      }
      if !c.retryIf.value(err.value) {
        return NotRetried(err.value), calls, waits;
      }
      delay := NextDelay(c.backoff, env, attempt, delay);
      waits := waits + [delay];
      if env.doneWaiting(attempt + 1) {
        return CancelledWaiting, calls, waits;
      }
      attempt := attempt + 1;
    }
    return Exhausted(lastErr), calls, waits;
  }

  /** Within the bound, the delays a run waits are the ideal ones and never decrease. */
  lemma {:induction false} ScheduleIsIdeal(c: Config, env: Env, n: nat, i: nat, j: nat)
    requires Plain(c) && c.delay * c.maxDelay <= TWO63 && i <= j < n
    ensures Schedule(c, env, n)[i] == Ideal(c, i + 1)
    ensures Schedule(c, env, n)[i] <= Schedule(c, env, n)[j]
  {
    ScheduleAt(c, env, n, i);
    ScheduleAt(c, env, n, j);
    BackoffExact(c, i + 1, if i == 0 then 0 else DelayOf(c, env, i), env.draw(i + 1));
    BackoffExact(c, j + 1, if j == 0 then 0 else DelayOf(c, env, j), env.draw(j + 1));
    IdealMonotone(c, i + 1, j + 1);
  }

  /** A custom strategy sees each delay it led to: every wait is its clamped answer to the one before. */
  lemma {:induction false} ScheduleIsCustom(c: Config, env: Env, n: nat, i: nat)
    requires c.delayFunc.Some? && !c.jitter && i < n
    ensures var waits := Schedule(c, env, n);
            var wanted := c.delayFunc.value(i + 1, if i == 0 then 0 else waits[i - 1]);
            && (0 <= wanted && (c.maxDelay <= 0 || wanted <= c.maxDelay) ==> waits[i] == wanted)
            && (wanted < 0 ==> waits[i] == 0)
            && (0 < c.maxDelay < wanted ==> waits[i] == c.maxDelay)
  {
    ScheduleAt(c, env, n, i);
    if i > 0 {
      ScheduleAt(c, env, n, i - 1);
    }
    CustomDelay(c, i + 1, if i == 0 then 0 else DelayOf(c, env, i), env.draw(i + 1));
  }

  // ---------------------------------------------------------------- configuration

  datatype Setting =
    | WithMaxRetries(n: int)
    | WithDelay(d: int)
    | WithMaxDelay(d: int)
    | WithDelayFunc(delayFunc: (int, int) -> int)
    | WithRetryIf(retryIf: Error -> bool)
    | WithJitter

  function Apply(c: Settings, o: Setting): Settings {
    match o
    case WithMaxRetries(n) => c.(backoff := c.backoff.(maxRetries := n))
    case WithDelay(d) => c.(backoff := c.backoff.(delay := d))
    case WithMaxDelay(d) => c.(backoff := c.backoff.(maxDelay := d))
    case WithDelayFunc(f) => c.(backoff := c.backoff.(delayFunc := Some(f)))
    case WithRetryIf(f) => c.(retryIf := Some(f))
    case WithJitter => c.(backoff := c.backoff.(jitter := true))
  }

  function Defaulted(c: Settings): Settings {
    Settings(
      c.backoff.(maxRetries := if c.backoff.maxRetries == 0 then DEFAULT_MAX_RETRIES else c.backoff.maxRetries,
                 delay := if c.backoff.delay == 0 then DEFAULT_DELAY else c.backoff.delay,
                 maxDelay := if c.backoff.maxDelay == 0 then DEFAULT_MAX_DELAY else c.backoff.maxDelay),
      Some(if c.retryIf.Some? then c.retryIf.value else AnyError()))
  }

  /** The default predicate: every error is retried. */
  function AnyError(): Error -> bool {
    _ => true
  }

  function ApplyAll(c: Settings, opts: seq<Setting>): Settings {
    if opts == [] then c else Apply(ApplyAll(c, opts[..|opts| - 1]), opts[|opts| - 1])
  }

  method Normalize(c: Settings, opts: seq<Setting>) returns (r: Settings)
    ensures r == ApplyAll(Defaulted(c), opts) && r.retryIf.Some?
  {
    r := c;
    if r.retryIf.None? {
      r := r.(retryIf := Some(AnyError()));
    }
    if r.backoff.maxRetries == 0 {
      r := r.(backoff := r.backoff.(maxRetries := DEFAULT_MAX_RETRIES));
    }
    if r.backoff.delay == 0 {
      r := r.(backoff := r.backoff.(delay := DEFAULT_DELAY));
    }
    if r.backoff.maxDelay == 0 {
      r := r.(backoff := r.backoff.(maxDelay := DEFAULT_MAX_DELAY));
    }
    for i := 0 to |opts|
      invariant r == ApplyAll(Defaulted(c), opts[..i]) && r.retryIf.Some?
    {
      assert opts[..i + 1][..i] == opts[..i];
      r := Apply(r, opts[i]);
    }
    assert opts[..|opts|] == opts;
  }

  function Attempts(c: Settings, opts: seq<Setting>): int {
    ApplyAll(Defaulted(c), opts).backoff.maxRetries + 1
  }

  /** DoWithRetryConfig runs fn at most Attempts times, and exactly that often if it never gives up early. */
  method DoWithRetryConfig(c: Settings, opts: seq<Setting>, env: Env) returns (r: Outcome, calls: nat, waits: seq<int>)
    ensures Attempts(c, opts) >= 1 ==> calls <= Attempts(c, opts)
    ensures r.Exhausted? && Attempts(c, opts) >= 1 ==> calls == Attempts(c, opts)
    ensures waits == Schedule(ApplyAll(Defaulted(c), opts).backoff, env, |waits|)
  {
    var normal := Normalize(c, opts);
    r, calls, waits := DoRetry(normal, env);
  }

  predicate SameKind(a: Setting, b: Setting) {
    || (a.WithMaxRetries? && b.WithMaxRetries?) || (a.WithDelay? && b.WithDelay?)
    || (a.WithMaxDelay? && b.WithMaxDelay?) || (a.WithDelayFunc? && b.WithDelayFunc?)
    || (a.WithRetryIf? && b.WithRetryIf?) || (a.WithJitter? && b.WithJitter?)
  }

  /** The setting is in force. */
  ghost predicate InForce(c: Settings, o: Setting) {
    match o
    case WithMaxRetries(n) => c.backoff.maxRetries == n
    case WithDelay(d) => c.backoff.delay == d
    case WithMaxDelay(d) => c.backoff.maxDelay == d
    case WithDelayFunc(f) => c.backoff.delayFunc == Some(f)
    case WithRetryIf(f) => c.retryIf == Some(f)
    case WithJitter => c.backoff.jitter
  }

  /** The last option of each kind is in force, explicit zeros included, and decides Attempts. */
  lemma {:induction false} LastOptionWins(c: Settings, opts: seq<Setting>, k: nat)
    requires k < |opts| && forall j :: k < j < |opts| ==> !SameKind(opts[j], opts[k])
    ensures InForce(ApplyAll(Defaulted(c), opts), opts[k])
    ensures opts[k].WithMaxRetries? ==> Attempts(c, opts) == opts[k].n + 1
  {
    if k < |opts| - 1 {
      LastOptionWins(c, opts[..|opts| - 1], k);
    }
  }

  /** Without options a field is what the configuration says, or the default where that says nothing. */
  lemma {:induction false} UnsetIsDefault(c: Settings)
    ensures var r := ApplyAll(Defaulted(c), []);
            && r.backoff.maxRetries == (if c.backoff.maxRetries != 0 then c.backoff.maxRetries else 3)
            && r.backoff.delay == (if c.backoff.delay != 0 then c.backoff.delay else 100_000_000)
            && r.backoff.maxDelay == (if c.backoff.maxDelay != 0 then c.backoff.maxDelay else 10_000_000_000)
            && r.backoff.jitter == c.backoff.jitter && r.backoff.delayFunc == c.backoff.delayFunc
            && r.retryIf.Some? && (c.retryIf.Some? ==> r.retryIf == c.retryIf)
  {
  }

  /** What no option sets stays as the configuration and the defaults have it. */
  lemma {:induction false} UnsetStays(c: Settings, opts: seq<Setting>, o: Setting)
    requires InForce(Defaulted(c), o) && forall i :: 0 <= i < |opts| ==> !SameKind(opts[i], o)
    ensures InForce(ApplyAll(Defaulted(c), opts), o)
  {
    if opts != [] {
      UnsetStays(c, opts[..|opts| - 1], o);
    }
  }

  /** With no predicate set, every error is retried: no run is given up for its error. */
  lemma {:induction false} UnsetRetriesAll(c: Settings, opts: seq<Setting>, err: Error)
    requires c.retryIf.None? && forall i :: 0 <= i < |opts| ==> !opts[i].WithRetryIf?
    ensures ApplyAll(Defaulted(c), opts).retryIf.Some? && ApplyAll(Defaulted(c), opts).retryIf.value(err)
  {
    if opts != [] {
      UnsetRetriesAll(c, opts[..|opts| - 1], err);
    }
  }

  /** The default configuration lies within the exactness bound. */
  lemma {:induction false} DefaultsAreExact(env: Env)
    ensures var c := Defaulted(Settings(Config(0, 0, 0, false, None), None)).backoff;
            Plain(c) && c.delay * c.maxDelay <= TWO63 && DelayOf(c, env, 1) == DEFAULT_DELAY
  {
    var c := Defaulted(Settings(Config(0, 0, 0, false, None), None)).backoff;
    BackoffExact(c, 1, 0, env.draw(1));
  }
}
