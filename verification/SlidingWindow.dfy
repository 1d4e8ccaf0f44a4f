/** SlidingWindow of ratelimit/ratelimit.go. Times and the window are integer nanoseconds. */
module SlidingWindowModel {
  import opened Options

  const MILLISECOND := 1_000_000

  ghost predicate Sorted(s: seq<int>) {
    forall i, j :: 0 <= i < j < |s| ==> s[i] <= s[j]
  }

  /** pruneExpired: drop the leading records that are not after windowStart. */
  function Prune(requests: seq<int>, windowStart: int): seq<int> {
    if requests == [] || requests[0] > windowStart then requests else Prune(requests[1..], windowStart)
  }

  /** The decision of Allow on a list of records. */
  predicate Allowed(requests: seq<int>, limit: int, window: int, now: int) {
    |Prune(requests, now - window)| < limit
  }

  /** The number of elements <= t. */
  function UpTo(s: seq<int>, t: int): nat {
    if s == [] then 0 else UpTo(s[..|s| - 1], t) + (if s[|s| - 1] <= t then 1 else 0)
  }

  /** The number of elements in the half-open interval (lo, hi]. */
  function CountIn(s: seq<int>, lo: int, hi: int): int {
    UpTo(s, hi) - UpTo(s, lo)
  }

  /** In a sorted list the elements <= t are exactly the first UpTo(s, t) ones. */
  lemma {:induction false} UpToSplits(s: seq<int>, t: int)
    requires Sorted(s)
    ensures UpTo(s, t) <= |s|
    ensures forall i :: 0 <= i < UpTo(s, t) ==> s[i] <= t
    ensures forall i :: UpTo(s, t) <= i < |s| ==> s[i] > t
  {
    if s != [] {
      UpToSplits(s[..|s| - 1], t);
    }
  }

  lemma {:induction false} UpToUnique(s: seq<int>, t: int, n: nat)
    requires Sorted(s) && n <= |s|
    requires forall i :: 0 <= i < n ==> s[i] <= t
    requires forall i :: n <= i < |s| ==> s[i] > t
    ensures UpTo(s, t) == n
  {
    if s != [] {
      UpToUnique(s[..|s| - 1], t, if n == |s| then n - 1 else n);
    }
  }

  /** Any limit + 1 consecutive admissions span at least a whole window. */
  ghost predicate Spaced(admitted: seq<int>, limit: int, window: int) {
    forall i: nat :: SpacedAt(admitted, limit, window, i)
  }

  predicate SpacedAt(admitted: seq<int>, limit: int, window: int, i: nat) {
    0 <= i + limit < |admitted| && i < |admitted| ==> admitted[i] <= admitted[i + limit] - window
  }

  /** Every half-open interval of one window holds at most `limit` admissions. */
  lemma {:induction false} WindowBound(admitted: seq<int>, limit: int, window: int, t: int)
    requires limit > 0 && window >= 0 && Sorted(admitted) && Spaced(admitted, limit, window)
    ensures CountIn(admitted, t - window, t) <= limit
  {
    UpToSplits(admitted, t - window);
    UpToSplits(admitted, t);
    var lo, hi := UpTo(admitted, t - window), UpTo(admitted, t);
    assert SpacedAt(admitted, limit, window, lo);
  }

  lemma {:induction false} PruneShortens(requests: seq<int>, windowStart: int)
    ensures |Prune(requests, windowStart)| <= |requests|
  {
    if requests != [] && requests[0] <= windowStart {
      PruneShortens(requests[1..], windowStart);
    }
  }

  /** With a full list, a call is admitted exactly from the instant the oldest record leaves the window. */
  lemma {:induction false} EarliestAdmission(requests: seq<int>, limit: int, window: int, t: int)
    requires limit > 0 && |requests| == limit && Sorted(requests)
    ensures Allowed(requests, limit, window, t) <==> t >= requests[0] + window
  {
    if t >= requests[0] + window {
      PruneShortens(requests[1..], t - window);
    }
  }

  /** Exactly the first n records are not after windowStart, as far as the scan looks. */
  ghost predicate Leading(requests: seq<int>, windowStart: int, n: int) {
    && 0 <= n <= |requests|
    && (forall i :: 0 <= i < n ==> requests[i] <= windowStart)
    && (n < |requests| ==> requests[n] > windowStart)
  }

  /** Dropping exactly the leading records not after windowStart is Prune. */
  lemma {:induction false} PruneIs(requests: seq<int>, windowStart: int, n: nat)
    requires Leading(requests, windowStart, n)
    ensures Prune(requests, windowStart) == requests[n..]
  {
    if n > 0 {
      PruneIs(requests[1..], windowStart, n - 1);
    }
  }

  /** How the records relate to the log of admissions after the first `gone` were pruned at time now. */
  ghost predicate Represents(admitted: seq<int>, requests: seq<int>, gone: nat, window: int, now: int) {
    && Sorted(admitted) && (admitted != [] ==> admitted[|admitted| - 1] <= now)
    && gone <= |admitted| && requests == admitted[gone..]
    && forall i :: 0 <= i < gone ==> admitted[i] <= now - window
  }

  ghost predicate Good(limit: int, window: int, admitted: seq<int>, requests: seq<int>, gone: nat, clock: int) {
    && limit >= 0 && window >= 0
    && Represents(admitted, requests, gone, window, clock)
    && (if limit > 0 then |requests| <= limit && Spaced(admitted, limit, window) else admitted == [])
  }

  lemma {:induction false} GoodRequests(limit: int, window: int, admitted: seq<int>, requests: seq<int>, gone: nat, clock: int)
    requires Good(limit, window, admitted, requests, gone, clock)
    ensures Sorted(requests) && (limit > 0 ==> |requests| <= limit)
  {
  }

  lemma {:induction false} PruneGood(limit: int, window: int, admitted: seq<int>, requests: seq<int>, gone: nat, clock: int,
                  now: int, n: nat)
    requires Good(limit, window, admitted, requests, gone, clock) && clock <= now
    requires Leading(requests, now - window, n)
    ensures requests[n..] == Prune(requests, now - window)
    ensures Good(limit, window, admitted, requests[n..], gone + n, now)
    ensures |requests[n..]| == CountIn(admitted, now - window, now)
  {
    PruneIs(requests, now - window, n);
    LeadingOfLog(admitted, gone, now - window, n);
    LiveCount(admitted, gone + n, window, now);
  }

  lemma {:induction false} LeadingOfLog(admitted: seq<int>, gone: nat, windowStart: int, n: nat)
    requires gone <= |admitted| && Leading(admitted[gone..], windowStart, n)
    requires forall i :: 0 <= i < gone ==> admitted[i] <= windowStart
    ensures Leading(admitted, windowStart, gone + n)
  {
    var rest := admitted[gone..];
    forall i | gone <= i < gone + n ensures admitted[i] <= windowStart {
      assert admitted[i] == rest[i - gone];
    }
  }

  lemma {:induction false} LiveCount(admitted: seq<int>, gone: nat, window: int, now: int)
    requires Sorted(admitted) && (admitted != [] ==> admitted[|admitted| - 1] <= now)
    requires window >= 0 && Leading(admitted, now - window, gone)
    ensures CountIn(admitted, now - window, now) == |admitted| - gone
  {
    UpToUnique(admitted, now - window, gone);
    UpToUnique(admitted, now, |admitted|);
  }

  lemma {:induction false} AppendGood(limit: int, window: int, admitted: seq<int>, requests: seq<int>, gone: nat, now: int)
    requires Good(limit, window, admitted, requests, gone, now) && |requests| < limit
    ensures Good(limit, window, admitted + [now], requests + [now], gone, now)
  {
    SpacedAppend(admitted, limit, window, now, gone);
  }

  class SlidingWindow {
    const limit: int
    const window: int
    var requests: seq<int>
    ghost var admitted: seq<int>     // every admission so far
    ghost var gone: nat              // how many of them have been pruned
    ghost var clock: int             // the latest clock reading

    ghost predicate Valid()
      reads this
    {
      Good(limit, window, admitted, requests, gone, clock)
    }

    /** A negative limit is refused by the allocation of the record list, with a panic. */
    constructor (limit: int, window: int, now: int)
      requires limit >= 0 && window >= 0
      ensures Valid() && admitted == [] && clock == now && this.limit == limit && this.window == window
    {
      this.limit, this.window, requests, admitted, gone, clock := limit, window, [], [], 0, now;
    }

    /** The scan of pruneExpired: how many leading records have left the window. */
    method CountExpired(windowStart: int) returns (i: nat)
      ensures Leading(requests, windowStart, i)
    {
      i := 0;
      while i < |requests|
        invariant 0 <= i <= |requests|
        invariant forall j :: 0 <= j < i ==> requests[j] <= windowStart
      {
        if requests[i] > windowStart {
          break;
        }
        i := i + 1;
      }
    }

    method PruneExpired(now: int)
      requires Valid() && clock <= now
      modifies this`requests, this`gone, this`clock
      ensures Valid() && clock == now
      ensures requests == Prune(old(requests), now - window)
      ensures |requests| == CountIn(admitted, now - window, now)
    {
      var i := CountExpired(now - window);
      PruneGood(limit, window, admitted, requests, gone, clock, now, i);
      requests, gone, clock := requests[i..], gone + i, now;
    }

    /**
     Admits exactly when fewer than `limit` admissions lie in (now - window, now]; with a
     positive limit a refusal means that exactly `limit` lie there.
     */
    method Allow(now: int) returns (ok: bool)
      requires Valid() && clock <= now
      modifies this
      ensures Valid() && clock == now
      ensures ok <==> Allowed(old(requests), limit, window, now)
      ensures ok <==> CountIn(old(admitted), now - window, now) < limit
      ensures !ok && limit > 0 ==> CountIn(old(admitted), now - window, now) == limit
      ensures admitted == if ok then old(admitted) + [now] else old(admitted)
      ensures admitted == ReferenceStep(old(admitted), limit, window, now)
      ensures requests == Prune(old(requests), now - window) + (if ok then [now] else [])
    {
      PruneExpired(now);
      if |requests| >= limit {
        return false;
      }
      AppendGood(limit, window, admitted, requests, gone, now);
      requests := requests + [now];
      admitted := admitted + [now];
      return true;
    }

    /** RetryAfter; None is the index-out-of-range panic on an empty list. */
    method RetryAfter(now: int) returns (wait: Option<int>)
      requires Valid() && clock <= now
      modifies this`requests, this`gone, this`clock
      ensures Valid() && clock == now && requests == Prune(old(requests), now - window)
      ensures wait.None? <==> limit == 0
      ensures wait.Some? && |requests| < limit ==> wait.value == 0
      ensures wait.Some? && |requests| == limit ==> HintIsExact(requests, limit, window, now, wait.value)
    {
      PruneExpired(now);
      if |requests| < limit {
        return Some(0);
      }
      if |requests| == 0 {
        return None;
      }
      GoodRequests(limit, window, admitted, requests, gone, clock);
      var w := UntilOldestLeaves(now);
      return Some(w);
    }

    /** The time until the oldest record leaves the window, at least a millisecond. */
    method UntilOldestLeaves(now: int) returns (wait: int)
      requires limit > 0 && |requests| == limit && Sorted(requests)
      ensures HintIsExact(requests, limit, window, now, wait)
    {
      HintFrom(requests, limit, window, now);
      wait := requests[0] + window - now;
      if wait < MILLISECOND {
        wait := MILLISECOND;
      }
    }
  }

  /**
   The hint is the least wait of a millisecond or more after which a retry is admitted; unless
   it was clamped, because a shorter wait would do as well, it is the least of all.
   */
  ghost predicate HintIsExact(requests: seq<int>, limit: int, window: int, now: int, wait: int) {
    && wait >= MILLISECOND
    && (forall t :: t >= now + MILLISECOND ==> (Allowed(requests, limit, window, t) <==> t >= now + wait))
    && ((wait == MILLISECOND && Allowed(requests, limit, window, now + MILLISECOND - 1))
        || forall t :: Allowed(requests, limit, window, t) <==> t >= now + wait)
  }

  lemma {:induction false} HintFrom(requests: seq<int>, limit: int, window: int, now: int)
    requires limit > 0 && |requests| == limit && Sorted(requests)
    ensures var w := requests[0] + window - now;
            HintIsExact(requests, limit, window, now, if w < MILLISECOND then MILLISECOND else w)
  {
    forall t ensures Allowed(requests, limit, window, t) <==> t >= requests[0] + window {
      EarliestAdmission(requests, limit, window, t);
    }
  }

  lemma {:induction false} SpacedAppend(admitted: seq<int>, limit: int, window: int, now: int, gone: nat)
    requires limit > 0 && Spaced(admitted, limit, window)
    requires gone <= |admitted| && |admitted| - gone < limit
    requires forall i :: 0 <= i < gone ==> admitted[i] <= now - window
    ensures Spaced(admitted + [now], limit, window)
  {
    forall i: nat ensures SpacedAt(admitted + [now], limit, window, i) {
      assert SpacedAt(admitted, limit, window, i);
    }
  }

  /** With a limit of 0 RetryAfter has no record to look at: it panics, where 0 is documented. */
  method RetryAfterPanics(limit: int, window: int, now: int) returns (panicked: bool)
    requires limit >= 0 && window >= 0
    ensures panicked <==> limit == 0
  {
    var sw := new SlidingWindow(limit, window, now);
    var wait := sw.RetryAfter(now);
    panicked := wait.None?;
  }

  // ---------------------------------------------------------------- whole runs

  /** The limiter as documented: count every admission in the window before the call. */
  function Reference(limit: int, window: int, times: seq<int>): seq<int> {
    if times == [] then []
    else
      ReferenceStep(Reference(limit, window, times[..|times| - 1]), limit, window, times[|times| - 1])
  }

  function ReferenceStep(admitted: seq<int>, limit: int, window: int, now: int): seq<int> {
    if CountIn(admitted, now - window, now) < limit then admitted + [now] else admitted
  }

  lemma {:induction false} ReferencePrefix(limit: int, window: int, times: seq<int>, i: nat)
    requires i < |times|
    ensures Reference(limit, window, times[..i + 1])
         == ReferenceStep(Reference(limit, window, times[..i]), limit, window, times[i])
  {
    assert times[..i + 1][..i] == times[..i];
  }

  /** Pruning is only a representation: a run admits exactly what counting all admissions would. */
  method RunWindow(limit: int, window: int, start: int, times: seq<int>) returns (admitted: seq<int>)
    requires limit >= 0 && window >= 0 && Sorted(times) && (times != [] ==> start <= times[0])
    ensures admitted == Reference(limit, window, times)
  {
    var sw := new SlidingWindow(limit, window, start);
    admitted := [];
    var i := 0;
    while i < |times|
      invariant 0 <= i <= |times|
      invariant sw.Valid() && sw.limit == limit && sw.window == window
      invariant i < |times| ==> sw.clock <= times[i]
      invariant admitted == sw.admitted == Reference(limit, window, times[..i])
    {
      ReferencePrefix(limit, window, times, i);
      var ok := sw.Allow(times[i]);
      if ok {
        admitted := admitted + [times[i]];
      }
      i := i + 1;
    }
    assert times[..i] == times;
  }

  lemma {:induction false} StepSpaced(a: seq<int>, limit: int, window: int, now: int)
    requires limit > 0 && window >= 0 && Sorted(a) && Spaced(a, limit, window)
    requires a != [] ==> a[|a| - 1] <= now
    ensures var a' := ReferenceStep(a, limit, window, now);
            Sorted(a') && Spaced(a', limit, window) && (a' != [] ==> a'[|a'| - 1] <= now)
  {
    UpToSplits(a, now - window);
    UpToUnique(a, now, |a|);
    if CountIn(a, now - window, now) < limit {
      SpacedAppend(a, limit, window, now, UpTo(a, now - window));
    }
  }

  lemma {:induction false} ReferenceSpaced(limit: int, window: int, times: seq<int>)
    requires limit > 0 && window >= 0 && Sorted(times)
    ensures var a := Reference(limit, window, times);
            && Sorted(a) && Spaced(a, limit, window)
            && (a != [] ==> times != [] && a[|a| - 1] <= times[|times| - 1])
  {
    if times != [] {
      var n := |times| - 1;
      ReferenceSpaced(limit, window, times[..n]);
      StepSpaced(Reference(limit, window, times[..n]), limit, window, times[n]);
    }
  }

  /** Over every run with a positive limit, each interval (t - window, t] holds at most `limit` admissions. */
  lemma {:induction false} RunBound(limit: int, window: int, times: seq<int>, t: int)
    requires limit > 0 && window >= 0 && Sorted(times)
    ensures CountIn(Reference(limit, window, times), t - window, t) <= limit
  {
    ReferenceSpaced(limit, window, times);
    WindowBound(Reference(limit, window, times), limit, window, t);
  }
}
