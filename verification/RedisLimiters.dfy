/**
 The Lua scripts of ratelimit/redis.go as atomic steps on a key that Redis may expire, proved
 to make the same decisions as the in-memory limiters that never forget. `lost` says that
 Redis has dropped the key before the call; it may do so at any call from the deadline on.
 */
module RedisTokenBucket {
  import opened RealFacts
  import opened TokenBucketModel

  datatype Hash = Missing | Hash(tokens: real, lastUpdate: real, deadline: real)

  function Ceil(x: real): int {
    -((-x).Floor)
  }

  function Ttl(p: Params): int
    requires p.rate > 0.0
  {
    Ceil(p.burst / p.rate) + 1
  }

  /** The token count the script works with, times in seconds. */
  function ScriptTokens(p: Params, h: Hash, now: real): real {
    var tokens := if h.Missing? then p.burst else h.tokens;
    var last := if h.Missing? then now else h.lastUpdate;
    var elapsed := if now - last > 0.0 then now - last else 0.0;
    var t := tokens + elapsed * p.rate;
    if t < p.burst then t else p.burst
  }

  function Script(p: Params, h: Hash, now: real): (Hash, bool)
    requires p.rate > 0.0
  {
    var t := ScriptTokens(p, h, now);
    (Hash(if t >= 1.0 then t - 1.0 else t, now, now + Ttl(p) as real), t >= 1.0)
  }

  /** One call: its instant in nanoseconds and whether the key was gone. */
  datatype Call = Call(now: int, lost: bool)

  function Seen(h: Hash, c: Call): Hash {
    if c.lost then Missing else h
  }

  predicate MayLose(h: Hash, c: Call) {
    c.lost ==> h.Missing? || Seconds(c.now) >= h.deadline
  }

  /** The script state matches the in-memory bucket, and its deadline leaves time for a full refill. */
  ghost predicate Matches(p: Params, h: Hash, b: Bucket) {
    && 0.0 <= b.tokens <= p.burst
    && match h
       case Missing => b.tokens == p.burst
       case Hash(tokens, last, deadline) =>
         tokens == b.tokens && last == Seconds(b.last) && deadline * p.rate >= last * p.rate + p.burst
  }

  lemma {:induction false} SecondsDiff(a: int, b: int)
    ensures Seconds(b) - Seconds(a) == Seconds(b - a)
  {
  }

  lemma {:induction false} TtlCovers(p: Params, now: real)
    requires p.rate > 0.0
    ensures (now + Ttl(p) as real) * p.rate >= now * p.rate + p.burst
  {
    var full := p.burst / p.rate;
    assert full * p.rate == p.burst;
    assert Ttl(p) as real >= full;
    MulLe(full, Ttl(p) as real, p.rate);
    assert (now + Ttl(p) as real) * p.rate == now * p.rate + Ttl(p) as real * p.rate;
  }

  /** A bucket whose key may have expired would have refilled completely. */
  lemma {:induction false} LostMeansFull(p: Params, h: Hash, b: Bucket, now: int)
    requires p.rate > 0.0 && Matches(p, h, b) && b.last <= now
    requires h.Missing? || Seconds(now) >= h.deadline
    ensures Refilled(p, b, now) == p.burst
  {
    SecondsMono(b.last, now, p.rate);
    if h.Hash? {
      MulLe(h.deadline, Seconds(now), p.rate);
      SecondsDiff(b.last, now);
      assert Seconds(now) * p.rate - Seconds(b.last) * p.rate == Seconds(now - b.last) * p.rate;
    }
  }

  lemma {:induction false} SameTokens(p: Params, h: Hash, b: Bucket, c: Call)
    requires p.rate > 0.0 && Matches(p, h, b) && b.last <= c.now && MayLose(h, c)
    ensures ScriptTokens(p, Seen(h, c), Seconds(c.now)) == Refilled(p, b, c.now)
  {
    SecondsDiff(b.last, c.now);
    if Seen(h, c).Missing? {
      LostMeansFull(p, h, b, c.now);
    } else {
      assert Seconds(c.now - b.last) >= 0.0;
    }
  }

  lemma {:induction false} StepMatches(p: Params, h: Hash, b: Bucket, c: Call)
    requires p.rate > 0.0 && Matches(p, h, b) && b.last <= c.now && MayLose(h, c)
    ensures Script(p, Seen(h, c), Seconds(c.now)).1 <==> Allowed(p, b, c.now)
    ensures Matches(p, Script(p, Seen(h, c), Seconds(c.now)).0, Step(p, b, c.now))
  {
    SameTokens(p, h, b, c);
    StepInRange(p, b, c.now);
    TtlCovers(p, Seconds(c.now));
  }

  // ---------------------------------------------------------------- whole runs

  function RunScript(p: Params, calls: seq<Call>): Hash
    requires p.rate > 0.0
  {
    if calls == [] then Missing
    else
      var c := calls[|calls| - 1];
      Script(p, Seen(RunScript(p, calls[..|calls| - 1]), c), Seconds(c.now)).0
  }

  function RunMemory(p: Params, start: int, calls: seq<Call>): Bucket {
    if calls == [] then Bucket(p.burst, start)
    else Step(p, RunMemory(p, start, calls[..|calls| - 1]), calls[|calls| - 1].now)
  }

  /** Times do not decrease from the creation of the in-memory bucket on, and keys are lost only when due. */
  ghost predicate Legal(p: Params, start: int, calls: seq<Call>)
    requires p.rate > 0.0
  {
    calls != [] ==>
      var before, c := calls[..|calls| - 1], calls[|calls| - 1];
      && Legal(p, start, before)
      && (if before == [] then start else before[|before| - 1].now) <= c.now
      && MayLose(RunScript(p, before), c)
  }

  /** Key expiry is unobservable: after every run the next call is decided alike by both limiters. */
  lemma {:induction false} ExpiryUnobservable(p: Params, start: int, calls: seq<Call>, next: Call)
    requires p.rate > 0.0 && p.burst >= 0.0 && Legal(p, start, calls + [next])
    ensures Script(p, Seen(RunScript(p, calls), next), Seconds(next.now)).1
       <==> Allowed(p, RunMemory(p, start, calls), next.now)
  {
    assert (calls + [next])[..|calls|] == calls;
    RunsMatch(p, start, calls);
    StepMatches(p, RunScript(p, calls), RunMemory(p, start, calls), next);
  }

  lemma {:induction false} RunsMatch(p: Params, start: int, calls: seq<Call>)
    requires p.rate > 0.0 && p.burst >= 0.0 && Legal(p, start, calls)
    ensures Matches(p, RunScript(p, calls), RunMemory(p, start, calls))
    ensures RunMemory(p, start, calls).last == if calls == [] then start else calls[|calls| - 1].now
  {
    if calls != [] {
      var before := calls[..|calls| - 1];
      RunsMatch(p, start, before);
      StepMatches(p, RunScript(p, before), RunMemory(p, start, before), calls[|calls| - 1]);
    }
  }
}

module RedisSlidingWindow {
  import opened SlidingWindowModel
  import opened MemberNames

  /** A member string of the sorted set. */
  datatype Member = Member(text: string)

  const SLACK := 1000  // milliseconds added to the window by PEXPIRE

  /** A sorted set and its expiry; the empty set is the missing key. Times are milliseconds. */
  datatype ZSet = ZSet(scores: map<Member, int>, deadline: int)

  datatype Call = Call(now: int, member: Member, lost: bool)

  function Above(scores: map<Member, int>, cutoff: int): map<Member, int> {
    map m | m in scores && scores[m] > cutoff :: scores[m]
  }

  function Visible(z: ZSet, c: Call): map<Member, int> {
    if c.lost then map[] else z.scores
  }

  predicate MayLose(z: ZSet, c: Call) {
    c.lost ==> z.scores == map[] || c.now >= z.deadline
  }

  function Script(z: ZSet, limit: int, window: int, c: Call): (ZSet, bool) {
    var live := Above(Visible(z, c), c.now - window);
    if |live| < limit
    then (ZSet(live[c.member := c.now], c.now + window + SLACK), true)
    else (ZSet(live, z.deadline), false)
  }

  function RunScript(limit: int, window: int, calls: seq<Call>): ZSet {
    if calls == [] then ZSet(map[], 0)
    else Script(RunScript(limit, window, calls[..|calls| - 1]), limit, window, calls[|calls| - 1]).0
  }

  function RunMemory(limit: int, window: int, calls: seq<Call>): seq<int> {
    if calls == [] then []
    else
      NextRequests(RunMemory(limit, window, calls[..|calls| - 1]), limit, window, calls[|calls| - 1].now)
  }

  /** What SlidingWindow.Allow leaves of its records. */
  function NextRequests(requests: seq<int>, limit: int, window: int, now: int): seq<int> {
    Prune(requests, now - window) + (if Allowed(requests, limit, window, now) then [now] else [])
  }

  /** Times do not decrease, and keys are lost only when due. */
  ghost predicate Legal(limit: int, window: int, calls: seq<Call>) {
    calls != [] ==>
      var before, c := calls[..|calls| - 1], calls[|calls| - 1];
      && Legal(limit, window, before)
      && (before != [] ==> before[|before| - 1].now <= c.now)
      && MayLose(RunScript(limit, window, before), c)
  }

  ghost predicate UniqueMembers(calls: seq<Call>) {
    forall i, j :: 0 <= i < j < |calls| ==> calls[i].member != calls[j].member
  }

  // ---------------------------------------------------------------- the two representations

  /** The same records as a list with their members, oldest first. */
  datatype Entry = Entry(member: Member, time: int)

  ghost function Times(es: seq<Entry>): (r: seq<int>)
    ensures |r| == |es|
  {
    if es == [] then [] else [es[0].time] + Times(es[1..])
  }

  ghost predicate Clean(es: seq<Entry>) {
    && (forall i, j :: 0 <= i < j < |es| ==> es[i].member != es[j].member)
    && (forall i, j :: 0 <= i < j < |es| ==> es[i].time <= es[j].time)
  }

  /** The set holds exactly the records of the list. */
  ghost predicate Stores(scores: map<Member, int>, es: seq<Entry>) {
    && (forall e :: e in es ==> e.member in scores && scores[e.member] == e.time)
    && (forall m :: m in scores ==> Entry(m, scores[m]) in es)
  }

  ghost predicate Within(es: seq<Entry>, used: set<Member>) {
    forall e :: e in es ==> e.member in used
  }

  lemma {:induction false} StoresCount(scores: map<Member, int>, es: seq<Entry>)
    requires Clean(es) && Stores(scores, es)
    ensures |scores| == |es|
  {
    if es == [] {
      assert scores == map[];
    } else {
      var front, last := es[..|es| - 1], es[|es| - 1];
      assert es == front + [last];
      StoresFront(scores, front, last);
      StoresCount(scores - {last.member}, front);
      RemoveOne(scores, last.member);
    }
  }

  lemma {:induction false} StoresFront(scores: map<Member, int>, front: seq<Entry>, last: Entry)
    requires Clean(front + [last]) && Stores(scores, front + [last])
    ensures Clean(front) && Stores(scores - {last.member}, front)
    ensures last.member in scores
  {
    var es := front + [last];
    assert last in es;
    assert forall i :: 0 <= i < |front| ==> es[i] == front[i];
    forall e | e in front ensures e in es && e.member != last.member {
      var i :| 0 <= i < |front| && front[i] == e;
      assert es[i] == e && es[|front|] == last;
    }
  }

  lemma {:induction false} RemoveOne(scores: map<Member, int>, m: Member)
    requires m in scores
    ensures |scores| == |scores - {m}| + 1
  {
    assert scores.Keys == (scores - {m}).Keys + {m};
    assert |scores.Keys| == |scores| && |(scores - {m}).Keys| == |scores - {m}|;
  }

  ghost function PruneEntries(es: seq<Entry>, cutoff: int): seq<Entry> {
    if es == [] || es[0].time > cutoff then es else PruneEntries(es[1..], cutoff)
  }

  lemma {:induction false} PruneEntriesTimes(es: seq<Entry>, cutoff: int)
    ensures Times(PruneEntries(es, cutoff)) == Prune(Times(es), cutoff)
  {
    if es != [] && es[0].time <= cutoff {
      PruneEntriesTimes(es[1..], cutoff);
    }
  }

  lemma {:induction false} PruneEntriesSuffix(es: seq<Entry>, cutoff: int) returns (n: nat)
    requires Clean(es)
    ensures n <= |es| && PruneEntries(es, cutoff) == es[n..]
    ensures forall i :: 0 <= i < n ==> es[i].time <= cutoff
    ensures forall i :: n <= i < |es| ==> es[i].time > cutoff
  {
    if es == [] || es[0].time > cutoff {
      n := 0;
    } else {
      var rest := es[1..];
      var k := PruneEntriesSuffix(rest, cutoff);
      n := k + 1;
      assert rest[k..] == es[n..];
      forall i | 0 <= i < n ensures es[i].time <= cutoff {
        if i > 0 { assert rest[i - 1] == es[i]; }
      }
      forall i | n <= i < |es| ensures es[i].time > cutoff {
        assert rest[i - 1] == es[i];
      }
    }
  }

  lemma {:induction false} CleanSuffix(es: seq<Entry>, n: nat)
    requires Clean(es) && n <= |es|
    ensures Clean(es[n..])
    ensures forall e :: e in es[n..] ==> e in es
  {
  }

  /** zremrangebyscore on the set is pruning the list. */
  lemma {:induction false} AboveIsPrune(scores: map<Member, int>, es: seq<Entry>, cutoff: int)
    requires Clean(es) && Stores(scores, es)
    ensures LiveRecords(es, PruneEntries(es, cutoff), Above(scores, cutoff))
  {
    var n := PruneEntriesSuffix(es, cutoff);
    var live := es[n..];
    CleanSuffix(es, n);
    assert forall e :: e in es && e.time > cutoff ==> e in live;
    assert forall e :: e in live ==> e.time > cutoff;
  }

  ghost predicate LiveRecords(es: seq<Entry>, live: seq<Entry>, scores: map<Member, int>) {
    Clean(live) && Stores(scores, live) && forall e :: e in live ==> e in es
  }

  lemma {:induction false} TimesAppend(es: seq<Entry>, e: Entry)
    ensures Times(es + [e]) == Times(es) + [e.time]
  {
    if es != [] {
      TimesAppend(es[1..], e);
      assert (es + [e])[1..] == es[1..] + [e];
    }
  }

  // ---------------------------------------------------------------- whole runs

  /** The set after a run up to time now, against the list of the same records. */
  ghost predicate Tied(z: ZSet, es: seq<Entry>, window: int, now: int) {
    && Clean(es) && Stores(z.scores, es)
    && (forall e :: e in es ==> e.time <= now && e.time + window + SLACK <= z.deadline)
  }

  ghost function NextEntries(es: seq<Entry>, limit: int, window: int, c: Call): seq<Entry> {
    var live := PruneEntries(es, c.now - window);
    if |live| < limit then live + [Entry(c.member, c.now)] else live
  }

  lemma {:induction false} PruneEverything(es: seq<Entry>, cutoff: int)
    requires forall e :: e in es ==> e.time <= cutoff
    ensures PruneEntries(es, cutoff) == []
  {
    if es != [] {
      assert forall e :: e in es[1..] ==> e in es;
      PruneEverything(es[1..], cutoff);
    }
  }

  /** A key that may have expired holds nothing inside the window. */
  lemma {:induction false} LostMeansEmpty(z: ZSet, es: seq<Entry>, window: int, now: int, c: Call)
    requires Tied(z, es, window, now) && MayLose(z, c) && c.lost
    ensures PruneEntries(es, c.now - window) == []
  {
    PruneEverything(es, c.now - window);
  }

  /** The live set the script counts holds exactly the records of the pruned list. */
  lemma {:induction false} SameLive(z: ZSet, es: seq<Entry>, window: int, now: int, c: Call)
    requires Tied(z, es, window, now) && MayLose(z, c)
    ensures LiveRecords(es, PruneEntries(es, c.now - window), Above(Visible(z, c), c.now - window))
  {
    if c.lost {
      LostMeansEmpty(z, es, window, now, c);
    } else {
      AboveIsPrune(z.scores, es, c.now - window);
    }
  }

  lemma {:induction false} CleanAppend(live: seq<Entry>, e: Entry)
    requires Clean(live)
    requires forall x :: x in live ==> x.member != e.member && x.time <= e.time
    ensures Clean(live + [e])
  {
    assert forall i :: 0 <= i < |live| ==> live[i] in live;
  }

  /** One call of the script, against one step of the list. */
  lemma {:induction false} StepTied(z: ZSet, es: seq<Entry>, limit: int, window: int, now: int, c: Call)
    requires Tied(z, es, window, now) && now <= c.now && MayLose(z, c)
    requires forall e :: e in es ==> e.member != c.member
    ensures Script(z, limit, window, c).1 <==> |PruneEntries(es, c.now - window)| < limit
    ensures Tied(Script(z, limit, window, c).0, NextEntries(es, limit, window, c), window, c.now)
  {
    var live := PruneEntries(es, c.now - window);
    assert NextEntries(es, limit, window, c) == if |live| < limit then live + [Entry(c.member, c.now)] else live;
    var scores := Above(Visible(z, c), c.now - window);
    SameLive(z, es, window, now, c);
    StoresCount(scores, live);
    if |live| < limit {
      StepAdmits(es, live, scores, Entry(c.member, c.now), window);
    } else {
      StepRefuses(es, live, scores, window, now, c.now, z.deadline);
    }
  }

  lemma {:induction false} StepRefuses(es: seq<Entry>, live: seq<Entry>, scores: map<Member, int>,
                                       window: int, now: int, later: int, deadline: int)
    requires LiveRecords(es, live, scores) && now <= later
    requires forall e :: e in es ==> e.time <= now && e.time + window + SLACK <= deadline
    ensures Tied(ZSet(scores, deadline), live, window, later)
  {
  }

  lemma {:induction false} StepAdmits(es: seq<Entry>, live: seq<Entry>, scores: map<Member, int>, e: Entry, window: int)
    requires LiveRecords(es, live, scores)
    requires forall x :: x in es ==> x.member != e.member && x.time <= e.time
    ensures Tied(ZSet(scores[e.member := e.time], e.time + window + SLACK), live + [e], window, e.time)
  {
    CleanAppend(live, e);
  }

  lemma {:induction false} PruneKeepsMembers(es: seq<Entry>, cutoff: int, used: set<Member>)
    requires Within(es, used)
    ensures Within(PruneEntries(es, cutoff), used)
  {
    if es != [] && es[0].time <= cutoff {
      assert forall e :: e in es[1..] ==> e in es;
      PruneKeepsMembers(es[1..], cutoff, used);
    }
  }

  lemma {:induction false} NextWithin(es: seq<Entry>, limit: int, window: int, c: Call, used: set<Member>)
    requires Within(es, used)
    ensures Within(NextEntries(es, limit, window, c), used + {c.member})
  {
    PruneKeepsMembers(es, c.now - window, used);
  }

  /** One step of the list, against one call of the in-memory window. */
  lemma {:induction false} StepTimes(es: seq<Entry>, limit: int, window: int, c: Call)
    ensures |PruneEntries(es, c.now - window)| < limit <==> Allowed(Times(es), limit, window, c.now)
    ensures Times(NextEntries(es, limit, window, c)) == NextRequests(Times(es), limit, window, c.now)
  {
    PruneEntriesTimes(es, c.now - window);
    TimesAppend(PruneEntries(es, c.now - window), Entry(c.member, c.now));
  }

  ghost function CallMembers(calls: seq<Call>): set<Member> {
    set c | c in calls :: c.member
  }

  lemma {:induction false} CallMembersAppend(before: seq<Call>, c: Call)
    requires forall i :: 0 <= i < |before| ==> before[i].member != c.member
    ensures c.member !in CallMembers(before)
    ensures CallMembers(before + [c]) == CallMembers(before) + {c.member}
  {
  }

  lemma {:induction false} RunsTied(limit: int, window: int, calls: seq<Call>, now: int) returns (es: seq<Entry>)
    requires Legal(limit, window, calls) && UniqueMembers(calls)
    requires calls != [] ==> calls[|calls| - 1].now <= now
    ensures Tied(RunScript(limit, window, calls), es, window, now)
    ensures Times(es) == RunMemory(limit, window, calls)
    ensures Within(es, CallMembers(calls))
  {
    es := [];
    if calls != [] {
      var before, c := calls[..|calls| - 1], calls[|calls| - 1];
      var es0 := RunsTied(limit, window, before, c.now);
      CallMembersAppend(before, c);
      assert before + [c] == calls;
      StepTied(RunScript(limit, window, before), es0, limit, window, c.now, c);
      NextWithin(es0, limit, window, c, CallMembers(before));
      StepTimes(es0, limit, window, c);
      es := NextEntries(es0, limit, window, c);
      TiedLater(RunScript(limit, window, calls), es, window, c.now, now);
    }
  }

  lemma {:induction false} TiedLater(z: ZSet, es: seq<Entry>, window: int, now: int, later: int)
    requires Tied(z, es, window, now) && now <= later
    ensures Tied(z, es, window, later)
  {
  }

  /** With unique members the script decides the next call as the never-expiring in-memory window does. */
  lemma {:induction false} UniqueDecideAlike(limit: int, window: int, calls: seq<Call>, next: Call)
    requires Legal(limit, window, calls + [next]) && UniqueMembers(calls + [next])
    ensures Script(RunScript(limit, window, calls), limit, window, next).1
       <==> Allowed(RunMemory(limit, window, calls), limit, window, next.now)
  {
    var all := calls + [next];
    assert all[..|calls|] == calls;
    assert forall i :: 0 <= i < |calls| ==> all[i] == calls[i] && all[i].member != all[|calls|].member;
    var es := RunsTied(limit, window, calls, next.now);
    CallMembersAppend(calls, next);
    StepTied(RunScript(limit, window, calls), es, limit, window, next.now, next);
    StepTimes(es, limit, window, next);
  }

  // ---------------------------------------------------------------- the members the limiter builds

  /** A request: its millisecond, the prefix of its process, that process's counter, and whether the key was gone. */
  datatype Request = Request(now: int, prefix: string, counter: nat, lost: bool)

  function CallOf(r: Request): Call {
    Call(r.now, Member(Name(r.prefix, r.now, r.counter)), r.lost)
  }

  function CallsOf(rs: seq<Request>): (calls: seq<Call>)
    ensures |calls| == |rs| && forall i :: 0 <= i < |rs| ==> calls[i] == CallOf(rs[i])
  {
    if rs == [] then [] else CallsOf(rs[..|rs| - 1]) + [CallOf(rs[|rs| - 1])]
  }

  /** A process never repeats a counter, and no two processes share a prefix. */
  ghost predicate Numbered(rs: seq<Request>) {
    && (forall i :: 0 <= i < |rs| ==> ':' !in rs[i].prefix)
    && (forall i, j :: 0 <= i < j < |rs| ==> rs[i].prefix != rs[j].prefix || rs[i].counter != rs[j].counter)
  }

  lemma {:induction false} NumberedUnique(rs: seq<Request>)
    requires Numbered(rs)
    ensures UniqueMembers(CallsOf(rs))
  {
    var calls := CallsOf(rs);
    forall i, j | 0 <= i < j < |calls| ensures calls[i].member != calls[j].member {
      var a, b := rs[i], rs[j];
      if calls[i].member == calls[j].member {
        NameInjective(a.prefix, a.now, a.counter, b.prefix, b.now, b.counter);
      }
    }
  }

  /**
   Key expiry is unobservable: after every run with nondecreasing timestamps, whatever the
   processes taking part, the script decides the next request as the never-expiring in-memory
   window does. That the members are unique follows from how they are built.
   */
  lemma {:induction false} ExpiryUnobservable(limit: int, window: int, rs: seq<Request>, next: Request)
    requires Numbered(rs + [next]) && Legal(limit, window, CallsOf(rs + [next]))
    ensures Script(RunScript(limit, window, CallsOf(rs)), limit, window, CallOf(next)).1
       <==> Allowed(RunMemory(limit, window, CallsOf(rs)), limit, window, next.now)
  {
    assert (rs + [next])[..|rs|] == rs;
    assert CallsOf(rs + [next]) == CallsOf(rs) + [CallOf(next)];
    NumberedUnique(rs + [next]);
    UniqueDecideAlike(limit, window, CallsOf(rs), CallOf(next));
  }

  /** Without unique members the set undercounts: three calls pass a limit of two. */
  lemma {:induction false} DuplicateMembersUndercount()
    ensures var m := Member("a");
            var calls := [Call(0, m, false), Call(0, m, false)];
            && Script(RunScript(2, 10, calls), 2, 10, Call(0, m, false)).1
            && !Allowed(RunMemory(2, 10, calls), 2, 10, 0)
  {
    var m := Member("a");
    var c := Call(0, m, false);
    var z1 := Script(ZSet(map[], 0), 2, 10, c).0;
    assert z1.scores == map[m := 0];
    var z2 := Script(z1, 2, 10, c).0;
    assert Above(z1.scores, -10) == map[m := 0];
    assert z2.scores == map[m := 0];
    assert [c][..0] == [] && [c, c][..1] == [c];
    assert RunScript(2, 10, [c]) == z1 && RunScript(2, 10, [c, c]) == z2;
    assert RunMemory(2, 10, [c]) == [0];
    assert RunMemory(2, 10, [c, c]) == [0, 0];
  }
}
