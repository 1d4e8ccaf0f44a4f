/**
 CryptionWriter and TimeoutWriter of httpx/respw over an underlying writer that does not
 fail. The underlying writer records every WriteHeader and Write call it receives.
 */
module ResponseWriters {
  import opened Options

  type Bytes = seq<bv8>
  type Headers = map<string, seq<string>>

  datatype Emit = Status(code: int) | Body(bytes: Bytes)

  class Response {
    const canFlush: bool           // implements http.Flusher
    var log: seq<Emit>
    var headers: Headers

    constructor (canFlush: bool)
      ensures log == [] && headers == map[] && this.canFlush == canFlush
    {
      this.canFlush, log, headers := canFlush, [], map[];
    }

    method WriteHeader(code: int)
      modifies this`log
      ensures log == old(log) + [Status(code)]
    {
      log := log + [Status(code)];
    }

    method Write(p: Bytes)
      modifies this`log
      ensures log == old(log) + [Body(p)]
    {
      log := log + [Body(p)];
    }
  }

  /** The body bytes of a log, in order. */
  function Sent(log: seq<Emit>): Bytes {
    if log == [] then []
    else Sent(log[..|log| - 1]) + (match log[|log| - 1] case Status(_) => [] case Body(b) => b)
  }

  lemma {:induction false} SentAppend(log: seq<Emit>, e: Emit)
    ensures Sent(log + [e]) == Sent(log) + (match e case Status(_) => [] case Body(b) => b)
  {
    assert (log + [e])[..|log|] == log;
  }

  lemma {:induction false} SentHead(head: seq<Emit>)
    requires |head| <= 1 && (head != [] ==> head[0].Status?)
    ensures Sent(head) == []
  {
  }

  /** The log is an optional status followed by bodies only: at most one status, before any byte. */
  ghost predicate StatusFirst(log: seq<Emit>, status: int, none: int) {
    if status == none then forall i :: 0 <= i < |log| ==> log[i].Body?
    else log != [] && log[0] == Status(status) && forall i :: 0 < i < |log| ==> log[i].Body?
  }

  /** What the switch to passthrough emits. */
  ghost function SpillLog(code: int, buf: Bytes, p: Bytes): seq<Emit> {
    Head(code) + (if |buf| > 0 then [Body(buf), Body(p)] else [Body(p)])
  }

  ghost function Head(code: int): seq<Emit> {
    if code != 0 then [Status(code)] else []
  }

  lemma {:induction false} SpillMeaning(code: int, buf: Bytes, p: Bytes)
    ensures Sent(SpillLog(code, buf, p)) == buf + p
    ensures StatusFirst(SpillLog(code, buf, p), code, 0)
  {
    var head := Head(code);
    SentHead(head);
    if |buf| > 0 {
      SentAppend(head, Body(buf));
      SentAppend(head + [Body(buf)], Body(p));
      assert SpillLog(code, buf, p) == (head + [Body(buf)]) + [Body(p)];
    } else {
      SentAppend(head, Body(p));
    }
  }

  // ---------------------------------------------------------------- CryptionWriter

  class CryptionWriter {
    const w: Response
    const maxBufBytes: int
    var buf: Bytes
    var code: int                  // 0 until WriteHeader is called
    var overflowed: bool
    var wroteHeader: bool
    ghost var accepted: Bytes      // everything Write has taken
    ghost var sentCode: int        // the recorded status when the limit was exceeded

    ghost predicate Valid()
      reads this, w
    {
      && (overflowed <==> maxBufBytes > 0 && |accepted| > maxBufBytes)
      && Sent(w.log) + buf == accepted
      && (if overflowed then buf == [] && wroteHeader && StatusFirst(w.log, sentCode, 0)
          else w.log == [] && !wroteHeader)
    }

    constructor (w: Response, maxBufBytes: int)
      requires w.log == []
      ensures Valid() && this.w == w && this.maxBufBytes == maxBufBytes
      ensures accepted == [] && !overflowed && code == 0
    {
      this.w, this.maxBufBytes := w, maxBufBytes;
      buf, code, overflowed, wroteHeader, accepted, sentCode := [], 0, false, false, [], 0;
    }

    method WriteHeaderToUnderlying()
      modifies this`wroteHeader, w`log
      ensures wroteHeader
      ensures w.log == if !old(wroteHeader) && code != 0 then old(w.log) + [Status(code)] else old(w.log)
    {
      if wroteHeader {
        return;
      }
      wroteHeader := true;
      if code != 0 {
        w.WriteHeader(code);
      }
    }

    /** Buffers up to the limit; beyond it the status, the buffer and every later write go straight through. */
    method Write(p: Bytes) returns (n: nat)
      requires Valid()
      modifies this, w`log
      ensures Valid() && accepted == old(accepted) + p && n == |p| && code == old(code)
      ensures !overflowed ==> w.log == old(w.log)
      ensures overflowed && !old(overflowed) ==> sentCode == code
      ensures old(overflowed) ==> overflowed && sentCode == old(sentCode)
    {
      if overflowed {
        PassThrough(p);
      } else if maxBufBytes > 0 && |buf| + |p| > maxBufBytes {
        SpillMeaning(code, buf, p);
        assert accepted == buf;
        Spill(p);
      } else {
        assert Sent(w.log) == [];
        buf := buf + p;
        accepted := accepted + p;
      }
      return |p|;
    }

    method PassThrough(p: Bytes)
      requires Valid() && overflowed
      modifies this`accepted, w`log
      ensures Valid() && accepted == old(accepted) + p
    {
      SentAppend(w.log, Body(p));
      accepted := accepted + p;
      w.Write(p);
    }

    /** The switch to passthrough: status, buffered bytes, then this write. */
    method Spill(p: Bytes)
      requires !overflowed && !wroteHeader && w.log == []
      modifies this, w`log
      ensures w.log == SpillLog(old(code), old(buf), p)
      ensures overflowed && wroteHeader && buf == [] && sentCode == code == old(code)
      ensures accepted == old(accepted) + p
    {
      overflowed, sentCode := true, code;
      WriteHeaderToUnderlying();
      if |buf| > 0 {
        w.Write(buf);
        buf := [];
      }
      w.Write(p);
      accepted := accepted + p;
    }

    method WriteHeader(code: int)
      requires Valid()
      modifies this, w`log
      ensures Valid() && this.code == code && w.log == old(w.log)
      ensures accepted == old(accepted) && overflowed == old(overflowed) && sentCode == old(sentCode)
    {
      this.code := code;
      if overflowed {
        WriteHeaderToUnderlying();
      }
    }
  }

  // ---------------------------------------------------------------- TimeoutWriter

  const STATUS_OK := 200

  class TimeoutWriter {
    const w: Response
    var h: Headers
    var wbuf: Bytes
    var timedOut: bool
    var wroteHeader: bool
    var headerSent: bool
    var code: int
    ghost var accepted: Bytes
    ghost var sentCode: int        // the recorded status when the header went out

    ghost predicate Valid()
      reads this, w
    {
      && Sent(w.log) + wbuf == accepted
      && (if headerSent then StatusFirst(w.log, sentCode, STATUS_OK) else w.log == [])
      && (!wroteHeader ==> code == STATUS_OK)
    }

    ghost function RecordedSoFar(): Option<int>
      reads this
    {
      if wroteHeader then Some(code) else None
    }

    ghost function SentSoFar(): Option<int>
      reads this
    {
      if headerSent then Some(sentCode) else None
    }

    constructor (w: Response)
      requires w.log == []
      ensures Valid() && this.w == w && accepted == [] && !timedOut && !headerSent && !wroteHeader && h == map[]
    {
      this.w := w;
      h, wbuf, timedOut, wroteHeader, headerSent, code := map[], [], false, false, false, STATUS_OK;
      accepted, sentCode := [], STATUS_OK;
    }

    /** Writes after a timeout are refused (ok == false) and change nothing; nothing is ever sent. */
    method Write(p: Bytes) returns (ok: bool)
      requires Valid()
      modifies this
      ensures Valid() && (ok <==> !old(timedOut)) && timedOut == old(timedOut)
      ensures accepted == if ok then old(accepted) + p else old(accepted)
      ensures !ok ==> wbuf == old(wbuf) && code == old(code) && wroteHeader == old(wroteHeader)
      ensures headerSent == old(headerSent) && sentCode == old(sentCode) && h == old(h)
      ensures ok ==> wroteHeader && code == if old(wroteHeader) then old(code) else STATUS_OK
    {
      if timedOut {
        return false;
      }
      if !wroteHeader {
        code, wroteHeader := STATUS_OK, true;
      }
      wbuf := wbuf + p;
      accepted := accepted + p;
      return true;
    }

    /** Only the first status is recorded. As in the source, a timeout does not prevent that. */
    method WriteHeader(code: int)
      requires Valid()
      modifies this`code, this`wroteHeader
      ensures Valid() && wroteHeader
      ensures this.code == if old(wroteHeader) then old(this.code) else code
    {
      if !wroteHeader {
        this.code, wroteHeader := code, true;
      }
    }

    /** Header().Set: the headers are collected until the first send. */
    method SetHeader(name: string, values: seq<string>)
      requires Valid()
      modifies this`h
      ensures Valid() && h == old(h)[name := values]
    {
      h := h[name := values];
    }

    method SendHeader()
      requires Valid()
      modifies this`headerSent, this`sentCode, w
      ensures Valid() && headerSent && Sent(w.log) == old(Sent(w.log))
      ensures sentCode == if old(headerSent) then old(sentCode) else code
      ensures w.headers == if old(headerSent) then old(w.headers) else old(w.headers) + h
    {
      if headerSent {
        return;
      }
      headerSent, sentCode := true, code;
      w.headers := w.headers + h;
      if code != STATUS_OK {
        SentAppend([], Status(code));
        w.WriteHeader(code);
      }
    }

    method Drain()
      requires Valid() && headerSent
      modifies this`wbuf, w`log
      ensures Valid() && wbuf == [] && Sent(w.log) == accepted && w.log != []
    {
      SentAppend(w.log, Body(wbuf));
      w.Write(wbuf);
      wbuf := [];
    }

    /** Sends the status and everything accepted; also after a timeout, if called then. */
    method Done()
      requires Valid()
      modifies this, w
      ensures Valid() && headerSent && wbuf == [] && Sent(w.log) == accepted == old(accepted) && w.log != []
      ensures timedOut == old(timedOut) && code == old(code) && wroteHeader == old(wroteHeader) && h == old(h)
      ensures w.headers == if old(headerSent) then old(w.headers) else old(w.headers) + h
      ensures sentCode == if old(headerSent) then old(sentCode) else old(code)
    {
      SendHeader();
      Drain();
    }

    method Timeout()
      requires Valid()
      modifies this`timedOut
      ensures Valid() && timedOut
    {
      timedOut := true;
    }

    /** Sends what is buffered, unless the request has timed out or the client cannot be flushed to. */
    method Flush()
      requires Valid()
      modifies this, w
      ensures Valid() && accepted == old(accepted) && timedOut == old(timedOut)
      ensures code == old(code) && wroteHeader == old(wroteHeader) && h == old(h)
      ensures w.headers == if old(timedOut) || !w.canFlush || old(headerSent) then old(w.headers) else old(w.headers) + h
      ensures old(timedOut) || !w.canFlush ==>
                w.log == old(w.log) && wbuf == old(wbuf) && headerSent == old(headerSent)
      ensures !old(timedOut) && w.canFlush ==> headerSent && wbuf == [] && Sent(w.log) == accepted && w.log != []
      ensures sentCode == if old(timedOut) || !w.canFlush || old(headerSent) then old(sentCode) else old(code)
    {
      if !w.canFlush {
        return;
      }
      if timedOut {
        return;
      }
      SendHeader();
      Drain();
    }
  }

  // ---------------------------------------------------------------- whole call sequences

  datatype Call = WriteCall(p: Bytes) | HeaderCall(code: int)

  function Written(calls: seq<Call>): Bytes {
    if calls == [] then []
    else Written(calls[..|calls| - 1]) + (match calls[|calls| - 1] case WriteCall(p) => p case HeaderCall(_) => [])
  }

  /** The status in force when the accepted bytes first exceed the limit, if they do. */
  function StatusAtOverflow(calls: seq<Call>, limit: int): int {
    if calls == [] then 0
    else
      var before := calls[..|calls| - 1];
      if calls[|calls| - 1].HeaderCall? && !Exceeds(before, limit) then calls[|calls| - 1].code
      else StatusAtOverflow(before, limit)
  }

  predicate Exceeds(calls: seq<Call>, limit: int) {
    limit > 0 && |Written(calls)| > limit
  }

  /**
   Any sequence of calls on a CryptionWriter: sent bytes followed by buffered bytes are the
   bytes written; the writer overflows exactly when their number exceeds a positive limit;
   until then nothing is sent, afterwards nothing is buffered; and one status at most
   leads the output, the one in force when the limit was crossed.
   */
  method RunCryption(calls: seq<Call>, limit: int) returns (log: seq<Emit>, buffered: Bytes, overflowed: bool)
    ensures Sent(log) + buffered == Written(calls)
    ensures overflowed <==> Exceeds(calls, limit)
    ensures if overflowed then buffered == [] && StatusFirst(log, StatusAtOverflow(calls, limit), 0) else log == []
  {
    var w := new Response(true);
    var c := new CryptionWriter(w, limit);
    for i := 0 to |calls|
      invariant c.Valid() && c.w == w && c.maxBufBytes == limit
      invariant c.accepted == Written(calls[..i])
      invariant (if c.overflowed then c.sentCode else c.code) == StatusAtOverflow(calls[..i], limit)
    {
      assert calls[..i + 1][..i] == calls[..i];
      match calls[i]
      case WriteCall(p) => var _ := c.Write(p);
      case HeaderCall(code) => c.WriteHeader(code);
    }
    assert calls[..|calls|] == calls;
    log, buffered, overflowed := w.log, c.buf, c.overflowed;
  }

  datatype TimedCall =
    | TWrite(p: Bytes) | THeader(code: int) | TSet(name: string, values: seq<string>) | TFlush | TTimeout | TDone

  predicate Expired(calls: seq<TimedCall>) {
    TTimeout in calls
  }

  /** Done always sends what is buffered, Flush before the timeout and to a flusher only. */
  predicate Drains(c: TimedCall, expired: bool, canFlush: bool) {
    c.TDone? || (c.TFlush? && canFlush && !expired)
  }

  /** The bytes of the writes made before the timeout. */
  function Taken(calls: seq<TimedCall>): Bytes {
    if calls == [] then []
    else
      var before, last := calls[..|calls| - 1], calls[|calls| - 1];
      Taken(before) + (if last.TWrite? && !Expired(before) then last.p else [])
  }

  /** How many of those bytes have been sent: all of them at each Done, and at each Flush before the timeout. */
  function Flushed(calls: seq<TimedCall>, canFlush: bool): nat {
    if calls == [] then 0
    else
      var before, last := calls[..|calls| - 1], calls[|calls| - 1];
      if Drains(last, Expired(before), canFlush) then |Taken(before)|
      else Flushed(before, canFlush)
  }

  /** The first status recorded: an explicit one at any time, or 200 by a write before the timeout. */
  function Recorded(calls: seq<TimedCall>): Option<int> {
    if calls == [] then None
    else
      var before := calls[..|calls| - 1];
      NextRecorded(Recorded(before), Expired(before), calls[|calls| - 1])
  }

  function NextRecorded(recorded: Option<int>, expired: bool, c: TimedCall): Option<int> {
    if recorded.Some? then recorded
    else if c.THeader? then Some(c.code)
    else if c.TWrite? && !expired then Some(STATUS_OK)
    else None
  }

  /** The status the client has been sent: the one recorded when the first Done, or Flush before the timeout, came. */
  function StatusSent(calls: seq<TimedCall>, canFlush: bool): Option<int> {
    if calls == [] then None
    else
      var before := calls[..|calls| - 1];
      NextSent(StatusSent(before, canFlush), Recorded(before), Expired(before), calls[|calls| - 1], canFlush)
  }

  function NextSent(sent: Option<int>, recorded: Option<int>, expired: bool, c: TimedCall, canFlush: bool): Option<int> {
    if sent.None? && Drains(c, expired, canFlush) then Some(StatusOr(recorded)) else sent
  }

  function StatusOr(recorded: Option<int>): int {
    if recorded.Some? then recorded.value else STATUS_OK
  }

  /** The response headers set so far. */
  function HeadersSet(calls: seq<TimedCall>): Headers {
    if calls == [] then map[]
    else
      var before, last := calls[..|calls| - 1], calls[|calls| - 1];
      if last.TSet? then HeadersSet(before)[last.name := last.values] else HeadersSet(before)
  }

  /** The headers the client has been sent: those set when the status went out. */
  function HeadersSent(calls: seq<TimedCall>, canFlush: bool): Headers {
    if calls == [] then map[]
    else
      var before := calls[..|calls| - 1];
      if StatusSent(before, canFlush).None? && Drains(calls[|calls| - 1], Expired(before), canFlush)
      then HeadersSet(before)
      else HeadersSent(before, canFlush)
  }

  lemma {:induction false} HeadersSnoc(calls: seq<TimedCall>, c: TimedCall, canFlush: bool)
    ensures HeadersSet(calls + [c]) == if c.TSet? then HeadersSet(calls)[c.name := c.values] else HeadersSet(calls)
    ensures HeadersSent(calls + [c], canFlush)
         == if StatusSent(calls, canFlush).None? && Drains(c, Expired(calls), canFlush) then HeadersSet(calls)
            else HeadersSent(calls, canFlush)
  {
    assert (calls + [c])[..|calls|] == calls;
  }

  lemma {:induction false} NoneSentYet(calls: seq<TimedCall>, canFlush: bool)
    ensures StatusSent(calls, canFlush).None? ==> HeadersSent(calls, canFlush) == map[]
  {
    if calls != [] {
      NoneSentYet(calls[..|calls| - 1], canFlush);
    }
  }

  lemma {:induction false} StatusSnoc(calls: seq<TimedCall>, c: TimedCall, canFlush: bool)
    ensures Expired(calls + [c]) <==> Expired(calls) || c.TTimeout?
    ensures Recorded(calls + [c]) == NextRecorded(Recorded(calls), Expired(calls), c)
    ensures StatusSent(calls + [c], canFlush)
         == NextSent(StatusSent(calls, canFlush), Recorded(calls), Expired(calls), c, canFlush)
  {
    assert (calls + [c])[..|calls|] == calls;
  }

  lemma {:induction false} TimedSnoc(calls: seq<TimedCall>, c: TimedCall, canFlush: bool)
    ensures Taken(calls + [c]) == (if c.TWrite? && !Expired(calls) then Taken(calls) + c.p else Taken(calls))
    ensures Flushed(calls + [c], canFlush)
         == if Drains(c, Expired(calls), canFlush) then |Taken(calls)| else Flushed(calls, canFlush)
  {
    assert (calls + [c])[..|calls|] == calls;
    assert Taken(calls) + [] == Taken(calls);
  }

  /**
   Any sequence of calls on a TimeoutWriter: exactly the bytes written before the timeout
   are sent or still buffered, in order; Write and Flush send nothing after the timeout;
   the output is led by the status recorded when the header went out, 200 being implied, and
   the headers are those set by then.
   */
  method RunTimeout(calls: seq<TimedCall>, canFlush: bool) returns (log: seq<Emit>, headers: Headers, buffered: Bytes)
    ensures headers == HeadersSent(calls, canFlush)
    ensures Sent(log) + buffered == Taken(calls)
    ensures |Sent(log)| == Flushed(calls, canFlush)
    ensures var sent := StatusSent(calls, canFlush);
            if sent.None? then log == [] else log != [] && StatusFirst(log, sent.value, STATUS_OK)
  {
    var w := new Response(canFlush);
    var t := new TimeoutWriter(w);
    for i := 0 to |calls|
      invariant t.w == w && w.canFlush == canFlush && Follows(t, calls[..i])
    {
      ServeNext(t, calls[..i], calls[i]);
      assert calls[..i] + [calls[i]] == calls[..i + 1];
    }
    assert calls[..|calls|] == calls;
    log, headers, buffered := w.log, w.headers, t.wbuf;
  }

  /** The writer is where a sequence of calls on a new one leads. */
  ghost predicate Follows(t: TimeoutWriter, calls: seq<TimedCall>)
    reads t, t.w
  {
    && t.Valid() && (t.headerSent ==> t.w.log != [])
    && (t.timedOut <==> Expired(calls)) && t.accepted == Taken(calls)
    && |Sent(t.w.log)| == Flushed(calls, t.w.canFlush)
    && t.RecordedSoFar() == Recorded(calls) && t.SentSoFar() == StatusSent(calls, t.w.canFlush)
    && t.h == HeadersSet(calls) && t.w.headers == HeadersSent(calls, t.w.canFlush)
  }

  method ServeNext(t: TimeoutWriter, ghost calls: seq<TimedCall>, c: TimedCall)
    requires Follows(t, calls)
    modifies t, t.w
    ensures Follows(t, calls + [c])
  {
    TimedSnoc(calls, c, t.w.canFlush);
    StatusSnoc(calls, c, t.w.canFlush);
    HeadersSnoc(calls, c, t.w.canFlush);
    NoneSentYet(calls, t.w.canFlush);
    assert map[] + t.h == t.h;
    Serve(t, c);
  }

  /** One call on the writer. */
  method Serve(t: TimeoutWriter, c: TimedCall)
    requires t.Valid() && (t.headerSent ==> t.w.log != [])
    modifies t, t.w
    ensures t.Valid() && (t.headerSent ==> t.w.log != [])
    ensures t.timedOut <==> old(t.timedOut) || c.TTimeout?
    ensures t.accepted == if c.TWrite? && !old(t.timedOut) then old(t.accepted) + c.p else old(t.accepted)
    ensures Sent(t.w.log) == if Drains(c, old(t.timedOut), t.w.canFlush) then old(t.accepted) else old(Sent(t.w.log))
    ensures t.RecordedSoFar() == NextRecorded(old(t.RecordedSoFar()), old(t.timedOut), c)
    ensures t.SentSoFar()
         == NextSent(old(t.SentSoFar()), old(t.RecordedSoFar()), old(t.timedOut), c, t.w.canFlush)
    ensures t.h == if c.TSet? then old(t.h)[c.name := c.values] else old(t.h)
    ensures t.w.headers == if !old(t.headerSent) && Drains(c, old(t.timedOut), t.w.canFlush)
                           then old(t.w.headers) + old(t.h) else old(t.w.headers)
  {
    match c
    case TWrite(p) => var _ := t.Write(p);
    case THeader(code) => t.WriteHeader(code);
    case TSet(name, values) => t.SetHeader(name, values);
    case TFlush => t.Flush();
    case TTimeout => t.Timeout();
    case TDone => t.Done();
  }

  // ---------------------------------------------------------------- a status set after the timeout

  /** A status was recorded or the header sent: by WriteHeader, Done, or before the timeout by Write or Flush. */
  ghost predicate Answered(calls: seq<TimedCall>, canFlush: bool) {
    exists i :: 0 <= i < |calls| && Answers(calls[i], Expired(calls[..i]), canFlush)
  }

  predicate Answers(c: TimedCall, expired: bool, canFlush: bool) {
    c.THeader? || (c.TWrite? && !expired) || Drains(c, expired, canFlush)
  }

  lemma {:induction false} AnsweredLast(calls: seq<TimedCall>, n: nat, canFlush: bool)
    requires |calls| == n + 1
    ensures Answered(calls, canFlush) <==>
            Answered(calls[..n], canFlush) || Answers(calls[n], Expired(calls[..n]), canFlush)
  {
    var before := calls[..n];
    forall i | 0 <= i < n
      ensures Answers(before[i], Expired(before[..i]), canFlush) <==> Answers(calls[i], Expired(calls[..i]), canFlush)
    {
      assert before[..i] == calls[..i];
    }
    if Answered(before, canFlush) {
      var i :| 0 <= i < n && Answers(before[i], Expired(before[..i]), canFlush);
      assert Answers(calls[i], Expired(calls[..i]), canFlush);
    }
  }

  lemma {:induction false} AnsweredIff(calls: seq<TimedCall>, canFlush: bool)
    ensures Answered(calls, canFlush) <==> Recorded(calls).Some? || StatusSent(calls, canFlush).Some?
  {
    if calls != [] {
      AnsweredIff(calls[..|calls| - 1], canFlush);
      AnsweredLast(calls, |calls| - 1, canFlush);
    }
  }

  /** No later call can tell the two sequences apart. */
  ghost predicate Alike(a: seq<TimedCall>, b: seq<TimedCall>, canFlush: bool) {
    && Expired(a) && Expired(b)
    && StatusSent(a, canFlush) == StatusSent(b, canFlush)
    && (Recorded(a) == Recorded(b) || StatusSent(b, canFlush).Some?)
  }

  lemma {:induction false} AlikeSnoc(a: seq<TimedCall>, b: seq<TimedCall>, c: TimedCall, canFlush: bool)
    requires Alike(a, b, canFlush)
    ensures Alike(a + [c], b + [c], canFlush)
  {
    StatusSnoc(a, c, canFlush);
    StatusSnoc(b, c, canFlush);
  }

  /** Once answered, a status set after the timeout changes nothing that is sent later. */
  lemma {:induction false} LateHeaderIgnored(calls: seq<TimedCall>, code: int, rest: seq<TimedCall>, canFlush: bool)
    requires Expired(calls) && (Recorded(calls).Some? || StatusSent(calls, canFlush).Some?)
    ensures Alike(calls + ([THeader(code)] + rest), calls + rest, canFlush)
  {
    if rest == [] {
      StatusSnoc(calls, THeader(code), canFlush);
      assert calls + [] == calls && [THeader(code)] + [] == [THeader(code)];
    } else {
      var front, last := rest[..|rest| - 1], rest[|rest| - 1];
      var with, without := calls + ([THeader(code)] + front), calls + front;
      LateHeaderIgnored(calls, code, front, canFlush);
      AlikeSnoc(with, without, last, canFlush);
      Regroup(calls, [THeader(code)], rest);
      Regroup(calls, [], rest);
    }
  }

  lemma {:induction false} Regroup<T>(a: seq<T>, b: seq<T>, rest: seq<T>)
    requires rest != []
    ensures (a + (b + rest[..|rest| - 1])) + [rest[|rest| - 1]] == a + (b + rest)
    ensures b == [] ==> b + rest == rest && b + rest[..|rest| - 1] == rest[..|rest| - 1]
  {
  }

  /** Otherwise a later Done sends it in place of 200. */
  lemma {:induction false} LateHeaderCounts(calls: seq<TimedCall>, code: int, canFlush: bool)
    requires Expired(calls) && Recorded(calls).None? && StatusSent(calls, canFlush).None?
    ensures StatusSent(calls + ([THeader(code)] + [TDone]), canFlush) == Some(code)
    ensures StatusSent(calls + [TDone], canFlush) == Some(STATUS_OK)
  {
    StatusSnoc(calls, THeader(code), canFlush);
    StatusSnoc(calls + [THeader(code)], TDone, canFlush);
    StatusSnoc(calls, TDone, canFlush);
    assert calls + ([THeader(code)] + [TDone]) == (calls + [THeader(code)]) + [TDone];
  }

  /** The documented rule that WriteHeader is ignored after a timeout holds exactly for an answered request. */
  lemma {:induction false} LateHeaderIgnoredIff(calls: seq<TimedCall>, canFlush: bool)
    requires Expired(calls)
    ensures Answered(calls, canFlush) <==>
            forall code, rest ::
              StatusSent(calls + ([THeader(code)] + rest), canFlush) == StatusSent(calls + rest, canFlush)
  {
    AnsweredIff(calls, canFlush);
    if Answered(calls, canFlush) {
      forall code, rest
        ensures StatusSent(calls + ([THeader(code)] + rest), canFlush) == StatusSent(calls + rest, canFlush)
      {
        LateHeaderIgnored(calls, code, rest, canFlush);
      }
    } else {
      LateHeaderCounts(calls, STATUS_OK + 1, canFlush);
    }
  }

  /** A handler that only sets a status after the timeout still has it sent by Done. */
  method LateHeader(code: int) returns (log: seq<Emit>)
    requires code != STATUS_OK
    ensures log != [] && log[0] == Status(code)
  {
    var headers, buffered;
    LateHeaderCounts([TTimeout], code, true);
    assert [TTimeout][..0] == [];
    assert [TTimeout] + ([THeader(code)] + [TDone]) == [TTimeout, THeader(code), TDone];
    log, headers, buffered := RunTimeout([TTimeout, THeader(code), TDone], true);
  }
}
