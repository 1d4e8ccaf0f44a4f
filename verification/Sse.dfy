/**
 SSEWriter of httpx/response.go against the event stream parser of section 9.2.6 of the
 WHATWG HTML standard.
 */
module Sse {
  import opened MemberNames

  const LF := '\n'
  const CR := '\r'

  // ---------------------------------------------------------------- splitting

  /** strings.Split(s, "\n"). */
  function Split(s: string): (r: seq<string>)
    ensures |r| >= 1
  {
    if s == [] then [[]]
    else
      var rest := Split(s[1..]);
      if s[0] == LF then [[]] + rest else [[s[0]] + rest[0]] + rest[1..]
  }

  /** Each line followed by a line feed. */
  function Lines(ls: seq<string>): string
    decreases |ls|
  {
    if ls == [] then [] else ls[0] + [LF] + Lines(ls[1..])
  }

  lemma {:induction false} LinesGrow(c: char, first: string, rest: seq<string>)
    ensures Lines([[c] + first] + rest) == [c] + Lines([first] + rest)
  {
    assert ([[c] + first] + rest)[1..] == rest && ([first] + rest)[1..] == rest;
    assert ([c] + first) + [LF] + Lines(rest) == [c] + (first + [LF] + Lines(rest));
  }

  lemma {:induction false} LinesBlank(rest: seq<string>)
    ensures Lines([[]] + rest) == [LF] + Lines(rest)
  {
    assert ([[]] + rest)[1..] == rest;
  }

  lemma {:induction false} SplitLines(s: string)
    ensures Lines(Split(s)) == s + [LF]
  {
    if s == [] {
      assert Lines([[]]) == [LF];
    } else {
      SplitLines(s[1..]);
      var rest := Split(s[1..]);
      assert s + [LF] == [s[0]] + (s[1..] + [LF]);
      if s[0] == LF {
        LinesBlank(rest);
      } else {
        LinesGrow(s[0], rest[0], rest[1..]);
        assert [rest[0]] + rest[1..] == rest;
      }
    }
  }

  lemma {:induction false} Regroup(a: string, b: string, c: string)
    ensures a + (b + c) == (a + b) + c
  {
  }

  lemma {:induction false} SplitFree(s: string)
    ensures forall i :: 0 <= i < |Split(s)| ==> LF !in Split(s)[i] && (CR !in s ==> CR !in Split(s)[i])
    ensures LF !in s ==> Split(s) == [s]
  {
    if s != [] {
      SplitFree(s[1..]);
      var rest := Split(s[1..]);
      forall i | 0 <= i < |Split(s)|
        ensures LF !in Split(s)[i] && (CR !in s ==> CR !in Split(s)[i])
      {
        if s[0] == LF {
          assert i == 0 || Split(s)[i] == rest[i - 1];
        } else {
          assert i == 0 || Split(s)[i] == rest[i];
        }
      }
      if LF !in s {
        assert rest == [s[1..]];
        assert [s[0]] + s[1..] == s;
      }
    }
  }

  // ---------------------------------------------------------------- the writer

  class SSEWriter {
    var out: string     // everything written to the response

    constructor ()
      ensures out == ""
    {
      out := "";
    }

    /** writeField into a builder that already holds b. */
    method WriteField(b: string, field: string, value: string) returns (r: string)
      ensures r == b + FieldText(field, Split(value))
    {
      r := b;
      var lines := Split(value);
      var i := 0;
      assert lines[0..] == lines;
      while i < |lines|
        invariant 0 <= i <= |lines|
        invariant r + FieldText(field, lines[i..]) == b + FieldText(field, lines)
      {
        assert lines[i..][1..] == lines[i + 1..];
        var line := field + ": " + lines[i] + [LF];
        Regroup(r, line, FieldText(field, lines[i + 1..]));
        r := r + line;
        i := i + 1;
      }
      assert lines[i..] == [];
    }

    method Event(event: string, data: string)
      modifies this
      ensures out == old(out) + EventText(event, data)
    {
      var b := "";
      if event != "" {
        b := WriteField(b, "event", event);
      }
      b := WriteField(b, "data", data);
      b := b + [LF];
      out := out + b;
    }

    method Comment(text: string)
      modifies this
      ensures out == old(out) + CommentText(text)
    {
      var b := "";
      var lines := Split(text);
      var i := 0;
      assert lines[0..] == lines;
      while i < |lines|
        invariant 0 <= i <= |lines| && out == old(out)
        invariant b + CommentLines(lines[i..]) == CommentLines(lines)
      {
        assert lines[i..][1..] == lines[i + 1..];
        var line := ":";
        if lines[i] != "" {
          line := line + " " + lines[i];
        }
        line := line + [LF];
        assert line == CommentLine(lines[i]) + [LF];
        Regroup(b, line, CommentLines(lines[i + 1..]));
        b := b + line;
        i := i + 1;
      }
      assert lines[i..] == [];
      assert b == CommentLines(lines);
      out := out + (b + [LF]);
    }

    method Retry(ms: int)
      modifies this
      ensures out == old(out) + RetryText(ms)
    {
      out := out + ("retry: " + Itoa(ms) + [LF, LF]);
    }
  }

  function FieldText(field: string, lines: seq<string>): string
    decreases |lines|
  {
    if lines == [] then [] else (field + ": " + lines[0] + [LF]) + FieldText(field, lines[1..])
  }

  function NameText(event: string): string {
    if event != "" then FieldText("event", Split(event)) else ""
  }

  function EventText(event: string, data: string): string {
    NameText(event) + FieldText("data", Split(data)) + [LF]
  }

  function CommentLine(line: string): string {
    if line == "" then ":" else ": " + line
  }

  function CommentLines(lines: seq<string>): string
    decreases |lines|
  {
    if lines == [] then [] else (CommentLine(lines[0]) + [LF]) + CommentLines(lines[1..])
  }

  function CommentText(text: string): string {
    CommentLines(Split(text)) + [LF]
  }

  function Itoa(ms: int): string {
    if ms < 0 then "-" + Decimal(-ms) else Decimal(ms)
  }

  function RetryText(ms: int): string {
    "retry: " + Itoa(ms) + [LF, LF]
  }

  // ---------------------------------------------------------------- the parser of the standard

  datatype Message = Message(kind: string, data: string)

  /** The event type buffer, the data buffer, the reconnection time and the events dispatched so far. */
  datatype Parser = Parser(event: string, data: string, retry: int, sent: seq<Message>)

  const FRESH := Parser("", "", 0, [])

  /** A blank line: dispatch the event, or only reset the buffers when there is no data. */
  function Dispatch(p: Parser): Parser {
    if p.data == "" then p.(event := "")
    else
      var text := if p.data[|p.data| - 1] == LF then p.data[..|p.data| - 1] else p.data;
      p.(event := "", data := "",
         sent := p.sent + [Message(if p.event == "" then "message" else p.event, text)])
  }

  predicate AllDigits(s: string) {
    forall i :: 0 <= i < |s| ==> '0' <= s[i] <= '9'
  }

  function ProcessField(p: Parser, field: string, value: string): Parser {
    if field == "event" then p.(event := value)
    else if field == "data" then p.(data := p.data + value + [LF])
    else if field == "retry" && value != "" && AllDigits(value) then p.(retry := Value(value))
    else p
  }

  /** The index of the first c in s, or |s|. */
  function IndexOf(s: string, c: char): (i: nat)
    ensures i <= |s|
    ensures i < |s| ==> s[i] == c
    ensures forall j :: 0 <= j < i ==> s[j] != c
  {
    if s == [] || s[0] == c then 0 else 1 + IndexOf(s[1..], c)
  }

  function ProcessLine(p: Parser, line: string): Parser {
    if line == "" then Dispatch(p)
    else
      var i := IndexOf(line, ':');
      if i == 0 then p
      else if i == |line| then ProcessField(p, line, "")
      else
        var value := line[i + 1..];
        ProcessField(p, line[..i], if value != "" && value[0] == ' ' then value[1..] else value)
  }

  /** The index of the first line terminator, or |s|. */
  function LineEnd(s: string): (i: nat)
    ensures i <= |s|
    ensures i < |s| ==> s[i] == LF || s[i] == CR
    ensures forall j :: 0 <= j < i ==> s[j] != LF && s[j] != CR
  {
    if s == [] || s[0] == LF || s[0] == CR then 0 else 1 + LineEnd(s[1..])
  }

  /** Lines end with LF, CR or CRLF; an unterminated last line is dropped with its event. */
  function Parse(p: Parser, s: string): Parser
    decreases |s|
  {
    var i := LineEnd(s);
    if i == |s| then p
    else
      var next := if s[i] == CR && i + 1 < |s| && s[i + 1] == LF then i + 2 else i + 1;
      Parse(ProcessLine(p, s[..i]), s[next..])
  }

  predicate OneLine(s: string) {
    LF !in s && CR !in s
  }

  // ---------------------------------------------------------------- line by line

  lemma {:induction false} ParseLine(p: Parser, line: string, rest: string)
    requires OneLine(line)
    ensures Parse(p, line + [LF] + rest) == Parse(ProcessLine(p, line), rest)
  {
    var s := line + [LF] + rest;
    var i := LineEnd(s);
    assert s[|line|] == LF;
    assert forall j :: 0 <= j < |line| ==> s[j] == line[j];
    assert i == |line|;
    assert s[..i] == line && s[i + 1..] == rest;
  }

  /** A field line is read back as its name and value, whatever the value contains. */
  lemma {:induction false} ReadField(p: Parser, field: string, value: string)
    requires field != "" && ':' !in field
    ensures ProcessLine(p, field + ": " + value) == ProcessField(p, field, value)
  {
    var line := field + ": " + value;
    assert line[|field|] == ':' && line[|field| + 1] == ' ';
    assert forall j :: 0 <= j < |field| ==> line[j] == field[j];
    var i := IndexOf(line, ':');
    assert i == |field|;
    assert line[..i] == field && line[i + 1..] == " " + value;
    assert (" " + value)[1..] == value;
  }

  lemma {:induction false} ParseField(p: Parser, field: string, value: string, rest: string)
    requires field != "" && ':' !in field && OneLine(field) && OneLine(value)
    ensures Parse(p, (field + ": " + value + [LF]) + rest) == Parse(ProcessField(p, field, value), rest)
  {
    ParseLine(p, field + ": " + value, rest);
    ReadField(p, field, value);
  }

  /** The data lines of an event accumulate in the data buffer. */
  lemma {:induction false} ParseData(p: Parser, lines: seq<string>, rest: string)
    requires forall i :: 0 <= i < |lines| ==> OneLine(lines[i])
    ensures Parse(p, FieldText("data", lines) + rest) == Parse(p.(data := p.data + Lines(lines)), rest)
    decreases |lines|
  {
    if lines == [] {
      assert FieldText("data", lines) + rest == rest;
      assert p.data + Lines(lines) == p.data;
    } else {
      var more := FieldText("data", lines[1..]);
      Regroup("data" + ": " + lines[0] + [LF], more, rest);
      ParseDataLine(p, lines[0], more + rest);
      ParseData(p.(data := p.data + lines[0] + [LF]), lines[1..], rest);
      RegroupLine(p.data, lines[0], Lines(lines[1..]));
    }
  }

  lemma {:induction false} RegroupLine(a: string, b: string, c: string)
    ensures (a + b + [LF]) + c == a + (b + [LF] + c)
  {
  }

  lemma {:induction false} ParseDataLine(p: Parser, line: string, rest: string)
    requires OneLine(line)
    ensures Parse(p, ("data" + ": " + line + [LF]) + rest) == Parse(p.(data := p.data + line + [LF]), rest)
  {
    ParseField(p, "data", line, rest);
  }

  lemma {:induction false} ParseComments(p: Parser, lines: seq<string>, rest: string)
    requires forall i :: 0 <= i < |lines| ==> OneLine(lines[i])
    ensures Parse(p, CommentLines(lines) + rest) == Parse(p, rest)
    decreases |lines|
  {
    if lines == [] {
      assert CommentLines(lines) + rest == rest;
    } else {
      var line, more := CommentLine(lines[0]), CommentLines(lines[1..]);
      assert line[0] == ':' && OneLine(line);
      assert IndexOf(line, ':') == 0;
      Regroup(line + [LF], more, rest);
      ParseLine(p, line, more + rest);
      ParseComments(p, lines[1..], rest);
    }
  }

  lemma {:induction false} ParseBlank(p: Parser, rest: string)
    ensures Parse(p, [LF] + rest) == Parse(Dispatch(p), rest)
  {
    ParseLine(p, "", rest);
    assert "" + [LF] + rest == [LF] + rest;
  }

  // ---------------------------------------------------------------- call by call

  datatype Call = EventCall(event: string, data: string) | CommentCall(text: string) | RetryCall(ms: int)

  function Text(c: Call): string {
    match c
    case EventCall(event, data) => EventText(event, data)
    case CommentCall(text) => CommentText(text)
    case RetryCall(ms) => RetryText(ms)
  }

  /** Event names without CR and LF, data and comments without CR. */
  predicate Faithful(c: Call) {
    match c
    case EventCall(event, data) => OneLine(event) && CR !in data
    case CommentCall(text) => CR !in text
    case RetryCall(_) => true
  }

  predicate AtRest(p: Parser) {
    p.event == "" && p.data == ""
  }

  /** What one call must do to a parser between frames. */
  function Effect(p: Parser, c: Call): Parser {
    match c
    case EventCall(event, data) =>
      p.(sent := p.sent + [Message(if event == "" then "message" else event, data)])
    case CommentCall(_) => p
    case RetryCall(ms) => if ms >= 0 then p.(retry := ms) else p
  }

  lemma {:induction false} ParseEvent(p: Parser, event: string, data: string, rest: string)
    requires AtRest(p) && OneLine(event) && CR !in data
    ensures Parse(p, EventText(event, data) + rest) == Parse(Effect(p, EventCall(event, data)), rest)
  {
    var fields := FieldText("data", Split(data));
    var named := p.(event := event);
    Regroup4(NameText(event), fields, [LF], rest);
    ParseName(p, event, fields + ([LF] + rest));
    SplitFree(data);
    ParseData(named, Split(data), [LF] + rest);
    SplitLines(data);
    assert named.data + Lines(Split(data)) == data + [LF];
    var full := named.(data := data + [LF]);
    ParseBlank(full, rest);
    assert full.data[..|full.data| - 1] == data;
  }

  lemma {:induction false} Regroup4(a: string, b: string, c: string, d: string)
    ensures (a + b + c) + d == a + (b + (c + d))
  {
  }

  lemma {:induction false} ParseName(p: Parser, event: string, rest: string)
    requires AtRest(p) && OneLine(event)
    ensures Parse(p, NameText(event) + rest) == Parse(p.(event := event), rest)
  {
    if event == "" {
      assert NameText(event) + rest == rest;
    } else {
      SplitFree(event);
      var line := "event" + ": " + event + [LF];
      assert [event][1..] == [];
      assert FieldText("event", [event]) == line + [];
      assert line + [] == line;
      ParseField(p, "event", event, rest);
    }
  }

  lemma {:induction false} ParseComment(p: Parser, text: string, rest: string)
    requires AtRest(p) && CR !in text
    ensures Parse(p, CommentText(text) + rest) == Parse(p, rest)
  {
    SplitFree(text);
    assert CommentText(text) + rest == CommentLines(Split(text)) + ([LF] + rest);
    ParseComments(p, Split(text), [LF] + rest);
    ParseBlank(p, rest);
  }

  lemma {:induction false} DecimalDigits(n: nat)
    ensures AllDigits(Decimal(n)) && OneLine(Decimal(n)) && '-' !in Decimal(n)
  {
    if n >= 10 {
      DecimalDigits(n / 10);
    }
  }

  lemma {:induction false} ParseRetry(p: Parser, ms: int, rest: string)
    requires AtRest(p)
    ensures Parse(p, RetryText(ms) + rest) == Parse(Effect(p, RetryCall(ms)), rest)
  {
    var value := Itoa(ms);
    DecimalDigits(if ms < 0 then -ms else ms);
    DecimalValue(if ms < 0 then -ms else ms);
    if ms < 0 {
      assert value[0] == '-' && !AllDigits(value);
    }
    assert OneLine(value);
    assert RetryText(ms) + rest == ("retry" + ": " + value + [LF]) + ([LF] + rest);
    ParseField(p, "retry", value, [LF] + rest);
    ReadRetry(p, value, ms);
    ParseBlank(Effect(p, RetryCall(ms)), rest);
  }

  lemma {:induction false} ReadRetry(p: Parser, value: string, ms: int)
    requires if ms < 0 then value != "" && !AllDigits(value) else value != "" && AllDigits(value) && Value(value) == ms
    ensures ProcessField(p, "retry", value) == Effect(p, RetryCall(ms))
  {
  }

  lemma {:induction false} ParseCall(p: Parser, c: Call, rest: string)
    requires AtRest(p) && Faithful(c)
    ensures Parse(p, Text(c) + rest) == Parse(Effect(p, c), rest)
  {
    match c
    case EventCall(event, data) => ParseEvent(p, event, data, rest);
    case CommentCall(text) => ParseComment(p, text, rest);
    case RetryCall(ms) => ParseRetry(p, ms, rest);
  }

  // ---------------------------------------------------------------- round trip

  function Output(calls: seq<Call>): string
    decreases |calls|
  {
    if calls == [] then "" else Text(calls[0]) + Output(calls[1..])
  }

  function Effects(p: Parser, calls: seq<Call>): Parser
    decreases |calls|
  {
    if calls == [] then p else Effects(Effect(p, calls[0]), calls[1..])
  }

  /** The (type, data) pairs of the Event calls, in order. */
  function Messages(calls: seq<Call>): seq<Message>
    decreases |calls|
  {
    if calls == [] then []
    else
      (match calls[0]
       case EventCall(event, data) => [Message(if event == "" then "message" else event, data)]
       case _ => [])
      + Messages(calls[1..])
  }

  lemma {:induction false} ParseAll(p: Parser, calls: seq<Call>)
    requires AtRest(p) && forall i :: 0 <= i < |calls| ==> Faithful(calls[i])
    ensures Parse(p, Output(calls)) == Effects(p, calls)
    decreases |calls|
  {
    if calls != [] {
      ParseCall(p, calls[0], Output(calls[1..]));
      ParseAll(Effect(p, calls[0]), calls[1..]);
    }
  }

  lemma {:induction false} EffectsSend(p: Parser, calls: seq<Call>)
    ensures Effects(p, calls).sent == p.sent + Messages(calls)
    decreases |calls|
  {
    if calls != [] {
      EffectsSend(Effect(p, calls[0]), calls[1..]);
    }
  }

  /** The interval of the last Retry call that is not negative, or the one in force before. */
  function LastRetry(before: int, calls: seq<Call>): int {
    if calls == [] then before
    else
      var last := calls[|calls| - 1];
      if last.RetryCall? && last.ms >= 0 then last.ms else LastRetry(before, calls[..|calls| - 1])
  }

  lemma {:induction false} LastRetryFirst(before: int, c: Call, rest: seq<Call>)
    ensures LastRetry(before, [c] + rest) == LastRetry(if c.RetryCall? && c.ms >= 0 then c.ms else before, rest)
  {
    var calls := [c] + rest;
    if rest == [] {
      assert calls[..0] == [];
    } else {
      assert calls[..|calls| - 1] == [c] + rest[..|rest| - 1];
      LastRetryFirst(before, c, rest[..|rest| - 1]);
    }
  }

  lemma {:induction false} EffectsRetry(p: Parser, calls: seq<Call>)
    ensures Effects(p, calls).retry == LastRetry(p.retry, calls)
    decreases |calls|
  {
    if calls != [] {
      EffectsRetry(Effect(p, calls[0]), calls[1..]);
      LastRetryFirst(p.retry, calls[0], calls[1..]);
      assert [calls[0]] + calls[1..] == calls;
    }
  }

  /**
   Round trip: parsing the concatenated output of any sequence of faithful calls dispatches
   exactly the (type, data) pairs of the Event calls, in order, and sets the reconnection time
   of the last Retry call.
   */
  lemma {:induction false} RoundTrip(calls: seq<Call>)
    requires forall i :: 0 <= i < |calls| ==> Faithful(calls[i])
    ensures Parse(FRESH, Output(calls)).sent == Messages(calls)
    ensures Parse(FRESH, Output(calls)).retry == LastRetry(0, calls)
  {
    ParseAll(FRESH, calls);
    EffectsSend(FRESH, calls);
    EffectsRetry(FRESH, calls);
  }

  // ---------------------------------------------------------------- comments

  /** The text of a comment frame: its lines without the colon and one space, up to the blank line. */
  function Uncomment(s: string): string
    decreases |s|
  {
    var i := IndexOf(s, LF);
    if i == 0 || i == |s| then []
    else
      var line := s[..i];
      (if |line| >= 2 then line[2..] else "") + [LF] + Uncomment(s[i + 1..])
  }

  lemma {:induction false} UncommentLine(line: string, rest: string)
    requires LF !in line
    ensures Uncomment(CommentLine(line) + [LF] + rest) == line + [LF] + Uncomment(rest)
  {
    var first := CommentLine(line);
    var s := first + [LF] + rest;
    assert forall j :: 0 <= j < |first| ==> s[j] == first[j] && first[j] != LF;
    assert s[|first|] == LF;
    assert IndexOf(s, LF) == |first|;
    assert s[..|first|] == first && s[|first| + 1..] == rest;
  }

  lemma {:induction false} UncommentLines(lines: seq<string>)
    requires forall i :: 0 <= i < |lines| ==> LF !in lines[i]
    ensures Uncomment(CommentLines(lines) + [LF]) == Lines(lines)
    decreases |lines|
  {
    if lines == [] {
      assert CommentLines(lines) + [LF] == [LF];
    } else {
      var more := CommentLines(lines[1..]);
      assert CommentLines(lines) + [LF] == CommentLine(lines[0]) + [LF] + (more + [LF]);
      UncommentLine(lines[0], more + [LF]);
      UncommentLines(lines[1..]);
    }
  }

  /** A comment frame carries its text, line by line. */
  lemma {:induction false} CommentReadsBack(text: string)
    ensures Uncomment(CommentText(text)) == text + [LF]
  {
    SplitFree(text);
    UncommentLines(Split(text));
    SplitLines(text);
  }

  // ---------------------------------------------------------------- the exact condition for one event

  ghost predicate ParserClean(p: Parser) {
    && OneLine(p.event) && CR !in p.data
    && forall m :: m in p.sent ==> OneLine(m.kind) && CR !in m.data
  }

  lemma {:induction false} LineKeepsClean(p: Parser, line: string)
    requires ParserClean(p) && OneLine(line)
    ensures ParserClean(ProcessLine(p, line))
  {
  }

  /** No stream whatever makes the parser produce a type with CR or LF, or data with CR. */
  lemma {:induction false} ParseKeepsClean(p: Parser, s: string)
    requires ParserClean(p)
    ensures ParserClean(Parse(p, s))
    decreases |s|
  {
    var i := LineEnd(s);
    if i < |s| {
      assert OneLine(s[..i]);
      LineKeepsClean(p, s[..i]);
      var next := if s[i] == CR && i + 1 < |s| && s[i + 1] == LF then i + 2 else i + 1;
      ParseKeepsClean(ProcessLine(p, s[..i]), s[next..]);
    }
  }

  /** One Event call survives the trip if and only if its name has no CR or LF and its data no CR. */
  lemma {:induction false} EventRoundTripIff(event: string, data: string)
    ensures Parse(FRESH, EventText(event, data)).sent == [Message(if event == "" then "message" else event, data)]
       <==> OneLine(event) && CR !in data
  {
    if OneLine(event) && CR !in data {
      ParseEvent(FRESH, event, data, "");
      assert EventText(event, data) + "" == EventText(event, data);
      assert FRESH.sent + [Message(if event == "" then "message" else event, data)]
          == [Message(if event == "" then "message" else event, data)];
    } else {
      ParseKeepsClean(FRESH, EventText(event, data));
      var wanted := Message(if event == "" then "message" else event, data);
      assert wanted in [wanted];
    }
  }
}
