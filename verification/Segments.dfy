/** parseSegments and parseGroupedSegments of mapping/fieldoptions.go. */
module Segments {

  predicate IsSpace(c: char) {
    c in {'\t', '\n', '\r', ' '} ||
    c as int in {0x0B, 0x0C, 0x85, 0xA0, 0x1680, 0x2028, 0x2029, 0x202F, 0x205F, 0x3000} ||
    0x2000 <= c as int <= 0x200A
  }

  function TrimLeft(s: string): string {
    if s != [] && IsSpace(s[0]) then TrimLeft(s[1..]) else s
  }

  function TrimRight(s: string): string {
    if s != [] && IsSpace(s[|s| - 1]) then TrimRight(s[..|s| - 1]) else s
  }

  /** strings.TrimSpace. */
  function Trim(s: string): string {
    TrimRight(TrimLeft(s))
  }

  predicate IsOpen(c: char) {
    c == '(' || c == '['
  }

  predicate IsClose(c: char) {
    c == ')' || c == ']'
  }

  // ---------------------------------------------------------------- the scanner

  datatype Scan = Scan(segments: seq<string>, buf: string, escaped: bool, grouped: bool)

  const START := Scan([], [], false, false)

  function Step(st: Scan, ch: char): Scan {
    if st.escaped then st.(buf := st.buf + [ch], escaped := false)
    else if ch == ',' then
      if st.grouped then st.(buf := st.buf + [ch])
      else st.(segments := st.segments + [Trim(st.buf)], buf := [])
    else if ch == '\\' then
      if st.grouped then st.(buf := st.buf + [ch]) else st.(escaped := true)
    else if IsOpen(ch) then st.(buf := st.buf + [ch], grouped := true)
    else if IsClose(ch) then st.(buf := st.buf + [ch], grouped := false)
    else st.(buf := st.buf + [ch])
  }

  function Feed(st: Scan, s: string): Scan {
    if s == [] then st else Step(Feed(st, s[..|s| - 1]), s[|s| - 1])
  }

  function Finish(st: Scan): seq<string> {
    if Trim(st.buf) != [] then st.segments + [Trim(st.buf)] else st.segments
  }

  method ParseSegments(val: string) returns (segments: seq<string>)
    ensures segments == Finish(Feed(START, val))
  {
    segments := [];
    var escaped, grouped, buf := false, false, "";
    for i := 0 to |val|
      invariant Scan(segments, buf, escaped, grouped) == Feed(START, val[..i])
    {
      var ch := val[i];
      assert val[..i + 1][..i] == val[..i];
      if escaped {
        buf := buf + [ch];
        escaped := false;
        continue;
      }
      match ch
      case ',' =>
        if grouped {
          buf := buf + [ch];
        } else {
          segments := segments + [Trim(buf)];
          buf := "";
        }
      case '\\' =>
        if grouped {
          buf := buf + [ch];
        } else {
          escaped := true;
        }
      case '(' => buf := buf + [ch]; grouped := true;
      case '[' => buf := buf + [ch]; grouped := true;
      case ')' => buf := buf + [ch]; grouped := false;
      case ']' => buf := buf + [ch]; grouped := false;
      case _ => buf := buf + [ch];
    }
    assert val[..|val|] == val;
    var last := Trim(buf);
    if |last| > 0 {
      segments := segments + [last];
    }
  }

  lemma {:induction false} FeedConcat(st: Scan, a: string, b: string)
    ensures Feed(st, a + b) == Feed(Feed(st, a), b)
  {
    if b == [] {
      assert a + b == a;
    } else {
      FeedConcat(st, a, b[..|b| - 1]);
      var s := a + b;
      assert s[..|s| - 1] == a + b[..|b| - 1];
      assert s[|s| - 1] == b[|b| - 1];
    }
  }

  lemma {:induction false} FeedOne(st: Scan, ch: char)
    ensures Feed(st, [ch]) == Step(st, ch)
  {
    assert [ch][..0] == [];
  }

  // ---------------------------------------------------------------- every input

  ghost predicate AllSpace(s: string) {
    forall i :: 0 <= i < |s| ==> IsSpace(s[i])
  }

  lemma {:induction false} TrimLeftIs(s: string) returns (i: nat)
    ensures i <= |s| && TrimLeft(s) == s[i..] && AllSpace(s[..i])
    ensures TrimLeft(s) != [] ==> !IsSpace(TrimLeft(s)[0])
  {
    i := 0;
    if s != [] && IsSpace(s[0]) {
      i := TrimLeftIs(s[1..]);
      assert s[..i + 1] == [s[0]] + s[1..][..i];
      assert s[1..][i..] == s[i + 1..];
      i := i + 1;
    }
  }

  lemma {:induction false} TrimRightIs(s: string) returns (j: nat)
    ensures j <= |s| && TrimRight(s) == s[..j] && AllSpace(s[j..])
    ensures TrimRight(s) != [] ==> !IsSpace(TrimRight(s)[j - 1])
  {
    j := |s|;
    if s != [] && IsSpace(s[|s| - 1]) {
      var front := s[..|s| - 1];
      j := TrimRightIs(front);
      assert s[j..] == front[j..] + [s[|s| - 1]];
      assert front[..j] == s[..j];
    }
  }

  /** Trimming cuts spaces off both ends, all of them and nothing else. */
  lemma {:induction false} TrimIs(s: string) returns (i: nat, j: nat)
    ensures i <= j <= |s| && Trim(s) == s[i..j] && AllSpace(s[..i]) && AllSpace(s[j..])
    ensures Trim(s) != [] ==> !IsSpace(Trim(s)[0]) && !IsSpace(Trim(s)[|Trim(s)| - 1])
  {
    i := TrimLeftIs(s);
    var k := TrimRightIs(s[i..]);
    j := i + k;
    assert s[i..][..k] == s[i..j] && s[i..][k..] == s[j..];
  }

  /** A text without its spaces and backslashes. */
  function Bare(s: string): string {
    if s == [] then []
    else Bare(s[..|s| - 1]) + BareChar(s[|s| - 1])
  }

  lemma {:induction false} BareConcat(a: string, b: string)
    ensures Bare(a + b) == Bare(a) + Bare(b)
  {
    if b == [] {
      assert a + b == a;
    } else {
      var s := a + b;
      assert s[..|s| - 1] == a + b[..|b| - 1] && s[|s| - 1] == b[|b| - 1];
      BareConcat(a, b[..|b| - 1]);
    }
  }

  lemma {:induction false} BareSpaces(s: string)
    requires AllSpace(s)
    ensures Bare(s) == []
  {
    if s != [] {
      BareSpaces(s[..|s| - 1]);
    }
  }

  lemma {:induction false} BareMiddle(a: string, b: string, c: string)
    requires AllSpace(a) && AllSpace(c)
    ensures Bare((a + b) + c) == Bare(b)
  {
    BareSpaces(a);
    BareSpaces(c);
    BareConcat(a, b);
    BareConcat(a + b, c);
  }

  lemma {:induction false} BareTrim(s: string)
    ensures Bare(Trim(s)) == Bare(s)
  {
    var i, j := TrimIs(s);
    var a, b, c := s[..i], s[i..j], s[j..];
    BareMiddle(a, b, c);
    assert (a + b) + c == s;
  }

  /** Each segment followed by a comma. */
  function Closed(segs: seq<string>): string {
    if segs == [] then [] else Closed(segs[..|segs| - 1]) + segs[|segs| - 1] + [',']
  }

  lemma {:induction false} ClosedMore(segs: seq<string>, seg: string)
    ensures Bare(Closed(segs + [seg])) == Bare(Closed(segs)) + Bare(seg) + [',']
  {
    assert (segs + [seg])[..|segs|] == segs;
    BareConcat(Closed(segs), seg);
    BareConcat(Closed(segs) + seg, [',']);
    BareSnoc([], ',');
    assert [] + [','] == [','];
  }

  /** What the scanner holds, bare: the closed segments and the buffer. */
  function Holding(st: Scan): string {
    Bare(Closed(st.segments)) + Bare(st.buf)
  }

  lemma {:induction false} BareSnoc(s: string, ch: char)
    ensures Bare(s + [ch]) == Bare(s) + BareChar(ch)
  {
    assert (s + [ch])[..|s|] == s;
  }

  /** What a character contributes to the bare text. */
  function BareChar(ch: char): string {
    if IsSpace(ch) || ch == '\\' then [] else [ch]
  }

  lemma {:induction false} AppendHolds(st: Scan, st': Scan, ch: char)
    requires st'.segments == st.segments && st'.buf == st.buf + [ch]
    ensures Holding(st') == Holding(st) + BareChar(ch)
  {
    BareSnoc(st.buf, ch);
  }

  lemma {:induction false} SplitHolds(st: Scan, st': Scan)
    requires st'.segments == st.segments + [Trim(st.buf)] && st'.buf == []
    ensures Holding(st') == Holding(st) + [',']
  {
    ClosedMore(st.segments, Trim(st.buf));
    BareTrim(st.buf);
  }

  /** A step splits at a comma, skips an escaping backslash, or appends. */
  lemma {:induction false} StepShape(st: Scan, ch: char)
    ensures var st' := Step(st, ch);
            || (ch == ',' && st'.segments == st.segments + [Trim(st.buf)] && st'.buf == [])
            || (ch == '\\' && st'.segments == st.segments && st'.buf == st.buf)
            || (st'.segments == st.segments && st'.buf == st.buf + [ch])
  {
  }

  lemma {:induction false} StepHolds(st: Scan, st': Scan, ch: char)
    requires st' == Step(st, ch)
    ensures Holding(st') == Holding(st) + BareChar(ch)
  {
    StepShape(st, ch);
    if st'.segments == st.segments && st'.buf == st.buf + [ch] {
      AppendHolds(st, st', ch);
    } else if ch == ',' {
      SplitHolds(st, st');
    }
  }

  lemma {:induction false} FeedHolds(val: string)
    ensures Holding(Feed(START, val)) == Bare(val)
  {
    if val != [] {
      FeedHolds(val[..|val| - 1]);
      StepHolds(Feed(START, val[..|val| - 1]), Feed(START, val), val[|val| - 1]);
    }
  }

  /**
   For every input, nothing is lost, added or moved: but for spaces and backslashes, the parsed
   segments with their separating commas are the input, up to the comma after the last one.
   */
  lemma {:induction false} NothingLost(val: string)
    ensures var r := Finish(Feed(START, val));
            Bare(Closed(r)) == Bare(val) || Bare(Closed(r)) == Bare(val) + [',']
  {
    var st := Feed(START, val);
    FeedHolds(val);
    BareTrim(st.buf);
    if Trim(st.buf) != [] {
      ClosedMore(st.segments, Trim(st.buf));
    }
  }

  // ---------------------------------------------------------------- writing segments

  predicate Special(c: char) {
    c == ',' || c == '\\' || IsOpen(c) || IsClose(c)
  }

  function Escape(s: string): string {
    if s == [] then []
    else Escape(s[..|s| - 1]) + EscapeChar(s[|s| - 1])
  }

  function EscapeChar(c: char): string {
    if Special(c) then ['\\', c] else [c]
  }

  /** A segment is plain text mixed with bracketed groups, as in options=[a,b,c]. */
  datatype Chunk = Plain(text: string) | Group(open: char, body: string, close: char)

  predicate Bracketless(s: string) {
    forall i :: 0 <= i < |s| ==> !IsOpen(s[i]) && !IsClose(s[i])
  }

  predicate WellFormed(c: Chunk) {
    c.Group? ==> IsOpen(c.open) && IsClose(c.close) && Bracketless(c.body)
  }

  /** What a chunk means, and how it is written: text escaped, groups verbatim. */
  function Meaning(c: Chunk): string {
    match c
    case Plain(text) => text
    case Group(open, body, close) => [open] + body + [close]
  }

  function Written(c: Chunk): string {
    match c
    case Plain(text) => Escape(text)
    case Group(open, body, close) => [open] + body + [close]
  }

  function MeaningOf(seg: seq<Chunk>): string {
    if seg == [] then [] else MeaningOf(seg[..|seg| - 1]) + Meaning(seg[|seg| - 1])
  }

  function WrittenOf(seg: seq<Chunk>): string {
    if seg == [] then [] else WrittenOf(seg[..|seg| - 1]) + Written(seg[|seg| - 1])
  }

  /** The segments joined with commas. */
  function Encode(segs: seq<seq<Chunk>>): string {
    if segs == [] then []
    else if |segs| == 1 then WrittenOf(segs[0])
    else Encode(segs[..|segs| - 1]) + [','] + WrittenOf(segs[|segs| - 1])
  }

  predicate Ready(st: Scan) {
    !st.escaped && !st.grouped
  }

  /** Two pieces fed one after the other both land in the buffer. */
  lemma {:induction false} FeedTwo(st: Scan, a: string, b: string, x: string, y: string)
    requires Feed(st, a) == st.(buf := st.buf + x)
    requires Feed(st.(buf := st.buf + x), b) == st.(buf := (st.buf + x) + y)
    ensures Feed(st, a + b) == st.(buf := st.buf + (x + y))
  {
    FeedConcat(st, a, b);
    assert (st.buf + x) + y == st.buf + (x + y);
  }

  lemma {:induction false} FeedEscapeChar(st: Scan, c: char)
    requires Ready(st)
    ensures Feed(st, EscapeChar(c)) == st.(buf := st.buf + [c])
  {
    if Special(c) {
      FeedConcat(st, ['\\'], [c]);
      assert ['\\'] + [c] == ['\\', c];
      FeedOne(st, '\\');
      FeedOne(st.(escaped := true), c);
    } else {
      FeedOne(st, c);
    }
  }

  lemma {:induction false} FeedEscaped(st: Scan, s: string)
    requires Ready(st)
    ensures Feed(st, Escape(s)) == st.(buf := st.buf + s)
  {
    if s == [] {
      assert st.buf + s == st.buf;
    } else {
      var front, c := s[..|s| - 1], s[|s| - 1];
      FeedEscaped(st, front);
      FeedEscapeChar(st.(buf := st.buf + front), c);
      FeedTwo(st, Escape(front), EscapeChar(c), front, [c]);
      assert front + [c] == s;
    }
  }

  /** Inside a group everything but brackets passes through, commas and backslashes included. */
  lemma {:induction false} FeedGrouped(st: Scan, body: string)
    requires !st.escaped && st.grouped && Bracketless(body)
    ensures Feed(st, body) == st.(buf := st.buf + body)
  {
    if body == [] {
      assert st.buf + body == st.buf;
    } else {
      FeedGrouped(st, body[..|body| - 1]);
      assert st.buf + body == (st.buf + body[..|body| - 1]) + [body[|body| - 1]];
    }
  }

  lemma {:induction false} FeedChunk(st: Scan, c: Chunk)
    requires Ready(st) && WellFormed(c)
    ensures Feed(st, Written(c)) == st.(buf := st.buf + Meaning(c))
  {
    match c
    case Plain(text) => FeedEscaped(st, text);
    case Group(open, body, close) =>
      var inside := st.(buf := st.buf + [open], grouped := true);
      FeedConcat(st, [open] + body, [close]);
      FeedConcat(st, [open], body);
      FeedOne(st, open);
      FeedGrouped(inside, body);
      FeedOne(inside.(buf := inside.buf + body), close);
      assert inside.buf + body + [close] == st.buf + ([open] + body + [close]);
  }

  lemma {:induction false} FeedSegment(st: Scan, seg: seq<Chunk>)
    requires Ready(st) && forall i :: 0 <= i < |seg| ==> WellFormed(seg[i])
    ensures Feed(st, WrittenOf(seg)) == st.(buf := st.buf + MeaningOf(seg))
  {
    if seg == [] {
      assert st.buf + MeaningOf(seg) == st.buf;
    } else {
      var front, c := seg[..|seg| - 1], seg[|seg| - 1];
      FeedSegment(st, front);
      FeedChunk(st.(buf := st.buf + MeaningOf(front)), c);
      FeedTwo(st, WrittenOf(front), Written(c), MeaningOf(front), Meaning(c));
    }
  }

  /** The trimmed meanings of a list of segments. */
  function Trimmed(segs: seq<seq<Chunk>>): (r: seq<string>)
    ensures |r| == |segs|
    ensures forall i :: 0 <= i < |segs| ==> r[i] == Trim(MeaningOf(segs[i]))
  {
    if segs == [] then [] else Trimmed(segs[..|segs| - 1]) + [Trim(MeaningOf(segs[|segs| - 1]))]
  }

  ghost predicate AllWellFormed(segs: seq<seq<Chunk>>) {
    forall i, j :: 0 <= i < |segs| && 0 <= j < |segs[i]| ==> WellFormed(segs[i][j])
  }

  lemma {:induction false} FeedEncoded(segs: seq<seq<Chunk>>)
    requires segs != [] && AllWellFormed(segs)
    ensures Feed(START, Encode(segs))
         == Scan(Trimmed(segs[..|segs| - 1]), MeaningOf(segs[|segs| - 1]), false, false)
  {
    var n := |segs| - 1;
    if n == 0 {
      FeedSegment(START, segs[0]);
      assert START.buf + MeaningOf(segs[0]) == MeaningOf(segs[0]);
      assert segs[..n] == [];
    } else {
      var front := segs[..n];
      FrontOf(segs, n);
      FeedEncoded(front);
      TrimmedSnoc(segs, n);
      FeedNext(Encode(front), Trimmed(segs[..n - 1]), MeaningOf(segs[n - 1]), segs[n]);
    }
  }

  lemma {:induction false} FrontOf<T>(s: seq<T>, n: nat)
    requires 0 < n <= |s|
    ensures s[..n][..n - 1] == s[..n - 1] && s[..n][n - 1] == s[n - 1]
  {
  }

  lemma {:induction false} TrimmedSnoc(segs: seq<seq<Chunk>>, n: nat)
    requires 0 < n <= |segs|
    ensures Trimmed(segs[..n]) == Trimmed(segs[..n - 1]) + [Trim(MeaningOf(segs[n - 1]))]
  {
    FrontOf(segs, n);
  }

  /** A comma closes the current segment; the next one starts from an empty buffer. */
  lemma {:induction false} FeedNext(code: string, done: seq<string>, buf: string, seg: seq<Chunk>)
    requires Feed(START, code) == Scan(done, buf, false, false)
    requires forall i :: 0 <= i < |seg| ==> WellFormed(seg[i])
    ensures Feed(START, code + [','] + WrittenOf(seg)) == Scan(done + [Trim(buf)], MeaningOf(seg), false, false)
  {
    var ready := Scan(done + [Trim(buf)], [], false, false);
    FeedConcat(START, code, [',']);
    FeedOne(Scan(done, buf, false, false), ',');
    FeedConcat(START, code + [','], WrittenOf(seg));
    FeedSegment(ready, seg);
    assert ready.buf + MeaningOf(seg) == MeaningOf(seg);
  }

  /** Parsing an encoded list yields the trimmed meanings, without a blank last one. */
  lemma {:induction false} ParseEncoded(segs: seq<seq<Chunk>>)
    requires AllWellFormed(segs)
    ensures var t := Trimmed(segs);
            Finish(Feed(START, Encode(segs))) ==
            if t != [] && t[|t| - 1] == [] then t[..|t| - 1] else t
  {
    if segs != [] {
      FeedEncoded(segs);
    }
  }

  /** The list that was encoded comes back exactly when every segment is trimmed and the last not empty. */
  lemma {:induction false} RoundTripIff(segs: seq<seq<Chunk>>, texts: seq<string>)
    requires AllWellFormed(segs) && |texts| == |segs|
    requires forall i :: 0 <= i < |segs| ==> texts[i] == MeaningOf(segs[i])
    ensures Finish(Feed(START, Encode(segs))) == texts <==>
            && (forall i :: 0 <= i < |texts| ==> Trim(texts[i]) == texts[i])
            && (texts != [] ==> texts[|texts| - 1] != [])
  {
    ParseEncoded(segs);
  }

  /** A bracketed body free of brackets passes through verbatim, with its commas. */
  lemma {:induction false} GroupVerbatim(open: char, body: string, close: char)
    requires IsOpen(open) && IsClose(close) && Bracketless(body)
    ensures var val := [open] + body + [close];
            Finish(Feed(START, val)) == [val]
  {
    var c := Group(open, body, close);
    var val := Written(c);
    FeedChunk(START, c);
    assert START.buf + Meaning(c) == val;
    TrimNothing(val);
    FinishOne(val);
  }

  lemma {:induction false} FinishOne(val: string)
    requires val != [] && Trim(val) == val
    ensures Finish(Scan([], val, false, false)) == [val]
  {
  }

  lemma {:induction false} TrimNothing(s: string)
    requires s != [] ==> !IsSpace(s[0]) && !IsSpace(s[|s| - 1])
    ensures Trim(s) == s
  {
  }

  // ---------------------------------------------------------------- bracket-wrapped lists

  function TrimOpen(s: string): string {
    if s != [] && IsOpen(s[0]) then TrimOpen(s[1..]) else s
  }

  function TrimClose(s: string): string {
    if s != [] && IsClose(s[|s| - 1]) then TrimClose(s[..|s| - 1]) else s
  }

  /** parseGroupedSegments. */
  function ParseGrouped(val: string): seq<string> {
    Finish(Feed(START, TrimClose(TrimOpen(val))))
  }

  /** Plain texts as one-chunk segments. */
  function Plains(texts: seq<string>): (r: seq<seq<Chunk>>)
    ensures |r| == |texts| && forall i :: 0 <= i < |texts| ==> r[i] == [Plain(texts[i])]
  {
    if texts == [] then [] else Plains(texts[..|texts| - 1]) + [[Plain(texts[|texts| - 1])]]
  }

  lemma {:induction false} PlainSegment(text: string)
    ensures MeaningOf([Plain(text)]) == text && WrittenOf([Plain(text)]) == Escape(text)
  {
    assert [Plain(text)][..0] == [];
    assert [] + text == text && [] + Escape(text) == Escape(text);
  }

  /** Escaped text never starts with an opening bracket, and ends with a closing one only if the text does. */
  lemma {:induction false} EscapeEnds(s: string)
    requires s != []
    ensures var e := Escape(s);
            e != [] && !IsOpen(e[0]) && e[|e| - 1] == s[|s| - 1]
  {
    if |s| > 1 {
      EscapeEnds(s[..|s| - 1]);
      var e := Escape(s[..|s| - 1]);
      assert (e + EscapeChar(s[|s| - 1]))[0] == e[0];
    } else {
      assert s[..0] == [];
      assert [] + EscapeChar(s[0]) == EscapeChar(s[0]);
    }
  }

  /** Everything before the last text: the rest of the list and a comma. */
  function Before(texts: seq<string>): string
    requires texts != []
  {
    var n := |texts| - 1;
    if n == 0 then [] else Encode(Plains(texts[..n])) + [',']
  }

  lemma {:induction false} EncodeLast(texts: seq<string>)
    requires texts != []
    ensures Encode(Plains(texts)) == Before(texts) + Escape(texts[|texts| - 1])
  {
    var n := |texts| - 1;
    PlainSegment(texts[n]);
    assert Plains(texts)[..n] == Plains(texts[..n]);
    assert [] + Escape(texts[n]) == Escape(texts[n]);
  }

  lemma {:induction false} EncodeEnds(texts: seq<string>)
    requires texts != [] && texts[|texts| - 1] != []
    ensures var e := Encode(Plains(texts));
            e != [] && e[|e| - 1] == texts[|texts| - 1][|texts[|texts| - 1]| - 1]
  {
    EncodeLast(texts);
    EscapeEnds(texts[|texts| - 1]);
  }

  lemma {:induction false} EncodeStart(texts: seq<string>)
    ensures var e := Encode(Plains(texts)); e != [] ==> !IsOpen(e[0])
  {
    if |texts| == 1 {
      PlainSegment(texts[0]);
      if texts[0] != [] { EscapeEnds(texts[0]); }
    } else if texts != [] {
      var n := |texts| - 1;
      EncodeStart(texts[..n]);
      assert Plains(texts)[..n] == Plains(texts[..n]);
      var e := Encode(Plains(texts[..n]));
      assert Encode(Plains(texts))[0] == (e + [','])[0];
    }
  }

  /** The list survives being wrapped in brackets if and only if its last text does not end with one. */
  lemma {:induction false} GroupedRoundTripIff(texts: seq<string>)
    requires texts != [] && texts[|texts| - 1] != []
    requires forall i :: 0 <= i < |texts| ==> Trim(texts[i]) == texts[i]
    ensures var last := texts[|texts| - 1];
            ParseGrouped(['['] + Encode(Plains(texts)) + [']']) == texts <==> !IsClose(last[|last| - 1])
  {
    var e, last := Encode(Plains(texts)), texts[|texts| - 1];
    EncodeEnds(texts);
    EncodeStart(texts);
    Unwrap(e);
    PlainRoundTrip(texts);
    if IsClose(last[|last| - 1]) {
      LastBracketLost(texts);
    }
  }

  /** Removing the brackets leaves the code, minus its last character if that is a closing bracket. */
  lemma {:induction false} Unwrap(e: string)
    requires e != [] && !IsOpen(e[0])
    ensures TrimClose(TrimOpen(['['] + e + [']'])) == TrimClose(e)
  {
    var s := ['['] + e + [']'];
    assert s[1..] == e + [']'];
    assert TrimOpen(s[1..]) == s[1..];
    assert (e + [']'])[..|e|] == e;
  }

  lemma {:induction false} PlainRoundTrip(texts: seq<string>)
    requires texts != [] && texts[|texts| - 1] != []
    requires forall i :: 0 <= i < |texts| ==> Trim(texts[i]) == texts[i]
    ensures Finish(Feed(START, Encode(Plains(texts)))) == texts
  {
    forall i | 0 <= i < |texts| ensures texts[i] == MeaningOf(Plains(texts)[i]) {
      PlainSegment(texts[i]);
    }
    RoundTripIff(Plains(texts), texts);
  }

  /** With the last escaped bracket gone, its backslash is left over and the last text comes back shorter. */
  lemma {:induction false} LastBracketLost(texts: seq<string>)
    requires texts != [] && texts[|texts| - 1] != []
    requires var last := texts[|texts| - 1]; IsClose(last[|last| - 1])
    ensures Finish(Feed(START, TrimClose(Encode(Plains(texts))))) != texts
  {
    var n, last := |texts| - 1, texts[|texts| - 1];
    var shorter := last[..|last| - 1];
    var code := Encode(Plains(texts[n := shorter]));
    ShortenLast(texts);
    TrimOneClose(code + ['\\'], last[|last| - 1]);
    PlainsFeed(texts[n := shorter]);
    FeedBackslash(code);
    TrimShortens(shorter);
    FinishDiffers(Feed(START, code + ['\\']), texts);
  }

  lemma {:induction false} FeedBackslash(code: string)
    requires Ready(Feed(START, code))
    ensures Feed(START, code + ['\\']) == Feed(START, code).(escaped := true)
  {
    FeedConcat(START, code, ['\\']);
    FeedOne(Feed(START, code), '\\');
  }

  lemma {:induction false} FinishDiffers(st: Scan, texts: seq<string>)
    requires texts != [] && |st.segments| == |texts| - 1 && |Trim(st.buf)| < |texts[|texts| - 1]|
    ensures Finish(st) != texts
  {
  }

  lemma {:induction false} TrimOneClose(s: string, c: char)
    requires s != [] && !IsClose(s[|s| - 1]) && IsClose(c)
    ensures TrimClose(s + [c]) == s
  {
    assert (s + [c])[..|s|] == s;
    assert TrimClose(s) == s;
  }

  lemma {:induction false} TrimShortens(s: string)
    ensures |Trim(s)| <= |s|
  {
    TrimLeftShortens(s);
    TrimRightShortens(TrimLeft(s));
  }

  lemma {:induction false} TrimLeftShortens(s: string)
    ensures |TrimLeft(s)| <= |s|
  {
    if s != [] && IsSpace(s[0]) { TrimLeftShortens(s[1..]); }
  }

  lemma {:induction false} TrimRightShortens(s: string)
    ensures |TrimRight(s)| <= |s|
  {
    if s != [] && IsSpace(s[|s| - 1]) { TrimRightShortens(s[..|s| - 1]); }
  }

  lemma {:induction false} PlainsFeed(texts: seq<string>)
    requires texts != []
    ensures var n := |texts| - 1;
            Feed(START, Encode(Plains(texts))).buf == texts[n]
            && |Feed(START, Encode(Plains(texts))).segments| == n
            && Ready(Feed(START, Encode(Plains(texts))))
  {
    FeedEncoded(Plains(texts));
    PlainSegment(texts[|texts| - 1]);
  }

  /** The code of a list whose last text ends with a special character: shorter list, backslash, character. */
  lemma {:induction false} ShortenLast(texts: seq<string>)
    requires texts != [] && texts[|texts| - 1] != []
    requires var last := texts[|texts| - 1]; Special(last[|last| - 1])
    ensures var n, last := |texts| - 1, texts[|texts| - 1];
            Encode(Plains(texts))
            == Encode(Plains(texts[n := last[..|last| - 1]])) + ['\\'] + [last[|last| - 1]]
  {
    var n := |texts| - 1;
    var last := texts[n];
    var shorter, c := last[..|last| - 1], last[|last| - 1];
    var texts' := texts[n := shorter];
    EncodeLast(texts);
    EncodeLast(texts');
    assert texts'[..n] == texts[..n];
    RegroupEscape(Before(texts), Escape(shorter), c);
  }

  lemma {:induction false} RegroupEscape(a: string, b: string, c: char)
    ensures a + (b + ['\\', c]) == (a + b) + ['\\'] + [c]
  {
  }
}
