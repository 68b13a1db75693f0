/** The base-protocol framing of main.cpp: `readMessage` parses a header block ended by an
    empty line, takes the value of the last `Content-Length:` header, and then reads exactly
    that many body characters; `sendMessage` writes `Content-Length: <N>\r\n\r\n<body>`.
    The standard input stream is a string; a read returns the outcome and what is left of it. */
module Framing {
  import opened Wrappers
  import opened Digits

  const IntMin: int := -0x8000_0000
  const IntMax: int := 0x7fff_ffff

  /** The header name `readMessage` looks for, colon included (15 characters). */
  const LengthHeader: string := "Content-Length:"

  /* ---------------- std::stoi ---------------- */

  /** `isspace` in the C locale: space, tab, newline, vertical tab, form feed, carriage return. */
  predicate IsSpace(c: char) {
    c == ' ' || c == '\t' || c == '\n' || c == '\U{B}' || c == '\U{C}' || c == '\r'
  }

  /** The number of leading characters of s that satisfy `isspace`. */
  function SpaceRun(s: string): (n: nat)
    ensures n <= |s|
  {
    if s == [] || !IsSpace(s[0]) then 0 else 1 + SpaceRun(s[1..])
  }

  /** The number of leading decimal digits of s. */
  function DigitRun(s: string): (n: nat)
    ensures n <= |s|
  {
    if s == [] || !IsDigit(s[0]) then 0 else 1 + DigitRun(s[1..])
  }

  /** The text after the optional whitespace and the optional sign that `std::stoi` accepts. */
  function Unsigned(s: string): string {
    var t := s[SpaceRun(s)..];
    if |t| > 0 && (t[0] == '+' || t[0] == '-') then t[1..] else t
  }

  predicate Negative(s: string) {
    var t := s[SpaceRun(s)..];
    |t| > 0 && t[0] == '-'
  }

  /** `std::stoi(s)`: optional whitespace, an optional sign, then the leading decimal digits;
      None where it throws: `invalid_argument` when there is no digit, `out_of_range` when
      the value does not fit a 32-bit `int`. */
  function StoI(s: string): (r: Option<int>)
    ensures r.Some? ==> IntMin <= r.value <= IntMax
    ensures DigitRun(Unsigned(s)) == 0 ==> r.None?
  {
    var u := Unsigned(s);
    var n := DigitRun(u);
    if n == 0 then None
    else
      var magnitude: int := ValueOf(u[..n]);
      var v := if Negative(s) then -magnitude else magnitude;
      if v < IntMin || v > IntMax then None else Some(v)
  }

  /** `find_first_not_of(" \t")`: the index of the first character that is neither a space
      nor a tab, or |s| when there is none (`npos`). */
  function FirstNotBlank(s: string): (i: nat)
    ensures i <= |s|
    ensures i < |s| ==> s[i] != ' ' && s[i] != '\t'
  {
    if s == [] || (s[0] != ' ' && s[0] != '\t') then 0 else 1 + FirstNotBlank(s[1..])
  }

  lemma {:induction false} FirstNotBlankIsBlank(s: string)
    ensures forall k :: 0 <= k < FirstNotBlank(s) ==> s[k] == ' ' || s[k] == '\t'
  {
    if s != [] && (s[0] == ' ' || s[0] == '\t') {
      FirstNotBlankIsBlank(s[1..]);
    }
  }

  lemma {:induction false} SpaceRunAfter(s: string, k: nat)
    requires k <= |s| && forall i :: 0 <= i < k ==> IsSpace(s[i])
    ensures SpaceRun(s) == k + SpaceRun(s[k..])
  {
    if k > 0 {
      assert s[1..][k - 1..] == s[k..];
      SpaceRunAfter(s[1..], k - 1);
    }
  }

  /** The value text after spaces and tabs are cut off; left as it is when nothing else is
      there. Only blanks are cut, and what is left starts with something else. */
  function SkipBlanks(s: string): (r: string)
    ensures IsSuffix(r, s)
    ensures forall k :: 0 <= k < |s| - |r| ==> s[k] == ' ' || s[k] == '\t'
    ensures r != s ==> r != [] && r[0] != ' ' && r[0] != '\t'
    ensures (exists k :: 0 <= k < |s| && s[k] != ' ' && s[k] != '\t') ==> r != [] && r[0] != ' ' && r[0] != '\t'
  {
    var start := FirstNotBlank(s);
    FirstNotBlankIsBlank(s);
    if start < |s| then s[start..] else s
  }

  /** Cutting off spaces and tabs before `stoi` changes nothing, since `stoi` skips them too. */
  lemma BlanksSkippedByStoI(s: string)
    ensures StoI(SkipBlanks(s)) == StoI(s)
  {
    var start := FirstNotBlank(s);
    if start < |s| {
      FirstNotBlankIsBlank(s);
      SpaceRunAfter(s, start);
      var t := s[start..];
      assert s[SpaceRun(s)..] == t[SpaceRun(t)..];
      assert Unsigned(s) == Unsigned(t) && Negative(s) == Negative(t);
    }
  }

  /* ---------------- header lines ---------------- */

  /** t is what ends s. */
  predicate IsSuffix(t: string, s: string) {
    |t| <= |s| && t == s[|s| - |t|..]
  }

  /** The index of the first '\n' in s, or |s| when there is none. */
  function LineEnd(s: string): (i: nat)
    ensures i <= |s|
    ensures forall k :: 0 <= k < i ==> s[k] != '\n'
    ensures i < |s| ==> s[i] == '\n'
  {
    if s == [] || s[0] == '\n' then 0 else 1 + LineEnd(s[1..])
  }

  /** The line `std::getline` extracts from a non-empty stream: everything up to the first '\n'. */
  function LineText(s: string): (line: string)
    requires s != []
    ensures |line| <= |s| && line == s[..|line|]
    ensures forall k :: 0 <= k < |line| ==> line[k] != '\n'
    ensures |line| < |s| ==> s[|line|] == '\n'
  {
    s[..LineEnd(s)]
  }

  /** What is left after `std::getline`: the '\n' is consumed, or the stream is exhausted. */
  function LineRest(s: string): (rest: string)
    requires s != []
    ensures |rest| < |s| && IsSuffix(rest, s)
    ensures |LineText(s)| < |s| ==> s == LineText(s) + "\n" + rest
    ensures |LineText(s)| == |s| ==> rest == []
  {
    var i := LineEnd(s);
    if i < |s| then s[i + 1..] else []
  }

  /** One trailing carriage return, if any, is removed from a line. */
  function StripCR(line: string): (r: string)
    ensures r == line || line == r + "\r"
    ensures r != line <==> |line| > 0 && line[|line| - 1] == '\r'
  {
    if |line| > 0 && line[|line| - 1] == '\r' then line[..|line| - 1] else line
  }

  /** pat occurs in s starting at index i. */
  predicate OccursAt(s: string, pat: string, i: nat) {
    i + |pat| <= |s| && s[i..i + |pat|] == pat
  }

  /** `s.find(pat, from)`: the first index from `from` on where pat occurs, or None (`npos`). */
  function FindFrom(s: string, pat: string, from: nat): (r: Option<nat>)
    ensures r.Some? ==> from <= r.value && OccursAt(s, pat, r.value)
    decreases |s| - from
  {
    if from + |pat| > |s| then None
    else if OccursAt(s, pat, from) then Some(from)
    else FindFrom(s, pat, from + 1)
  }

  /** `s.find(pat)`: the first index where pat occurs, or None (`npos`). */
  function Find(s: string, pat: string): (r: Option<nat>)
    ensures r.Some? ==> OccursAt(s, pat, r.value)
  {
    FindFrom(s, pat, 0)
  }

  /** `FindFrom` gives the first occurrence from `from` on, and None only when there is none. */
  lemma {:induction false} FindFromFirst(s: string, pat: string, from: nat)
    ensures FindFrom(s, pat, from).Some? ==>
      forall j :: from <= j < FindFrom(s, pat, from).value ==> !OccursAt(s, pat, j)
    ensures FindFrom(s, pat, from).None? ==> forall j :: from <= j ==> !OccursAt(s, pat, j)
    decreases |s| - from
  {
    if from + |pat| <= |s| && !OccursAt(s, pat, from) {
      FindFromFirst(s, pat, from + 1);
    }
  }

  /** `find` gives the first occurrence of pat, and None exactly when pat occurs nowhere. */
  lemma FindFirst(s: string, pat: string)
    ensures Find(s, pat).Some? ==> forall j :: 0 <= j < Find(s, pat).value ==> !OccursAt(s, pat, j)
    ensures Find(s, pat).None? <==> forall j :: 0 <= j ==> !OccursAt(s, pat, j)
  {
    FindFromFirst(s, pat, 0);
  }

  /** `line.find("Content-Length:") == 0`: the first occurrence of the header name, case and
      all, is at position 0, which is to say the line starts with it. */
  predicate IsLengthLine(line: string)
    ensures IsLengthLine(line) <==> LengthHeader <= line
  {
    assert LengthHeader <= line ==> OccursAt(line, LengthHeader, 0);
    Find(line, LengthHeader) == Some(0)
  }

  /** The value of a Content-Length line: what follows the colon, blanks skipped, through
      `stoi`; the same as `stoi` on all that follows the colon. */
  function LengthValue(line: string): (v: Option<int>)
    requires IsLengthLine(line)
    ensures v == StoI(line[|LengthHeader|..])
    ensures v.Some? ==> IntMin <= v.value <= IntMax
  {
    BlanksSkippedByStoI(line[|LengthHeader|..]);
    StoI(SkipBlanks(line[|LengthHeader|..]))
  }

  /** What a non-empty header line means to `readMessage`: some other header, a
      Content-Length value, or a Content-Length value `stoi` rejects. */
  datatype HeaderValue = OtherHeader | ContentLength(length: int) | RejectedLength

  function Classify(line: string): (v: HeaderValue)
    ensures v.OtherHeader? <==> !IsLengthLine(line)
    ensures IsLengthLine(line) ==> (v.RejectedLength? <==> StoI(line[|LengthHeader|..]).None?)
    ensures v.ContentLength? ==> StoI(line[|LengthHeader|..]) == Some(v.length)
  {
    if !IsLengthLine(line) then OtherHeader
    else
      match LengthValue(line)
      case None => RejectedLength
      case Some(n) => ContentLength(n)
  }

  /** Where the header loop of `readMessage` stops: at a value `stoi` rejects (the function
      returns at once), or at the empty line or the end of input with the length seen so far. */
  datatype Scan = BadValue(rest: string) | HeaderEnd(contentLength: int, rest: string)

  /** The header loop of `readMessage`, one `getline` per step, from the length seen so far. */
  function HeaderScan(s: string, contentLength: int): (r: Scan)
    ensures IsSuffix(r.rest, s)
    decreases |s|
  {
    if s == [] then HeaderEnd(contentLength, [])
    else
      var line := StripCR(LineText(s));
      var rest := LineRest(s);
      if line == [] then HeaderEnd(contentLength, rest)
      else
        match Classify(line)
        case OtherHeader => HeaderScan(rest, contentLength)
        case RejectedLength => BadValue(rest)
        case ContentLength(n) => HeaderScan(rest, n)
  }

  /* ---------------- readMessage ---------------- */

  /** The three ways `readMessage` gives up and returns the empty string. */
  datatype FrameError =
    | InvalidLengthValue          // stoi threw on a Content-Length value
    | MissingOrNonPositiveLength  // no Content-Length line, or its value is 0 or negative
    | IncompleteBody              // the input ended before Content-Length body characters

  datatype Reading = Reading(result: Result<string, FrameError>, rest: string)

  /** `readMessage` on the input s: the body or the reason it failed, and the unread input.
      A body is never empty, and the body and the unread input are what ends s. */
  function Read(s: string): (r: Reading)
    ensures IsSuffix(r.rest, s)
    ensures r.result.Ok? ==> |r.result.value| > 0 && IsSuffix(r.result.value + r.rest, s)
  {
    match HeaderScan(s, -1)
    case BadValue(rest) => Reading(Err(InvalidLengthValue), rest)
    case HeaderEnd(n, rest) =>
      if n <= 0 then Reading(Err(MissingOrNonPositiveLength), rest) else TakeBody(rest, n)
  }

  /** Reading an n-character body from the stream: exactly n characters, or an error when the
      stream ends first (everything it held is consumed then). */
  function TakeBody(stream: string, n: int): (r: Reading)
    requires n > 0
    ensures IsSuffix(r.rest, stream)
    ensures r.result.Ok? <==> n <= |stream|
    ensures r.result.Ok? ==> |r.result.value| == n && r.result.value + r.rest == stream
  {
    if |stream| < n then Reading(Err(IncompleteBody), [])
    else
      assert stream[..n] + stream[n..] == stream;
      Reading(Ok(stream[..n]), stream[n..])
  }

  /** The string `readMessage` returns: the body, or "" on every error. */
  function Returned(r: Reading): (out: string)
    ensures out == [] <==> r.result.Err? || r.result.value == []
    ensures r.result.Ok? ==> out == r.result.value
  {
    match r.result
    case Ok(body) => body
    case Err(_) => ""
  }

  /** `std::getline` on the input from position pos: scans to the next '\n'. */
  method GetLine(input: string, pos: nat) returns (line: string, next: nat)
    requires pos < |input|
    ensures pos < next <= |input|
    ensures line == LineText(input[pos..]) && input[next..] == LineRest(input[pos..])
  {
    var i := pos;
    while i < |input| && input[i] != '\n'
      invariant pos <= i <= |input|
      invariant forall k :: pos <= k < i ==> input[k] != '\n'
    {
      i := i + 1;
    }
    LineEndIs(input[pos..], i - pos);
    line := input[pos..i];
    next := if i < |input| then i + 1 else i;
  }

  /** The header loop of `readMessage`: `getline` until an empty line or the end of input,
      keeping the value of each Content-Length line, and stopping at one `stoi` rejects. */
  method ReadHeaders(input: string) returns (scan: Scan)
    ensures scan == HeaderScan(input, -1)
  {
    var pos := 0;
    var contentLength := -1;
    var ended := false;
    while !ended && pos < |input|
      invariant 0 <= pos <= |input|
      invariant !ended ==> HeaderScan(input[pos..], contentLength) == HeaderScan(input, -1)
      invariant ended ==> HeaderScan(input, -1) == HeaderEnd(contentLength, input[pos..])
      decreases |input| - pos, !ended
    {
      ghost var unread := input[pos..];
      var line, next := GetLine(input, pos);
      if |line| > 0 && line[|line| - 1] == '\r' {
        line := line[..|line| - 1];
      }
      assert line == StripCR(LineText(unread));
      if |line| == 0 {
        ended := true;
      } else if IsLengthLine(line) {
        var lengthStr := line[|LengthHeader|..];
        var start := FirstNotBlank(lengthStr);
        if start < |lengthStr| {
          lengthStr := lengthStr[start..];
        }
        var parsed := StoI(lengthStr);
        if parsed.None? {
          return BadValue(input[next..]);
        }
        contentLength := parsed.value;
      }
      pos := next;
    }
    return HeaderEnd(contentLength, input[pos..]);
  }

  /** The body read of `readMessage`: a buffer of n characters filled from the stream;
      fewer than n characters available is an error. */
  method ReadBody(stream: string, n: int) returns (r: Reading)
    requires n > 0
    ensures r == TakeBody(stream, n)
  {
    var body := new char[n];
    var count := 0;
    while count < n && count < |stream|
      invariant 0 <= count <= n && count <= |stream|
      invariant body[..count] == stream[..count]
    {
      body[count] := stream[count];
      count := count + 1;
    }
    if count != n {
      return Reading(Err(IncompleteBody), stream[count..]);
    }
    assert body[..] == body[..count];
    return Reading(Ok(body[..]), stream[count..]);
  }

  /** `readMessage`: the headers, then the body when the length is positive. */
  method ReadMessage(input: string) returns (r: Reading)
    ensures r == Read(input)
  {
    var scan := ReadHeaders(input);
    match scan
    case BadValue(rest) =>
      r := Reading(Err(InvalidLengthValue), rest);
    case HeaderEnd(contentLength, rest) =>
      if contentLength <= 0 {
        r := Reading(Err(MissingOrNonPositiveLength), rest);
      } else {
        r := ReadBody(rest, contentLength);
      }
  }

  /** The first '\n' is where `LineEnd` says it is. */
  lemma LineEndIs(s: string, i: nat)
    requires i <= |s| && (forall k :: 0 <= k < i ==> s[k] != '\n') && (i < |s| ==> s[i] == '\n')
    ensures LineEnd(s) == i
  {
  }

  /* ---------------- sendMessage ---------------- */

  /** What `sendMessage` writes for a serialised message body. */
  function Frame(body: string): (f: string)
    ensures |f| > |LengthHeader| && f[..|LengthHeader|] == LengthHeader
    ensures |body| <= |f| && f[|f| - |body|..] == body
  {
    "Content-Length: " + Decimal(|body|) + "\r\n\r\n" + body
  }
}

/** What `readMessage` promises, stated over the header lines it sees rather than its loop. */
module FramingProperties {
  import opened Wrappers
  import opened Digits
  import opened Framing

  /** The header lines `readMessage` inspects when no value is rejected: each line with one
      trailing '\r' removed, up to the first line that is then empty, or to the end of input. */
  function HeaderLines(s: string): (lines: seq<string>)
    ensures forall i :: 0 <= i < |lines| ==> lines[i] != []
    decreases |s|
  {
    if s == [] then []
    else
      var line := StripCR(LineText(s));
      if line == [] then [] else [line] + HeaderLines(LineRest(s))
  }

  /** The input after the empty line that ends the header block; empty when there is none. */
  function AfterHeader(s: string): string
    decreases |s|
  {
    if s == [] then []
    else if StripCR(LineText(s)) == [] then LineRest(s)
    else AfterHeader(LineRest(s))
  }

  /** The input after the first header line whose Content-Length value `stoi` rejects, where
      `readMessage` returns at once; empty when no header line holds one. */
  function AfterRejected(s: string): string
    decreases |s|
  {
    if s == [] then []
    else
      var line := StripCR(LineText(s));
      if line == [] then []
      else if Classify(line).RejectedLength? then LineRest(s)
      else AfterRejected(LineRest(s))
  }

  /** What each header line means, in order. */
  function Classified(lines: seq<string>): (values: seq<HeaderValue>)
    ensures |values| == |lines|
    ensures forall i :: 0 <= i < |lines| ==> values[i] == Classify(lines[i])
  {
    seq(|lines|, i requires 0 <= i < |lines| => Classify(lines[i]))
  }

  /** The value of the last Content-Length line, or the default without one. */
  function LastLength(values: seq<HeaderValue>, default: int): int {
    if values == [] then default
    else
      var last := values[|values| - 1];
      if last.ContentLength? then last.length else LastLength(values[..|values| - 1], default)
  }

  predicate HasRejected(values: seq<HeaderValue>) {
    exists i :: 0 <= i < |values| && values[i].RejectedLength?
  }

  /** Looking at the first line and then at the others is the same as looking from the end. */
  lemma {:induction false} LastLengthCons(value: HeaderValue, values: seq<HeaderValue>, default: int)
    ensures LastLength([value] + values, default) ==
      LastLength(values, if value.ContentLength? then value.length else default)
    decreases |values|
  {
    var all := [value] + values;
    if values != [] {
      assert all[..|all| - 1] == [value] + values[..|values| - 1];
      LastLengthCons(value, values[..|values| - 1], default);
    }
  }

  /** One `getline` step of the header lines. */
  lemma HeaderLinesStep(s: string)
    requires s != [] && StripCR(LineText(s)) != []
    ensures Classified(HeaderLines(s)) == [Classify(StripCR(LineText(s)))] + Classified(HeaderLines(LineRest(s)))
    ensures AfterHeader(s) == AfterHeader(LineRest(s))
  {
    assert HeaderLines(s) == [StripCR(LineText(s))] + HeaderLines(LineRest(s));
    ClassifiedCons(StripCR(LineText(s)), HeaderLines(LineRest(s)));
  }

  lemma ClassifiedCons(line: string, lines: seq<string>)
    ensures Classified([line] + lines) == [Classify(line)] + Classified(lines)
  {
    var all := [line] + lines;
    var left := Classified(all);
    var right := [Classify(line)] + Classified(lines);
    assert |left| == |right|;
    forall i | 0 <= i < |left|
      ensures left[i] == right[i]
    {
      if i > 0 {
        assert all[i] == lines[i - 1];
      }
    }
  }

  lemma RejectedCons(value: HeaderValue, values: seq<HeaderValue>)
    ensures HasRejected([value] + values) <==> value.RejectedLength? || HasRejected(values)
  {
    var all := [value] + values;
    if HasRejected(values) {
      var i :| 0 <= i < |values| && values[i].RejectedLength?;
      assert all[i + 1] == values[i];
    }
    if HasRejected(all) && !value.RejectedLength? {
      var i :| 0 <= i < |all| && all[i].RejectedLength?;
      assert i > 0 && values[i - 1] == all[i];
    }
    if value.RejectedLength? {
      assert all[0].RejectedLength?;
    }
  }

  /** The header loop stops at a rejected value exactly when some header line holds one;
      otherwise it ends on the last Content-Length value, just after the empty line. */
  lemma {:induction false} ScanByLines(s: string, contentLength: int)
    ensures HeaderScan(s, contentLength).BadValue? <==> HasRejected(Classified(HeaderLines(s)))
    ensures HeaderScan(s, contentLength).HeaderEnd? ==>
      HeaderScan(s, contentLength) ==
        HeaderEnd(LastLength(Classified(HeaderLines(s)), contentLength), AfterHeader(s))
    decreases |s|
  {
    if s != [] && StripCR(LineText(s)) != [] {
      var value := Classify(StripCR(LineText(s)));
      var rest := LineRest(s);
      var values := Classified(HeaderLines(rest));
      HeaderLinesStep(s);
      RejectedCons(value, values);
      LastLengthCons(value, values, contentLength);
      ScanByLines(rest, if value.ContentLength? then value.length else contentLength);
    }
  }

  /** When the header loop stops at a rejected value, it leaves the input right after that line. */
  lemma {:induction false} ScanStopsAfterRejected(s: string, contentLength: int)
    ensures HeaderScan(s, contentLength).BadValue? ==> HeaderScan(s, contentLength).rest == AfterRejected(s)
    decreases |s|
  {
    if s != [] && StripCR(LineText(s)) != [] {
      var value := Classify(StripCR(LineText(s)));
      ScanStopsAfterRejected(LineRest(s), if value.ContentLength? then value.length else contentLength);
    }
  }

  /** `readMessage` in terms of its header lines: a rejected value anywhere fails, the last
      Content-Length value wins, a missing or non-positive one fails, and then exactly that
      many characters after the empty line are the body. */
  lemma ReadByLines(s: string)
    ensures Read(s).result ==
      var values := Classified(HeaderLines(s));
      if HasRejected(values) then Err(InvalidLengthValue)
      else
        var n := LastLength(values, -1);
        var after := AfterHeader(s);
        if n <= 0 then Err(MissingOrNonPositiveLength)
        else if |after| < n then Err(IncompleteBody)
        else Ok(after[..n])
    ensures !HasRejected(Classified(HeaderLines(s))) ==>
      var n := LastLength(Classified(HeaderLines(s)), -1);
      Read(s).rest == if n <= 0 then AfterHeader(s) else if |AfterHeader(s)| < n then [] else AfterHeader(s)[n..]
    ensures HasRejected(Classified(HeaderLines(s))) ==> Read(s).rest == AfterRejected(s)
  {
    ScanByLines(s, -1);
    ScanStopsAfterRejected(s, -1);
  }

  /** A line ended by CRLF is read as itself, and the input after it is left unread. */
  lemma CrLfLine(line: string, more: string)
    requires forall i :: 0 <= i < |line| ==> line[i] != '\n'
    ensures StripCR(LineText(line + "\r\n" + more)) == line
    ensures LineRest(line + "\r\n" + more) == more
  {
    var s := line + "\r\n" + more;
    LineEndIs(s, |line| + 1);
    assert s[..|line| + 1] == line + "\r" && s[|line| + 2..] == more;
  }

  /** A Content-Length value that `stoi` rejects ends the read at once: the error is returned
      and the next line is left unread. */
  lemma RejectedValueStopsRead(line: string, more: string)
    requires LengthHeader <= line && LengthValue(line).None?
    requires forall i :: 0 <= i < |line| ==> line[i] != '\n'
    ensures Read(line + "\r\n" + more) == Reading(Err(InvalidLengthValue), more)
  {
    CrLfLine(line, more);
    assert Classify(line) == RejectedLength;
  }

  /** `readMessage` returns "" exactly when it fails. */
  lemma EmptyReturnMeansError(s: string)
    ensures Returned(Read(s)) == [] <==> Read(s).result.Err?
  {
  }

  /** Without a Content-Length line the read fails, after consuming the header block. */
  lemma MissingLengthRejected(s: string)
    requires forall i :: 0 <= i < |HeaderLines(s)| ==> !IsLengthLine(HeaderLines(s)[i])
    ensures Read(s) == Reading(Err(MissingOrNonPositiveLength), AfterHeader(s))
  {
    NoLengthLineKeepsDefault(Classified(HeaderLines(s)), -1);
    ReadByLines(s);
  }

  lemma {:induction false} NoLengthLineKeepsDefault(values: seq<HeaderValue>, default: int)
    requires forall i :: 0 <= i < |values| ==> values[i].OtherHeader?
    ensures LastLength(values, default) == default && !HasRejected(values)
  {
    if values != [] {
      NoLengthLineKeepsDefault(values[..|values| - 1], default);
    }
  }

  /** When several Content-Length lines appear, the last one decides. */
  lemma {:induction false} LastLengthWins(before: seq<HeaderValue>, n: int, after: seq<HeaderValue>, default: int)
    requires forall i :: 0 <= i < |after| ==> after[i].OtherHeader?
    ensures LastLength(before + [ContentLength(n)] + after, default) == n
    decreases |after|
  {
    var all := before + [ContentLength(n)] + after;
    if after == [] {
      assert all[|all| - 1] == ContentLength(n);
    } else {
      assert all[|all| - 1] == after[|after| - 1];
      assert all[..|all| - 1] == before + [ContentLength(n)] + after[..|after| - 1];
      LastLengthWins(before, n, after[..|after| - 1], default);
    }
  }

  /* ---------------- the Content-Length value ---------------- */

  /** The header name is matched case-sensitively, and only when `find` gives position 0: a
      line where its first occurrence is anywhere else, or where it does not occur, is not a
      Content-Length line. */
  lemma LengthLineOnlyAtStart(line: string, value: string)
    ensures Find(line, LengthHeader) != Some(0) ==> !IsLengthLine(line)
    ensures IsLengthLine(LengthHeader + value)
    ensures !IsLengthLine(" " + LengthHeader + value)
    ensures !IsLengthLine("content-length:" + value)
  {
    assert (" " + LengthHeader + value)[0] == ' ';
    assert ("content-length:" + value)[0] == 'c';
  }

  /** An `X-Content-Length:` header: `find` gives 2, so it is not a Content-Length line. */
  lemma PrefixedNameIgnored(value: string)
    ensures Find("X-" + LengthHeader + value, LengthHeader) == Some(2)
    ensures !IsLengthLine("X-" + LengthHeader + value)
  {
    var x := "X-" + LengthHeader + value;
    assert !OccursAt(x, LengthHeader, 0) by { assert x[0] == 'X' && x[0..|LengthHeader|][0] == x[0]; }
    assert !OccursAt(x, LengthHeader, 1) by { assert x[1] == '-' && x[1..1 + |LengthHeader|][0] == x[1]; }
    assert OccursAt(x, LengthHeader, 2) by { assert x[2..2 + |LengthHeader|] == LengthHeader; }
    assert FindFrom(x, LengthHeader, 2) == Some(2);
    assert FindFrom(x, LengthHeader, 1) == Some(2);
    assert FindFrom(x, LengthHeader, 0) == Some(2);
  }

  lemma {:induction false} DigitRunAll(s: string)
    requires AllDigits(s)
    ensures DigitRun(s) == |s|
  {
    if s != [] {
      DigitRunAll(s[1..]);
    }
  }

  /** `stoi` reads back the decimal text of every value that fits an `int`. */
  lemma StoIDecimal(n: nat)
    requires n <= IntMax
    ensures StoI(Decimal(n)) == Some(n)
  {
    var d := Decimal(n);
    assert !IsSpace(d[0]) && d[0] != '+' && d[0] != '-';
    assert SpaceRun(d) == 0 && Unsigned(d) == d && !Negative(d);
    DigitRunAll(d);
    assert d[..|d|] == d;
    ValueOfDecimal(n);
  }

  /* ---------------- header blocks and frames ---------------- */

  /** Header lines as a client writes them: each ended by CRLF, then an empty line. */
  function HeaderBlock(lines: seq<string>): string {
    if lines == [] then "\r\n" else lines[0] + "\r\n" + HeaderBlock(lines[1..])
  }

  /** A header line that reads back as itself: not empty, no '\n', no trailing '\r'. */
  predicate WellFormedHeader(line: string) {
    line != [] && (forall i :: 0 <= i < |line| ==> line[i] != '\n') && line[|line| - 1] != '\r'
  }

  /** The header lines of a CRLF-terminated header block are the lines written, and the
      input after the block is whatever followed it. */
  lemma {:induction false} HeaderBlockLines(lines: seq<string>, more: string)
    requires forall i :: 0 <= i < |lines| ==> WellFormedHeader(lines[i])
    ensures HeaderLines(HeaderBlock(lines) + more) == lines
    ensures AfterHeader(HeaderBlock(lines) + more) == more
    decreases |lines|
  {
    var s := HeaderBlock(lines) + more;
    if lines == [] {
      assert s == "\r\n" + more;
      LineEndIs(s, 1);
      assert LineText(s) == "\r" && LineRest(s) == more;
    } else {
      var line := lines[0];
      var tail := HeaderBlock(lines[1..]) + more;
      assert s == line + "\r\n" + tail;
      LineEndIs(s, |line| + 1);
      assert LineText(s) == line + "\r";
      assert StripCR(line + "\r") == line;
      assert LineRest(s) == tail;
      HeaderBlockLines(lines[1..], more);
    }
  }

  /** The header line `sendMessage` writes for an n-character body. */
  function LengthLine(n: nat): string {
    "Content-Length: " + Decimal(n)
  }

  lemma LengthLineReadsBack(n: nat)
    requires n <= IntMax
    ensures WellFormedHeader(LengthLine(n)) && IsLengthLine(LengthLine(n))
    ensures LengthValue(LengthLine(n)) == Some(n)
  {
    var line := LengthLine(n);
    var d := Decimal(n);
    assert line[..|LengthHeader|] == LengthHeader;
    assert line[|LengthHeader|..] == " " + d;
    assert FirstNotBlank(" " + d) == 1 by {
      assert FirstNotBlank(d) == 0;
      assert (" " + d)[1..] == d;
    }
    assert SkipBlanks(" " + d) == d;
    StoIDecimal(n);
  }

  /** One Content-Length line with a positive value, then the empty line: the header loop
      ends with that value, just before what follows. */
  lemma LengthLineThenBody(line: string, n: int, rest: string)
    requires LengthHeader <= line && LengthValue(line) == Some(n) && n > 0
    requires forall i :: 0 <= i < |line| ==> line[i] != '\n'
    ensures HeaderScan(line + "\r\n" + ("\r\n" + rest), -1) == HeaderEnd(n, rest)
  {
    var blank := "\r\n" + rest;
    CrLfLine(line, blank);
    CrLfLine([], rest);
    assert [] + "\r\n" + rest == blank;
    assert HeaderScan(blank, n) == HeaderEnd(n, rest);
    assert Classify(line) == ContentLength(n);
    assert HeaderScan(line + "\r\n" + blank, -1) == HeaderScan(blank, n);
  }

  /** A frame is its Content-Length line and the empty line, each ended by CRLF, then the body. */
  lemma FrameParts(body: string, more: string)
    ensures Frame(body) + more == LengthLine(|body|) + "\r\n" + ("\r\n" + (body + more))
  {
  }

  /** Round trip: what `sendMessage` writes for a non-empty body, followed by anything,
      reads back as that body and leaves exactly what followed. */
  lemma ReadFrame(body: string, more: string)
    requires 0 < |body| <= IntMax
    ensures Read(Frame(body) + more) == Reading(Ok(body), more)
  {
    var line := LengthLine(|body|);
    var after := body + more;
    LengthLineReadsBack(|body|);
    FrameParts(body, more);
    LengthLineThenBody(line, |body|, after);
    assert after[..|body|] == body && after[|body|..] == more;
    assert TakeBody(after, |body|) == Reading(Ok(body), more);
  }

  /** Two frames back to back are read one after the other, in order. */
  lemma BackToBackFrames(first: string, second: string)
    requires 0 < |first| <= IntMax && 0 < |second| <= IntMax
    ensures Read(Frame(first) + Frame(second)) == Reading(Ok(first), Frame(second))
    ensures Read(Read(Frame(first) + Frame(second)).rest) == Reading(Ok(second), [])
  {
    ReadFrame(first, Frame(second));
    ReadFrame(second, []);
    assert Frame(second) + [] == Frame(second);
  }

  /** A frame cut short inside its body is rejected, and the input is used up. */
  lemma PartialBodyRejected(body: string, missing: nat)
    requires 0 < missing <= |body| <= IntMax
    ensures Read(Frame(body)[..|Frame(body)| - missing]) == Reading(Err(IncompleteBody), [])
  {
    var line := LengthLine(|body|);
    var part := body[..|body| - missing];
    LengthLineReadsBack(|body|);
    FrameParts(body, []);
    assert Frame(body) + [] == Frame(body);
    assert Frame(body)[..|Frame(body)| - missing] == line + "\r\n" + ("\r\n" + part);
    LengthLineThenBody(line, |body|, part);
  }
}
