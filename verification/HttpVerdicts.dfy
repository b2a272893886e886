/** Exactly which byte streams the request parser completes, refuses as bad, refuses as too large
    and waits on (src/http/HttpContext.cc), and what the server answers to each. */
module HttpVerdicts {
  import opened Text
  import opened Numerals
  import opened HttpRequests
  import opened HttpParsing
  import opened HttpLocality
  import opened HttpServers
  import opened HttpFragments
  import opened HttpPrinting
  import opened FormGrammar

  // ---------- the request line ----------

  /** The line is the request line of `m`: a known verb, a target without a space, whose path has no
      question mark, and a version, with single spaces between them. */
  ghost predicate Spells(line: string, m: Message) {
    Printable(m) && ' ' !in Target(m) && '?' !in m.path && line == FirstLine(m)
  }

  lemma VerbOf(name: string)
    requires !MethodOf(name).Invalid?
    ensures VerbName(MethodOf(name)) == name
  {
  }

  lemma TargetSpelled(target: string) returns (path: string, query: Option<string>)
    ensures '?' !in path && target == path + (if query.Some? then "?" + query.value else "")
  {
    var question := Find(target, "?", 0);
    if question.None? {
      path, query := target, None;
      FindNoChar(target, '?');
    } else {
      var k := question.value;
      CutChar(target, '?', k);
      path, query := target[..k], Some(target[k + 1..]);
      assert target == path + ("?" + target[k + 1..]);
    }
  }

  /** What an accepted line is made of. */
  lemma LineParts(line: string) returns (word: string, target: string, version: Version)
    requires RequestLine(Blank, line).0
    ensures !MethodOf(word).Invalid? && ' ' !in target && !version.Unknown?
    ensures line == word + " " + (target + " " + VersionName(version))
  {
    hide Find, WithTarget, MethodOf;
    var k := Find(line, " ", 0).value;
    CutChar(line, ' ', k);
    var behind := line[k + 1..];
    var n := Find(behind, " ", 0).value;
    CutChar(behind, ' ', n);
    word, target := line[..k], behind[..n];
    version := if behind[n + 1..] == "HTTP/1.1" then Http11 else Http10;
  }

  lemma LineSpelled(line: string) returns (m: Message)
    requires RequestLine(Blank, line).0
    ensures Spells(line, m)
  {
    hide RequestLine, MethodOf, VerbName, VersionName;
    var word, target, version := LineParts(line);
    var path, query := TargetSpelled(target);
    m := Message(MethodOf(word), path, query, version, [], "");
    VerbOf(word);
    assert line == word + " " + target + " " + VersionName(version);
  }

  /** Exactly the spelled request lines are accepted. */
  lemma RequestLineMeaning(line: string)
    ensures RequestLine(Blank, line).0 <==> exists m :: Spells(line, m)
  {
    if RequestLine(Blank, line).0 {
      var m := LineSpelled(line);
    }
    if exists m :: Spells(line, m) {
      var m :| Spells(line, m);
      FirstLineRoundTrip(m);
    }
  }

  lemma KnownLine(verb: Method, path: string, version: Version)
    requires !verb.Invalid? && !version.Unknown? && ' ' !in path && '?' !in path
    ensures RequestLine(Blank, VerbName(verb) + " " + path + " " + VersionName(version))
         == (true, Blank.(verb := verb, version := version, path := path))
  {
    hide RequestLine, VerbName, VersionName;
    var m := Message(verb, path, None, version, [], "");
    assert Target(m) == path;
    FirstLineRoundTrip(m);
  }

  /** The five verbs and the two versions. */
  lemma KnownLines(path: string)
    requires ' ' !in path && '?' !in path
    ensures RequestLine(Blank, "GET" + " " + path + " " + "HTTP/1.1")
         == (true, Blank.(verb := Get, version := Http11, path := path))
    ensures RequestLine(Blank, "POST" + " " + path + " " + "HTTP/1.1")
         == (true, Blank.(verb := Post, version := Http11, path := path))
    ensures RequestLine(Blank, "HEAD" + " " + path + " " + "HTTP/1.0")
         == (true, Blank.(verb := Head, version := Http10, path := path))
    ensures RequestLine(Blank, "PUT" + " " + path + " " + "HTTP/1.0")
         == (true, Blank.(verb := Put, version := Http10, path := path))
    ensures RequestLine(Blank, "DELETE" + " " + path + " " + "HTTP/1.0")
         == (true, Blank.(verb := Delete, version := Http10, path := path))
  {
    hide RequestLine;
    KnownLine(Get, path, Http11);
    KnownLine(Post, path, Http11);
    KnownLine(Head, path, Http10);
    KnownLine(Put, path, Http10);
    KnownLine(Delete, path, Http10);
  }

  // ---------- the head as far as it is read ----------

  /** Header lines, each with its line break. */
  function RawLines(headers: seq<Header>): string {
    if headers == [] then ""
    else RawLines(headers[..|headers| - 1]) + RawLine(headers[|headers| - 1]) + CRLF
  }

  function HeadText(m: Message): string
    requires Printable(m)
  {
    FirstLine(m) + CRLF + RawLines(m.headers)
  }

  /** A request line and header lines that fit the limit; the blank line is still to come. */
  ghost predicate IsHead(m: Message)
    ensures IsHead(m) ==> Printable(m)
  {
    && Printable(m) && Spells(FirstLine(m), m) && OneLine(FirstLine(m))
    && RawHeaders(m.headers) && |HeadText(m)| <= 16384
  }

  /** The request as read, before its body is looked into. */
  function AsRead(m: Message, time: int): Request {
    Request(m.verb, m.version, m.path, if m.query.Some? then m.query.value else "", time,
            HeaderTable(map[], m.headers), map[], [], m.body)
  }

  function AfterHead(m: Message, time: int): Context
    requires Printable(m)
  {
    Context(ExpectHeaders, AsRead(m, time).(body := ""), |HeadText(m)|, 0)
  }

  function Shorter(m: Message): Message
    requires m.headers != []
  {
    m.(headers := m.headers[..|m.headers| - 1])
  }

  lemma {:induction false} HeaderTableLast(known: map<string, string>, headers: seq<Header>, h: Header)
    ensures HeaderTable(known, headers + [h]) == WithHeader(HeaderTable(known, headers), h.name, h.value)
    decreases |headers|
  {
    hide WithHeader;
    if headers == [] {
      assert [h][1..] == [];
    } else {
      assert (headers + [h])[1..] == headers[1..] + [h];
      HeaderTableLast(WithHeader(known, headers[0].name, headers[0].value), headers[1..], h);
    }
  }

  lemma ShorterHead(m: Message, tail: string, time: int)
    requires IsHead(m) && m.headers != []
    ensures var h, n := m.headers[|m.headers| - 1], Shorter(m);
            && IsHead(n) && RawHeader(h) && |HeadText(m)| == |HeadText(n)| + |RawLine(h)| + 2
            && HeadText(m) + tail == HeadText(n) + (RawLine(h) + CRLF + tail)
            && AfterHead(m, time) == Context(
                 ExpectHeaders,
                 AfterHead(n, time).request.(
                   headers := WithHeader(AfterHead(n, time).request.headers, h.name, h.value)),
                 |HeadText(m)|, 0)
  {
    hide FirstLine, OneLine, RawHeader, RawLine, WithHeader, HeaderTable;
    var h, n := m.headers[|m.headers| - 1], Shorter(m);
    assert m.headers == n.headers + [h];
    HeaderTableLast(map[], n.headers, h);
    assert Target(n) == Target(m);
    SameFirstLine(n, m);
    assert HeadText(m) == HeadText(n) + RawLine(h) + CRLF;
  }

  lemma SameFirstLine(n: Message, m: Message)
    requires Printable(m) && Printable(n) && n == m.(headers := n.headers)
    ensures FirstLine(n) == FirstLine(m)
  {
  }

  lemma HeaderLineTaken(c: Context, h: Header, tail: string, time: int)
    requires c.phase.ExpectHeaders? && RawHeader(h) && c.headerBytes + |RawLine(h)| + 2 <= MAX_HEADER_BYTES
    ensures Step(c, RawLine(h) + CRLF + tail, time)
         == Go(c.(headerBytes := c.headerBytes + |RawLine(h)| + 2,
                  request := c.request.(headers := WithHeader(c.request.headers, h.name, h.value))), tail)
  {
    hide Find, RawLine, WithHeader, Step;
    LineStep(c, RawLine(h), tail, time);
    ColonSplits(h);
  }

  /** A head is consumed line by line. */
  lemma {:induction false} HeadRead(m: Message, tail: string, time: int)
    requires IsHead(m)
    ensures Parse(Initial, HeadText(m) + tail, time) == Parse(AfterHead(m, time), tail, time)
    decreases |m.headers|
  {
    hide Parse, Step, RequestLine, FirstLine, RawLine, RawHeader, WithHeader, OneLine;
    if m.headers == [] {
      assert HeadText(m) + tail == FirstLine(m) + CRLF + tail;
      LineStep(Initial, FirstLine(m), tail, time);
      FirstLineRoundTrip(m);
      ParseGo(Initial, HeadText(m) + tail, time, AfterHead(m, time), tail);
    } else {
      var h, n := m.headers[|m.headers| - 1], Shorter(m);
      ShorterHead(m, tail, time);
      HeadRead(n, RawLine(h) + CRLF + tail, time);
      HeaderLineTaken(AfterHead(n, time), h, tail, time);
      ParseGo(AfterHead(n, time), RawLine(h) + CRLF + tail, time, AfterHead(m, time), tail);
    }
  }

  // ---------- the shapes ----------

  // The head may have 16 KiB, the body 10 MiB.

  /** The body length the head declares: that of the last Content-Length header, as `strtoull` reads
      it; none when there is no such header or it is empty. */
  ghost predicate Declares(m: Message, n: nat) {
    var value := LastValue("", m.headers, "Content-Length");
    || (value == "" && n == 0)
    || exists blanks, sign, digits ::
         Spelled(value, blanks, sign, digits) && NatOf(digits) < TWO_64 && n == Denoted(sign, NatOf(digits))
  }

  /** The first line is no request line. */
  ghost predicate BadLine(s: string, line: string, tail: string) {
    && s == line + CRLF + tail && OneLine(line) && |line| + 2 <= 16384
    && !exists m :: Spells(line, m)
  }

  /** A line behind the head so far is neither empty nor a header. */
  ghost predicate BadHeader(s: string, m: Message, line: string, tail: string) {
    && IsHead(m) && s == HeadText(m) + (line + CRLF + tail) && OneLine(line)
    && |HeadText(m)| + |line| + 2 <= 16384 && line != "" && ':' !in line
  }

  /** The head is over. */
  ghost predicate WholeHead(s: string, m: Message, tail: string) {
    IsHead(m) && s == HeadText(m) + (CRLF + tail) && |HeadText(m)| + 2 <= 16384
  }

  ghost predicate BadLength(s: string, m: Message, tail: string) {
    WholeHead(s, m, tail) && !exists n: nat :: Declares(m, n)
  }

  ghost predicate LongBody(s: string, m: Message, n: nat, tail: string) {
    WholeHead(s, m, tail) && Declares(m, n) && n > 10485760
  }

  ghost predicate OpenBody(s: string, m: Message, n: nat, part: string) {
    WholeHead(s, m, part) && Declares(m, n) && |part| < n <= 10485760
  }

  ghost predicate WholeBody(s: string, m: Message, tail: string) {
    WholeHead(s, m, m.body + tail) && Declares(m, |m.body|) && |m.body| <= 10485760
  }

  /** What is consumed when the parser looks for the end of a line: nothing yet, or a head. */
  ghost predicate Front(p: string) {
    p == "" || exists m :: IsHead(m) && p == HeadText(m)
  }

  /** Behind `p` no line ends within the limit. */
  ghost predicate LongHead(s: string, p: string) {
    Front(p) && p <= s && |p| <= 16384 < |s| && OneLine(s[|p|..16384])
  }

  ghost predicate OpenHead(s: string, p: string) {
    Front(p) && p <= s && |s| <= 16384 && OneLine(s[|p|..])
  }

  /** How a stream on a new connection fares. */
  ghost predicate Ends(s: string, verdict: ParseResult) {
    match verdict
    case BadRequest =>
      || (exists line, tail :: BadLine(s, line, tail))
      || (exists m, line, tail :: BadHeader(s, m, line, tail))
      || (exists m, tail :: BadLength(s, m, tail))
      || (exists m, tail :: WholeBody(s, m, tail) && !AcceptableBody(AsRead(m, 0)))
    case RequestTooLarge =>
      (exists p :: LongHead(s, p)) || (exists m, n, tail :: LongBody(s, m, n, tail))
    case Incomplete =>
      (exists p :: OpenHead(s, p)) || (exists m, n, part :: OpenBody(s, m, n, part))
    case Complete =>
      exists m, tail :: WholeBody(s, m, tail) && AcceptableBody(AsRead(m, 0))
  }

  // ---------- each shape is read as it says ----------

  lemma ParseStop(c: Context, input: string, time: int, o: Outcome)
    requires Step(c, input, time) == Stop(o)
    ensures Parse(c, input, time) == o
  {
  }

  lemma BadLineRead(s: string, line: string, tail: string, time: int)
    requires BadLine(s, line, tail)
    ensures Parse(Initial, s, time).result == BadRequest
  {
    hide Parse, Step, RequestLine, Spells, OneLine;
    LineStep(Initial, line, tail, time);
    RequestLineMeaning(line);
    ParseStop(Initial, s, time, Step(Initial, s, time).outcome);
  }

  lemma BadHeaderRead(s: string, m: Message, line: string, tail: string, time: int)
    requires BadHeader(s, m, line, tail)
    ensures Parse(Initial, s, time).result == BadRequest
  {
    hide Parse, Step, HeadText, IsHead, OneLine, Find;
    var c, input := AfterHead(m, time), line + CRLF + tail;
    HeadRead(m, input, time);
    LineStep(c, line, tail, time);
    FindNoChar(line, ':');
    ParseStop(c, input, time, Step(c, input, time).outcome);
  }

  lemma DeclaresMeaning(m: Message, n: nat)
    ensures Declares(m, n) <==> BodyLength(HeaderTable(map[], m.headers)) == Some(n)
  {
    hide CString, AllDigits, Strtoull, NatOf, LastValue, HeaderTable, Lower;
    HeaderTableLookup(map[], m.headers, "Content-Length");
    var value := LastValue("", m.headers, "Content-Length");
    assert HeaderValue(map[], "Content-Length") == "";
    if Strtoull(value).Some? {
      var blanks, sign, digits := ReadIsSpelled(value);
      SpelledIsRead(value, blanks, sign, digits);
    }
    forall blanks, sign, digits | Spelled(value, blanks, sign, digits)
      ensures Strtoull(value) == if NatOf(digits) < TWO_64 then Some(Denoted(sign, NatOf(digits))) else None
    {
      SpelledIsRead(value, blanks, sign, digits);
    }
    NothingSpelled();
  }

  lemma NothingSpelled()
    ensures forall blanks, sign, digits :: !Spelled("", blanks, sign, digits)
  {
  }

  /** The blank line: the declared length decides. */
  lemma WholeHeadRead(s: string, m: Message, tail: string, time: int)
    requires WholeHead(s, m, tail)
    ensures var c := AfterHead(m, time).(headerBytes := |HeadText(m)| + 2);
            var length := BodyLength(HeaderTable(map[], m.headers));
            Parse(Initial, s, time)
            == if length.None? then Outcome(BadRequest, c, CRLF + tail)
               else if length.value > MAX_BODY_BYTES then
                 Outcome(RequestTooLarge, c.(contentLength := length.value), CRLF + tail)
               else Parse(c.(contentLength := length.value, phase := ExpectBody), tail, time)
  {
    hide Parse, Step, HeadText, IsHead, Find, BodyLength, HeaderTable;
    var c, input := AfterHead(m, time), CRLF + tail;
    HeadRead(m, input, time);
    assert input == "" + CRLF + tail;
    OneLineWithoutFeed("");
    LineStep(c, "", tail, time);
    FindNoChar("", ':');
    var t := Step(c, input, time);
    if t.Stop? {
      ParseStop(c, input, time, t.outcome);
    } else {
      ParseGo(c, input, time, t.context, tail);
    }
  }

  lemma WholeBodyRead(s: string, m: Message, tail: string, time: int)
    requires WholeBody(s, m, tail)
    ensures var (ok, r) := Multipart(AsRead(m, time));
            Parse(Initial, s, time)
            == Outcome(if ok then Complete else BadRequest,
                       Context(if ok then GotAll else ExpectBody, r, |HeadText(m)| + 2, |m.body|), tail)
    ensures Multipart(AsRead(m, time)).0 <==> AcceptableBody(AsRead(m, 0))
  {
    hide Parse, HeadText, IsHead, BodyLength, HeaderTable, Multipart, Declares;
    DeclaresMeaning(m, |m.body|);
    WholeHeadRead(s, m, m.body + tail, time);
    var c := AfterHead(m, time).(headerBytes := |HeadText(m)| + 2, contentLength := |m.body|, phase := ExpectBody);
    assert (m.body + tail)[..|m.body|] == m.body && (m.body + tail)[|m.body|..] == tail;
    ParseStop(c, m.body + tail, time, TakeBody(c, m.body + tail));
    MultipartMeaning(AsRead(m, time));
    SameBody(m, time);
  }

  lemma SameBody(m: Message, time: int)
    ensures AcceptableBody(AsRead(m, time)) == AcceptableBody(AsRead(m, 0))
  {
    hide IsForm, ParameterValue, HeaderValue, Find;
  }

  lemma OpenBodyRead(s: string, m: Message, n: nat, part: string, time: int)
    requires OpenBody(s, m, n, part)
    ensures Parse(Initial, s, time).result == Incomplete
  {
    hide Parse, HeadText, IsHead, BodyLength, HeaderTable, Multipart, Declares;
    DeclaresMeaning(m, n);
    WholeHeadRead(s, m, part, time);
    var c := AfterHead(m, time).(headerBytes := |HeadText(m)| + 2, contentLength := n, phase := ExpectBody);
    ParseStop(c, part, time, TakeBody(c, part));
  }

  lemma FrontRead(p: string, rest: string, time: int) returns (c: Context)
    requires Front(p) && |p| <= MAX_HEADER_BYTES
    ensures c.headerBytes == |p| && (c.phase.ExpectRequestLine? || c.phase.ExpectHeaders?)
    ensures Parse(Initial, p + rest, time) == Parse(c, rest, time)
  {
    hide Parse, IsHead, HeadText;
    if p == "" {
      c := Initial;
      assert p + rest == rest;
    } else {
      var m :| IsHead(m) && p == HeadText(m);
      c := AfterHead(m, time);
      HeadRead(m, rest, time);
    }
  }

  /** No line break within the first `n` bytes: the line found, if any, ends later. */
  lemma NoBreakWithin(s: string, n: nat)
    requires n <= |s|
    ensures OneLine(s[..n]) <==> Find(s, CRLF, 0).None? || Find(s, CRLF, 0).value + 2 > n
  {
    FindMeans(s, CRLF, 0);
    assert s == s[..n] + s[n..];
    forall k: nat | k + 2 <= n ensures OccursAt(s, CRLF, k) == OccursAt(s[..n], CRLF, k) {
      OccursInPrefix(s[..n], s[n..], CRLF, k);
    }
    if Find(s, CRLF, 0).Some? && Find(s, CRLF, 0).value + 2 <= n {
      assert OccursAt(s[..n], CRLF, Find(s, CRLF, 0).value);
    }
  }

  lemma LongHeadRead(s: string, p: string, time: int)
    requires LongHead(s, p)
    ensures Parse(Initial, s, time).result == RequestTooLarge
  {
    hide Parse, Find, OneLine, Front;
    var rest := s[|p|..];
    assert s == p + rest;
    var c := FrontRead(p, rest, time);
    assert s[|p|..MAX_HEADER_BYTES] == rest[..MAX_HEADER_BYTES - |p|];
    NoBreakWithin(rest, MAX_HEADER_BYTES - |p|);
    ParseStop(c, rest, time, Step(c, rest, time).outcome);
  }

  lemma OpenHeadRead(s: string, p: string, time: int)
    requires OpenHead(s, p)
    ensures Parse(Initial, s, time).result == Incomplete
  {
    hide Parse, Find, OneLine, Front;
    var rest := s[|p|..];
    assert s == p + rest;
    var c := FrontRead(p, rest, time);
    assert rest == rest[..|rest|];
    NoBreakWithin(rest, |rest|);
    ParseStop(c, rest, time, Step(c, rest, time).outcome);
  }

  // ---------- every stream has one of the shapes ----------

  /** Where the head so far cannot be carried on. */
  ghost predicate Stuck(rest: string, used: nat) {
    var end := Find(rest, CRLF, 0);
    end.None? || used + end.value + 2 > MAX_HEADER_BYTES || ':' !in rest[..end.value]
  }

  lemma {:induction false} Furthest(s: string, m: Message) returns (n: Message)
    requires IsHead(m) && HeadText(m) <= s
    ensures IsHead(n) && HeadText(n) <= s && Stuck(s[|HeadText(n)|..], |HeadText(n)|)
    decreases |s| - |HeadText(m)|
  {
    hide HeadText, IsHead, Find, RawHeader;
    var rest := s[|HeadText(m)|..];
    if Stuck(rest, |HeadText(m)|) {
      n := m;
    } else {
      var k := Find(rest, CRLF, 0).value;
      OneLineUpTo(rest, k);
      var h := HeaderOfLine(rest[..k]);
      var longer := Longer(m, h);
      assert s == HeadText(m) + rest;
      assert s == HeadText(longer) + rest[k + 2..];
      n := Furthest(s, longer);
    }
  }

  lemma Longer(m: Message, h: Header) returns (n: Message)
    requires IsHead(m) && RawHeader(h) && |HeadText(m)| + |RawLine(h)| + 2 <= MAX_HEADER_BYTES
    ensures IsHead(n) && HeadText(n) == HeadText(m) + RawLine(h) + CRLF
  {
    hide FirstLine, OneLine, RawHeaders, RawLines, RawLine;
    n := m.(headers := m.headers + [h]);
    assert Target(n) == Target(m);
    SameFirstLine(n, m);
    OneMoreLine(m.headers, h);
    assert HeadText(n) == HeadText(m) + RawLine(h) + CRLF;
  }

  lemma OneMoreLine(headers: seq<Header>, h: Header)
    requires RawHeaders(headers) && RawHeader(h)
    ensures RawHeaders(headers + [h])
    ensures RawLines(headers + [h]) == RawLines(headers) + RawLine(h) + CRLF
  {
    hide RawHeader, RawLine;
    assert (headers + [h])[..|headers|] == headers;
  }

  lemma StuckEnds(s: string, p: string) returns (k: nat)
    requires Front(p) && p <= s && |p| <= MAX_HEADER_BYTES
    ensures || Ends(s, RequestTooLarge) || Ends(s, Incomplete)
            || (Find(s[|p|..], CRLF, 0) == Some(k) && |p| + k + 2 <= MAX_HEADER_BYTES)
  {
    hide Find, OneLine, Front;
    var rest := s[|p|..];
    if |s| <= MAX_HEADER_BYTES {
      NoBreakWithin(rest, |rest|);
      assert rest[..|rest|] == rest;
      assert OneLine(rest) ==> OpenHead(s, p);
    } else {
      NoBreakWithin(rest, MAX_HEADER_BYTES - |p|);
      assert s[|p|..MAX_HEADER_BYTES] == rest[..MAX_HEADER_BYTES - |p|];
      assert OneLine(s[|p|..MAX_HEADER_BYTES]) ==> LongHead(s, p);
    }
    k := if Find(rest, CRLF, 0).Some? then Find(rest, CRLF, 0).value else 0;
  }

  lemma BodyEnds(s: string, m: Message, tail: string) returns (verdict: ParseResult)
    requires WholeHead(s, m, tail)
    ensures Ends(s, verdict)
  {
    hide IsHead, HeadText, Declares, AcceptableBody, BodyLength, HeaderTable;
    if exists n: nat :: Declares(m, n) {
      var n: nat :| Declares(m, n);
      if n > MAX_BODY_BYTES {
        assert LongBody(s, m, n, tail);
        verdict := RequestTooLarge;
      } else if |tail| < n {
        assert OpenBody(s, m, n, tail);
        verdict := Incomplete;
      } else {
        var full := WithBody(s, m, n, tail);
        verdict := if AcceptableBody(AsRead(full, 0)) then Complete else BadRequest;
      }
    } else {
      assert BadLength(s, m, tail);
      verdict := BadRequest;
    }
  }

  lemma WithBody(s: string, m: Message, n: nat, tail: string) returns (full: Message)
    requires WholeHead(s, m, tail) && Declares(m, n) && n <= |tail| && n <= MAX_BODY_BYTES
    ensures WholeBody(s, full, tail[n..])
  {
    hide OneLine, RawHeaders, RawLines, FirstLine;
    full := m.(body := tail[..n]);
    assert tail == full.body + tail[n..];
    BodyAside(m, full);
  }

  lemma BodyAside(m: Message, full: Message)
    requires Printable(m) && full == m.(body := full.body)
    ensures FirstLine(full) == FirstLine(m) && Target(full) == Target(m)
  {
  }

  lemma SomeVerdict(s: string) returns (verdict: ParseResult)
    ensures Ends(s, verdict)
  {
    hide Ends, IsHead, HeadText, Find, OneLine, Spells, Stuck;
    var k := StuckEnds(s, "");
    assert s[0..] == s;
    if Ends(s, RequestTooLarge) {
      verdict := RequestTooLarge;
    } else if Ends(s, Incomplete) {
      verdict := Incomplete;
    } else {
      var line, tail := s[..k], s[k + 2..];
      OneLineUpTo(s, k);
      if exists m :: Spells(line, m) {
        var spelled :| Spells(line, spelled);
        var m := FirstHead(s, spelled, k, tail);
        verdict := HeadEnds(s, m);
      } else {
        verdict := BadRequest;
        FirstLineEnds(s, line, tail);
      }
    }
  }

  lemma FirstLineEnds(s: string, line: string, tail: string)
    requires BadLine(s, line, tail)
    ensures Ends(s, BadRequest)
  {
    hide BadLine, BadHeader, BadLength, WholeBody;
  }

  lemma FirstHead(s: string, spelled: Message, k: nat, tail: string) returns (m: Message)
    requires k + 2 <= MAX_HEADER_BYTES && k <= |s| && s == s[..k] + CRLF + tail
    requires Spells(s[..k], spelled) && OneLine(s[..k])
    ensures IsHead(m) && HeadText(m) <= s
  {
    hide FirstLine, OneLine;
    m := spelled.(headers := []);
    assert Target(m) == Target(spelled);
    SameFirstLine(m, spelled);
    assert HeadText(m) == FirstLine(m) + CRLF;
  }

  lemma HeadEnds(s: string, m: Message) returns (verdict: ParseResult)
    requires IsHead(m) && HeadText(m) <= s
    ensures Ends(s, verdict)
  {
    hide Ends, HeadText, IsHead, Find, OneLine;
    var n := Furthest(s, m);
    HeadFits(n);
    var p := HeadText(n);
    var rest := s[|p|..];
    assert s == p + rest;
    var k := StuckEnds(s, p);
    if Ends(s, RequestTooLarge) {
      verdict := RequestTooLarge;
    } else if Ends(s, Incomplete) {
      verdict := Incomplete;
    } else {
      OneLineUpTo(rest, k);
      var line, tail := rest[..k], rest[k + 2..];
      if line == "" {
        assert rest == CRLF + tail;
        verdict := BodyEnds(s, n, tail);
      } else {
        verdict := BadRequest;
        HeaderEnds(s, n, line, tail);
      }
    }
  }

  lemma HeadFits(m: Message)
    requires IsHead(m)
    ensures |HeadText(m)| <= MAX_HEADER_BYTES
  {
  }

  lemma HeaderEnds(s: string, m: Message, line: string, tail: string)
    requires BadHeader(s, m, line, tail)
    ensures Ends(s, BadRequest)
  {
    hide BadLine, BadHeader, BadLength, WholeBody;
  }

  // ---------- the verdicts ----------

  lemma BadIsRead(s: string, time: int)
    requires Ends(s, BadRequest)
    ensures Parse(Initial, s, time).result == BadRequest
  {
    hide Parse, BadLine, BadHeader, WholeHead, WholeBody, Declares, AcceptableBody, BodyLength, HeaderTable, Multipart;
    if line, tail :| BadLine(s, line, tail) {
      BadLineRead(s, line, tail, time);
    } else if m, line, tail :| BadHeader(s, m, line, tail) {
      BadHeaderRead(s, m, line, tail, time);
    } else if m, tail :| BadLength(s, m, tail) {
      WholeHeadRead(s, m, tail, time);
      var length := BodyLength(HeaderTable(map[], m.headers));
      if length.Some? {
        DeclaresMeaning(m, length.value);
      }
    } else {
      var m, tail :| WholeBody(s, m, tail) && !AcceptableBody(AsRead(m, 0));
      WholeBodyRead(s, m, tail, time);
    }
  }

  lemma TooLargeIsRead(s: string, time: int)
    requires Ends(s, RequestTooLarge)
    ensures Parse(Initial, s, time).result == RequestTooLarge
  {
    hide Parse, WholeHead, Declares, LongHead, BodyLength, HeaderTable;
    if p :| LongHead(s, p) {
      LongHeadRead(s, p, time);
    } else {
      var m, n, tail :| LongBody(s, m, n, tail);
      WholeHeadRead(s, m, tail, time);
      DeclaresMeaning(m, n);
    }
  }

  lemma OpenIsRead(s: string, time: int)
    requires Ends(s, Incomplete)
    ensures Parse(Initial, s, time).result == Incomplete
  {
    hide Parse, OpenHead, OpenBody;
    if p :| OpenHead(s, p) {
      OpenHeadRead(s, p, time);
    } else {
      var m, n, part :| OpenBody(s, m, n, part);
      OpenBodyRead(s, m, n, part, time);
    }
  }

  lemma CompleteIsRead(s: string, time: int)
    requires Ends(s, Complete)
    ensures Parse(Initial, s, time).result == Complete
  {
    hide Parse, WholeBody, AcceptableBody, Multipart;
    var m, tail :| WholeBody(s, m, tail) && AcceptableBody(AsRead(m, 0));
    WholeBodyRead(s, m, tail, time);
  }

  /** A stream is completed, refused as bad, refused as too large or waited on exactly as its text
      says. */
  lemma VerdictMeaning(s: string, verdict: ParseResult, time: int)
    ensures Parse(Initial, s, time).result == verdict <==> Ends(s, verdict)
  {
    hide Parse, Ends;
    var v := SomeVerdict(s);
    EndsIsRead(s, v, time);
    if Ends(s, verdict) {
      EndsIsRead(s, verdict, time);
    }
  }

  lemma EndsIsRead(s: string, verdict: ParseResult, time: int)
    requires Ends(s, verdict)
    ensures Parse(Initial, s, time).result == verdict
  {
    hide Parse, Ends;
    match verdict {
      case Incomplete => OpenIsRead(s, time);
      case Complete => CompleteIsRead(s, time);
      case BadRequest => BadIsRead(s, time);
      case RequestTooLarge => TooLargeIsRead(s, time);
    }
  }

  /** A completed context stays as it is until it is reset: a further call completes at once and leaves
      the input alone. */
  lemma CompleteStays(s: string, time: int, more: string, later: int)
    requires Parse(Initial, s, time).result.Complete?
    ensures var c := Parse(Initial, s, time).context; Parse(c, more, later) == Outcome(Complete, c, more)
  {
    hide Parse, WholeBody, AcceptableBody, Multipart;
    VerdictMeaning(s, Complete, time);
    var m, tail :| WholeBody(s, m, tail) && AcceptableBody(AsRead(m, 0));
    WholeBodyRead(s, m, tail, time);
    var c := Parse(Initial, s, time).context;
    ParseStop(c, more, later, Outcome(Complete, c, more));
  }

  // ---------- what the server answers ----------

  lemma {:induction false} ServeKeepsLog(s: Session, decide: Request -> Answer, time: int)
    ensures s.log <= Serve(s, decide, time).log
    decreases |s.pending|, if s.context.phase.ExpectRequestLine? then 0 else 1
  {
    if s.connected {
      ServeShrinks(s, decide, time);
      var (n, more) := ServeOne(s, decide, time);
      if more {
        ServeKeepsLog(n, decide, time);
      }
    }
  }

  /** Between two requests: bad input is answered with 400 and oversized input with 413, nothing is
      handled and the connection is closed for sending; unfinished input is kept, unanswered; anything
      else reaches a handler first. */
  lemma FirstAnswer(s: Session, decide: Request -> Answer, time: int)
    requires Between(s)
    ensures var n := Serve(s, decide, time);
            && (n.log == s.log + [Refused(400)] <==> Ends(s.pending, BadRequest))
            && (n.log == s.log + [Refused(413)] <==> Ends(s.pending, RequestTooLarge))
            && (n.log == s.log <==> Ends(s.pending, Incomplete))
            && ((exists r :: s.log + [Handled(r)] <= n.log) <==> Ends(s.pending, Complete))
            && (Ends(s.pending, BadRequest) || Ends(s.pending, RequestTooLarge) ==> !n.connected)
            && (Ends(s.pending, Incomplete) ==> n.connected && n.reading)
  {
    hide Ends, Parse;
    var result := Parse(Initial, s.pending, time).result;
    forall verdict ensures Ends(s.pending, verdict) <==> result == verdict {
      VerdictMeaning(s.pending, verdict, time);
    }
    forall e, e' ensures s.log + [e] <= s.log + [e'] ==> e == e' {
      NextEvent(s.log, s.log + [e'], e, e');
    }
    if result.Complete? {
      HandledFirst(s, decide, time);
      var e := Handled(Parse(Initial, s.pending, time).context.request);
      NextEvent(s.log, Serve(s, decide, time).log, e, Refused(400));
      NextEvent(s.log, Serve(s, decide, time).log, e, Refused(413));
    } else {
      ServeShrinks(s, decide, time);
    }
  }

  lemma NextEvent(log: seq<Event>, longer: seq<Event>, e: Event, e': Event)
    ensures log + [e] <= longer && log + [e'] <= longer ==> e == e'
    ensures log + [e] <= longer ==> longer != log
  {
    if log + [e] <= longer && log + [e'] <= longer {
      assert longer[|log|] == (log + [e])[|log|] == (log + [e'])[|log|];
    }
  }

  lemma HandledFirst(s: Session, decide: Request -> Answer, time: int)
    requires Between(s) && Parse(Initial, s.pending, time).result.Complete?
    ensures var n := Serve(s, decide, time);
            s.log + [Handled(Parse(Initial, s.pending, time).context.request)] <= n.log
  {
    hide Parse;
    ServeShrinks(s, decide, time);
    var (n, more) := ServeOne(s, decide, time);
    if more {
      ServeKeepsLog(n, decide, time);
    }
  }

  lemma OneRefusal(log: seq<Event>, status: nat)
    ensures UntimedLog(log) == UntimedLog([Refused(status)]) <==> log == [Refused(status)]
  {
    if UntimedLog(log) == UntimedLog([Refused(status)]) {
      assert |UntimedLog(log)| == |log| == 1;
      assert UntimedLog(log)[0] == UntimedLog([Refused(status)])[0];
    }
  }

  /** However the network cuts a stream, it is refused as one piece would be. */
  lemma RefusedThroughAnyCut(cuts: seq<Read>, decide: Request -> Answer)
    requires NeverHolds(decide) && WellCut(cuts)
    ensures Run(cuts, decide).log == [Refused(400)] <==> Ends(Bytes(cuts), BadRequest)
    ensures Run(cuts, decide).log == [Refused(413)] <==> Ends(Bytes(cuts), RequestTooLarge)
    ensures Run(cuts, decide).log == [] <==> Ends(Bytes(cuts), Incomplete)
  {
    hide Ends, Serve, UntimedLog, NeverHolds;
    var s, n := Fresh.(pending := "" + Bytes(cuts)), Run(cuts, decide);
    RunIsOneRead(cuts, decide, 0);
    assert "" + Bytes(cuts) == Bytes(cuts);
    FirstAnswer(s, decide, 0);
    OneRefusal(n.log, 400);
    OneRefusal(n.log, 413);
    var once := Deliver(Fresh, Bytes(cuts), decide, 0);
    assert once == Serve(s, decide, 0);
    OneRefusal(once.log, 400);
    OneRefusal(once.log, 413);
    NoEvents(n.log);
    NoEvents(once.log);
    assert forall e: Event :: [] + [e] == [e];
  }

  lemma NoEvents(log: seq<Event>)
    ensures UntimedLog(log) == [] <==> log == []
  {
    assert |UntimedLog(log)| == |log|;
  }

  /** What becomes of a complete request between two others. The asynchronous handler is asked first;
      if it takes the request, parsing stops and the connection stays open, read on unless the handler
      turned reading off. Otherwise the response starts out closing if the last Connection header is
      `close`, or is not `Keep-Alive` in HTTP/1.0; if it ends up closing, the connection is shut down,
      and if not, what follows is served. Bytes behind the request stay in the buffer. */
  lemma AnswerMeaning(s: Session, m: Message, tail: string, h: Handlers, time: int)
    requires Between(s) && WholeBody(s.pending, m, tail) && AcceptableBody(AsRead(m, 0))
    ensures var connection := LastValue("", m.headers, "Connection");
            var seen := Multipart(AsRead(m, 0)).1;
            var closes := connection == "close" || (m.version == Http10 && connection != "Keep-Alive");
            var n := s.(pending := tail, log := s.log + [Handled(seen.(receiveTime := time))]);
            Serve(s, Deciding(h), time)
            == match h.take(seen)
               case Some(off) => n.(reading := !off)
               case None =>
                 if h.respond(seen, closes) then n.(connected := false)
                 else if tail == "" then n
                 else Serve(n, Deciding(h), time)
  {
    hide Parse, WholeBody, AcceptableBody, Multipart, AsRead, LastValue, AsksToClose;
    var seen := Multipart(AsRead(m, 0)).1;
    WholeBodyRead(s.pending, m, tail, time);
    SeenUntimed(m, time);
    SeenRule(m);
    ServeShrinks(s, Deciding(h), time);
    assert ServeOne(s, Deciding(h), time).0.log == s.log + [Handled(seen.(receiveTime := time))];
  }

  lemma SeenUntimed(m: Message, time: int)
    ensures Multipart(AsRead(m, time)).1 == Multipart(AsRead(m, 0)).1.(receiveTime := time)
    ensures Untimed(Multipart(AsRead(m, time)).1) == Multipart(AsRead(m, 0)).1
  {
    hide Multipart;
    MultipartUntimed(AsRead(m, time));
    MultipartUntimed(AsRead(m, 0));
    assert Untimed(AsRead(m, time)) == AsRead(m, 0);
    MultipartTime(AsRead(m, time));
    MultipartTime(AsRead(m, 0));
  }

  /** Looking into the body leaves the receive time. */
  lemma MultipartTime(r: Request)
    ensures Multipart(r).1.receiveTime == r.receiveTime
  {
    var boundary := ParameterValue(HeaderValue(r.headers, "Content-Type"), "boundary");
    PartsTime(r.body, "--" + boundary, 0, r);
  }

  lemma {:induction false} PartsTime(body: string, boundary: string, cursor: nat, r: Request)
    requires cursor <= |body|
    ensures Parts(body, boundary, cursor, r).1.receiveTime == r.receiveTime
    decreases |body| - cursor
  {
    hide Find, PartAt;
    match NextPart(body, boundary, cursor) {
      case Part(h, content, next) =>
        PartsTime(body, boundary, next, WithPart(r, h, content));
      case _ =>
    }
  }

  lemma SeenRule(m: Message)
    ensures var connection := LastValue("", m.headers, "Connection");
            AsksToClose(Multipart(AsRead(m, 0)).1)
            == (connection == "close" || (m.version == Http10 && connection != "Keep-Alive"))
  {
    hide Multipart, LastValue;
    HeaderTableLookup(map[], m.headers, "Connection");
    MultipartKeepsHead(AsRead(m, 0));
    assert HeaderValue(map[], "Connection") == "";
  }
}
