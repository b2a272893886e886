/** Requests as a client prints them, and the round trip through the parser and the server. */
module HttpPrinting {
  import opened Text
  import opened Numerals
  import opened HttpRequests
  import opened HttpParsing
  import opened HttpLocality
  import opened HttpServers
  import opened HttpFragments

  datatype Header = Header(name: string, value: string)

  datatype Message = Message(
    verb: Method, path: string, query: Option<string>, version: Version, headers: seq<Header>, body: string)

  predicate Printable(m: Message) {
    !m.verb.Invalid? && !m.version.Unknown?
  }

  function VerbName(verb: Method): string
    requires !verb.Invalid?
  {
    match verb
    case Get => "GET"
    case Post => "POST"
    case Head => "HEAD"
    case Put => "PUT"
    case Delete => "DELETE"
  }

  function VersionName(version: Version): string
    requires !version.Unknown?
  {
    if version.Http11? then "HTTP/1.1" else "HTTP/1.0"
  }

  function Target(m: Message): string {
    m.path + (if m.query.Some? then "?" + m.query.value else "")
  }

  function FirstLine(m: Message): string
    requires Printable(m)
  {
    VerbName(m.verb) + " " + Target(m) + " " + VersionName(m.version)
  }

  function HeaderLine(h: Header): string {
    h.name + ":" + (" " + h.value)
  }

  function HeaderText(headers: seq<Header>): string {
    if headers == [] then "" else HeaderLine(headers[0]) + CRLF + HeaderText(headers[1..])
  }

  /** The headers of the message followed by the length of its body. */
  function AllHeaders(m: Message): seq<Header> {
    m.headers + [Header("Content-Length", Decimal(|m.body|))]
  }

  function Print(m: Message): string
    requires Printable(m)
  {
    FirstLine(m) + CRLF + HeaderText(AllHeaders(m)) + CRLF + m.body
  }

  function HeadSize(m: Message): nat
    requires Printable(m)
  {
    |FirstLine(m)| + 2 + |HeaderText(AllHeaders(m))| + 2
  }

  /** The header table of a list of headers read on top of `known`. */
  function HeaderTable(known: map<string, string>, headers: seq<Header>): map<string, string>
    decreases |headers|
  {
    if headers == [] then known
    else HeaderTable(WithHeader(known, headers[0].name, headers[0].value), headers[1..])
  }

  /** The request as read, before its body is looked into. */
  function Plain(m: Message, time: int): Request {
    Request(m.verb, m.version, m.path, if m.query.Some? then m.query.value else "", time,
            HeaderTable(map[], AllHeaders(m)), map[], [], m.body)
  }

  /** The request the server should see: `Plain`, and the parts of a multipart body. */
  function Expected(m: Message, time: int): Request {
    Multipart(Plain(m, time)).1
  }

  ghost predicate WellFormedHeader(h: Header) {
    ':' !in h.name && OneLine(HeaderLine(h))
  }

  /** A request whose head the protocol allows and whose sizes are within the limits. */
  ghost predicate WellFormedHead(m: Message) {
    && Printable(m)
    && ' ' !in Target(m) && '?' !in m.path && OneLine(FirstLine(m))
    && (forall i :: 0 <= i < |m.headers| ==> WellFormedHeader(m.headers[i]))
    && HeadSize(m) <= MAX_HEADER_BYTES && |m.body| <= MAX_BODY_BYTES
  }

  /** ... and whose body, if it is declared multipart, is one. */
  ghost predicate WellFormed(m: Message) {
    WellFormedHead(m) && Multipart(Plain(m, 0)).0
  }

  // ---------- what the header table holds ----------

  /** A stored header is the last one of its name, in any letter case, without its padding. */
  lemma {:induction false} HeaderTableLookup(known: map<string, string>, headers: seq<Header>, name: string)
    ensures HeaderValue(HeaderTable(known, headers), name) == LastValue(HeaderValue(known, name), headers, name)
    decreases |headers|
  {
    if headers != [] {
      var known' := WithHeader(known, headers[0].name, headers[0].value);
      HeaderTableLookup(known', headers[1..], name);
      assert HeaderValue(known', name)
          == if Lower(headers[0].name) == Lower(name) then Strip(headers[0].value, IsSpace) else HeaderValue(known, name);
      LastValueFirst(HeaderValue(known, name), headers, name);
    }
  }

  /** Read from the end: the last header called `name`, or `default`. */
  function LastValue(default: string, headers: seq<Header>, name: string): string {
    if headers == [] then default
    else
      var h := headers[|headers| - 1];
      if Lower(h.name) == Lower(name) then Strip(h.value, IsSpace)
      else LastValue(default, headers[..|headers| - 1], name)
  }

  lemma {:induction false} LastValueFirst(default: string, headers: seq<Header>, name: string)
    requires headers != []
    ensures LastValue(default, headers, name)
         == LastValue(if Lower(headers[0].name) == Lower(name) then Strip(headers[0].value, IsSpace) else default,
                      headers[1..], name)
  {
    if |headers| > 1 {
      LastValueFirst(default, headers[..|headers| - 1], name);
      assert headers[..|headers| - 1][1..] == headers[1..][..|headers| - 2];
    } else {
      assert headers[..0] == [];
    }
  }

  // ---------- the lines ----------

  lemma VerbRoundTrip(verb: Method)
    requires !verb.Invalid?
    ensures MethodOf(VerbName(verb)) == verb && ' ' !in VerbName(verb)
  {
  }

  lemma TargetRoundTrip(r: Request, m: Message)
    requires '?' !in m.path && r.query == ""
    ensures WithTarget(r, Target(m)) == r.(path := m.path, query := if m.query.Some? then m.query.value else "")
  {
    if m.query.Some? {
      FindChar(m.path, '?', m.query.value);
      assert Target(m) == m.path + ['?'] + m.query.value;
    } else {
      assert Target(m) == m.path;
      FindNoChar(m.path, '?');
    }
  }

  lemma FirstLineRoundTrip(m: Message)
    requires Printable(m) && ' ' !in Target(m) && '?' !in m.path
    ensures RequestLine(Blank, FirstLine(m))
         == (true, Blank.(verb := m.verb, version := m.version, path := m.path,
                          query := if m.query.Some? then m.query.value else ""))
  {
    hide Find, Target, WithTarget;
    var line := FirstLine(m);
    var verb, version := VerbName(m.verb), VersionName(m.version);
    VerbRoundTrip(m.verb);
    var target := Target(m) + " " + version;
    assert line == verb + " " + target;
    CutAtSpace(line, verb, target);
    CutAtSpace(target, Target(m), version);
    TargetRoundTrip(Blank.(verb := m.verb), m);
  }

  lemma CutAtSpace(line: string, word: string, rest: string)
    requires line == word + " " + rest && ' ' !in word
    ensures Find(line, " ", 0) == Some(|word|) && line[..|word|] == word && line[|word| + 1..] == rest
  {
    hide Find;
    FindChar(word, ' ', rest);
    assert line == word + [' '] + rest;
  }

  lemma HeaderLineRoundTrip(headers: map<string, string>, h: Header)
    requires WellFormedHeader(h)
    ensures var line := HeaderLine(h);
            && Find(line, ":", 0) == Some(|h.name|)
            && WithHeader(headers, line[..|h.name|], line[|h.name| + 1..]) == WithHeader(headers, h.name, h.value)
  {
    var line := HeaderLine(h);
    FindChar(h.name, ':', " " + h.value);
    assert line == h.name + [':'] + (" " + h.value);
    assert line[..|h.name|] == h.name && line[|h.name| + 1..] == " " + h.value;
    assert (" " + h.value)[1..] == h.value;
  }

  // ---------- the head ----------

  lemma LineStep(c: Context, line: string, tail: string, time: int)
    requires OneLine(line) && (c.phase.ExpectRequestLine? || c.phase.ExpectHeaders?)
    ensures var input := line + CRLF + tail;
            Step(c, input, time) == TakeLine(c, line, input, time) && input[|line| + 2..] == tail
  {
    FindLineEnd(line, tail);
    assert (line + CRLF + tail)[..|line|] == line;
  }

  function AfterHeader(c: Context, h: Header): Context {
    c.(headerBytes := c.headerBytes + |HeaderLine(h)| + 2,
       request := c.request.(headers := WithHeader(c.request.headers, h.name, h.value)))
  }

  lemma HeaderStep(c: Context, h: Header, tail: string, time: int)
    requires c.phase.ExpectHeaders? && WellFormedHeader(h)
    requires c.headerBytes + |HeaderLine(h)| + 2 <= MAX_HEADER_BYTES
    ensures Step(c, HeaderLine(h) + CRLF + tail, time) == Go(AfterHeader(c, h), tail)
  {
    LineStep(c, HeaderLine(h), tail, time);
    HeaderLineRoundTrip(c.request.headers, h);
  }

  function AfterHeaders(c: Context, headers: seq<Header>): Context {
    c.(headerBytes := c.headerBytes + |HeaderText(headers)|,
       request := c.request.(headers := HeaderTable(c.request.headers, headers)))
  }

  lemma AfterHeadersSplit(c: Context, headers: seq<Header>)
    requires headers != []
    ensures AfterHeaders(c, headers) == AfterHeaders(AfterHeader(c, headers[0]), headers[1..])
  {
  }

  lemma HeaderTextSplit(headers: seq<Header>, rest: string)
    requires headers != []
    ensures HeaderText(headers) + rest == HeaderLine(headers[0]) + CRLF + (HeaderText(headers[1..]) + rest)
  {
  }

  lemma ParseGo(c: Context, input: string, time: int, c': Context, rest: string)
    requires Step(c, input, time) == Go(c', rest)
    ensures Parse(c, input, time) == Parse(c', rest, time)
  {
  }

  /** Header lines are taken off one by one. */
  lemma {:induction false} HeadersRoundTrip(c: Context, headers: seq<Header>, rest: string, time: int)
    requires c.phase.ExpectHeaders?
    requires forall i :: 0 <= i < |headers| ==> WellFormedHeader(headers[i])
    requires c.headerBytes + |HeaderText(headers)| <= MAX_HEADER_BYTES
    ensures Parse(c, HeaderText(headers) + rest, time) == Parse(AfterHeaders(c, headers), rest, time)
    decreases |headers|
  {
    hide Parse, HeaderLine;
    if headers == [] {
      assert HeaderText(headers) + rest == rest;
    } else {
      var h, tail := headers[0], HeaderText(headers[1..]) + rest;
      HeaderTextSplit(headers, rest);
      HeaderStep(c, h, tail, time);
      HeadersRoundTrip(AfterHeader(c, h), headers[1..], rest, time);
      ParseGo(c, HeaderText(headers) + rest, time, AfterHeader(c, h), tail);
      AfterHeadersSplit(c, headers);
    }
  }

  /** The printed length is the last header of that name, so it is the one the parser uses. */
  lemma LengthIsRead(m: Message)
    requires |m.body| <= MAX_BODY_BYTES
    ensures BodyLength(HeaderTable(map[], AllHeaders(m))) == Some(|m.body|)
  {
    var digits := Decimal(|m.body|);
    DecimalRoundTrip(|m.body|);
    StrtoullDecimal(|m.body|);
    HeaderTableLookup(map[], AllHeaders(m), "Content-Length");
    assert Stripped(digits, IsSpace);
    assert Strip(digits, IsSpace) == digits;
  }

  lemma LengthHeaderWellFormed(n: nat)
    ensures WellFormedHeader(Header("Content-Length", Decimal(n)))
  {
    DecimalRoundTrip(n);
    assert '\n' !in "Content-Length" + ":" && '\n' !in Decimal(n);
    OneLineWithoutFeed(HeaderLine(Header("Content-Length", Decimal(n))));
  }

  /** The blank line and the body. */
  lemma BodyRoundTrip(m: Message, c: Context, rest: string, time: int)
    requires WellFormed(m) && c.phase.ExpectHeaders?
    requires c.request == Plain(m, time).(body := "") && c.headerBytes + 2 <= MAX_HEADER_BYTES
    ensures Parse(c, CRLF + m.body + rest, time)
         == Outcome(Complete, Context(GotAll, Expected(m, time), c.headerBytes + 2, |m.body|), rest)
  {
    hide Find, OneLine, Multipart, BodyLength, HeaderTable;
    var input := CRLF + m.body + rest;
    assert input == "" + CRLF + (m.body + rest);
    OneLineWithoutFeed("");
    FindLineEnd("", m.body + rest);
    assert input[..0] == "" && input[2..] == m.body + rest;
    FindNoChar("", ':');
    LengthIsRead(m);
    var c' := c.(headerBytes := c.headerBytes + 2, contentLength := |m.body|, phase := ExpectBody);
    assert Step(c, input, time) == Go(c', m.body + rest);
    assert (m.body + rest)[..|m.body|] == m.body && (m.body + rest)[|m.body|..] == rest;
    MultipartUntimed(Plain(m, time));
    MultipartUntimed(Plain(m, 0));
    assert Untimed(Plain(m, time)) == Untimed(Plain(m, 0));
    assert c.request.(body := m.body) == Plain(m, time);
  }

  function AfterFirst(m: Message, time: int): Context
    requires Printable(m)
  {
    Context(ExpectHeaders, Plain(m, time).(headers := map[], body := ""), |FirstLine(m)| + 2, 0)
  }

  lemma FirstStep(m: Message, tail: string, time: int)
    requires WellFormed(m)
    ensures Step(Initial, FirstLine(m) + CRLF + tail, time) == Go(AfterFirst(m, time), tail)
  {
    LineStep(Initial, FirstLine(m), tail, time);
    FirstLineRoundTrip(m);
  }

  /** Printing then parsing: whatever follows on the connection, the parser consumes exactly the
      printed bytes and yields the message. */
  lemma RequestRoundTrip(m: Message, rest: string, time: int)
    requires WellFormed(m)
    ensures Parse(Initial, Print(m) + rest, time)
         == Outcome(Complete, Context(GotAll, Expected(m, time), HeadSize(m), |m.body|), rest)
  {
    var headers, body := AllHeaders(m), CRLF + m.body + rest;
    var tail := HeaderText(headers) + body;
    assert Print(m) + rest == FirstLine(m) + CRLF + tail;
    FirstStep(m, tail, time);
    var c := AfterFirst(m, time);
    LengthHeaderWellFormed(|m.body|);
    HeadersRoundTrip(c, headers, body, time);
    ParseGo(Initial, Print(m) + rest, time, c, tail);
    BodyRoundTrip(m, AfterHeaders(c, headers), rest, time);
  }

  // ---------- pipelines ----------

  ghost predicate AllWellFormed(ms: seq<Message>)
    ensures AllWellFormed(ms) ==> forall i :: 0 <= i < |ms| ==> Printable(ms[i])
  {
    forall i :: 0 <= i < |ms| ==> WellFormed(ms[i])
  }

  function PrintAll(ms: seq<Message>): string
    requires forall i :: 0 <= i < |ms| ==> Printable(ms[i])
  {
    if ms == [] then "" else Print(ms[0]) + PrintAll(ms[1..])
  }

  function Answers(ms: seq<Message>, time: int): seq<Event> {
    seq(|ms|, i requires 0 <= i < |ms| => Handled(Expected(ms[i], time)))
  }

  /** The handler keeps the connection open after each of these requests. */
  ghost predicate KeepsAll(ms: seq<Message>, decide: Request -> Answer) {
    forall i :: 0 <= i < |ms| ==> decide(Untimed(Expected(ms[i], 0))).Keep?
  }

  lemma ExpectedUntimed(m: Message, time: int)
    ensures Untimed(Expected(m, time)) == Untimed(Expected(m, 0))
  {
    MultipartUntimed(Plain(m, time));
    MultipartUntimed(Plain(m, 0));
    assert Untimed(Plain(m, time)) == Untimed(Plain(m, 0));
  }

  lemma PipelineTurn(s: Session, ms: seq<Message>, decide: Request -> Answer, time: int)
    requires Between(s) && ms != [] && AllWellFormed(ms)
    requires KeepsAll(ms, decide) && s.pending == PrintAll(ms)
    ensures var n := s.(pending := PrintAll(ms[1..]), log := s.log + [Handled(Expected(ms[0], time))]);
            ServeOne(s, decide, time) == (n, n.pending != "")
  {
    hide Parse, Print, Expected;
    RequestRoundTrip(ms[0], PrintAll(ms[1..]), time);
    ExpectedUntimed(ms[0], time);
  }

  lemma ServeTurn(s: Session, n: Session, more: bool, decide: Request -> Answer, time: int)
    requires s.connected && ServeOne(s, decide, time) == (n, more)
    ensures Serve(s, decide, time) == if more then Serve(n, decide, time) else n
  {
    ServeShrinks(s, decide, time);
  }

  lemma AnswersSplit(ms: seq<Message>, log: seq<Event>, time: int)
    requires ms != []
    ensures log + Answers(ms, time) == (log + [Handled(Expected(ms[0], time))]) + Answers(ms[1..], time)
  {
  }

  lemma PrintAllEmpty(ms: seq<Message>)
    requires forall i :: 0 <= i < |ms| ==> Printable(ms[i])
    ensures PrintAll(ms) == "" <==> ms == []
  {
  }

  /** A pipeline in one read: every request is handled in order and nothing is left over. */
  lemma {:induction false} PipelineRoundTrip(s: Session, ms: seq<Message>, decide: Request -> Answer, time: int)
    requires Between(s) && ms != [] && AllWellFormed(ms)
    requires KeepsAll(ms, decide) && s.pending == PrintAll(ms)
    ensures Serve(s, decide, time) == s.(pending := "", log := s.log + Answers(ms, time))
    decreases |ms|
  {
    hide Serve, ServeOne, Expected, PrintAll;
    PipelineTurn(s, ms, decide, time);
    var n := s.(pending := PrintAll(ms[1..]), log := s.log + [Handled(Expected(ms[0], time))]);
    ServeTurn(s, n, n.pending != "", decide, time);
    AnswersSplit(ms, s.log, time);
    PrintAllEmpty(ms[1..]);
    if |ms| > 1 {
      PipelineRoundTrip(n, ms[1..], decide, time);
    }
  }

  /** The same pipeline cut anywhere by the network is answered the same. */
  lemma PipelineThroughAnyCut(ms: seq<Message>, cuts: seq<Read>, decide: Request -> Answer)
    requires ms != [] && AllWellFormed(ms)
    requires NeverHolds(decide) && KeepsAll(ms, decide)
    requires WellCut(cuts) && Bytes(cuts) == PrintAll(ms)
    ensures Sight(Run(cuts, decide)) == View(Initial, "", true, true, UntimedLog(Answers(ms, 0)))
  {
    RunIsOneRead(cuts, decide, 0);
    var s := Fresh.(pending := "" + PrintAll(ms));
    assert "" + PrintAll(ms) == PrintAll(ms);
    PipelineRoundTrip(s, ms, decide, 0);
    assert [] + Answers(ms, 0) == Answers(ms, 0);
  }

  // ---------- the rule for keeping a connection ----------

  /** With handlers that leave the rule alone, a message keeps its connection open exactly if its
      last Connection header is not `close` and, in HTTP/1.0, is `Keep-Alive`. */
  predicate StaysOpen(m: Message) {
    var connection := LastValue("", AllHeaders(m), "Connection");
    connection != "close" && (m.version.Http10? ==> connection == "Keep-Alive")
  }

  lemma ConnectionRule(m: Message, time: int)
    requires Printable(m)
    ensures Deciding(PLAIN)(Untimed(Expected(m, time))) == if StaysOpen(m) then Keep else Close
  {
    HeaderTableLookup(map[], AllHeaders(m), "Connection");
    MultipartKeepsHead(Plain(m, time));
    assert HeaderValue(map[], "Connection") == "";
  }

  /** Looking into the body changes neither the version nor the headers. */
  lemma MultipartKeepsHead(r: Request)
    ensures Multipart(r).1.headers == r.headers && Multipart(r).1.version == r.version
  {
    var boundary := ParameterValue(HeaderValue(r.headers, "Content-Type"), "boundary");
    PartsKeepHead(r.body, "--" + boundary, 0, r);
  }

  lemma {:induction false} PartsKeepHead(body: string, boundary: string, cursor: nat, r: Request)
    requires cursor <= |body|
    ensures Parts(body, boundary, cursor, r).1.headers == r.headers
    ensures Parts(body, boundary, cursor, r).1.version == r.version
    decreases |body| - cursor
  {
    hide Find, PartAt;
    match NextPart(body, boundary, cursor) {
      case Part(h, content, next) =>
        PartsKeepHead(body, boundary, next, WithPart(r, h, content));
      case _ =>
    }
  }

  /** A pipeline whose k-th message is the first that closes: the messages up to it are answered, the
      connection is shut down and what follows stays unread in the buffer. */
  lemma {:induction false} PipelineCloses(s: Session, ms: seq<Message>, k: nat, time: int)
    requires Between(s) && AllWellFormed(ms) && s.pending == PrintAll(ms)
    requires k < |ms| && !StaysOpen(ms[k]) && forall i :: 0 <= i < k ==> StaysOpen(ms[i])
    ensures Serve(s, Deciding(PLAIN), time)
         == s.(pending := PrintAll(ms[k + 1..]), connected := false, log := s.log + Answers(ms[..k + 1], time))
    decreases k
  {
    hide Serve, ServeOne, Expected, PrintAll, StaysOpen, Deciding, Answers, WellFormed;
    RuleTurn(s, ms, time);
    var log := s.log + [Handled(Expected(ms[0], time))];
    var n := s.(pending := PrintAll(ms[1..]), connected := StaysOpen(ms[0]), log := log);
    var more := StaysOpen(ms[0]) && n.pending != "";
    ServeTurn(s, n, more, Deciding(PLAIN), time);
    AnswersSplit(ms[..k + 1], s.log, time);
    PrintAllEmpty(ms[1..]);
    TailOf(ms, k);
    if k == 0 {
      NoAnswers(log, time);
    } else {
      PipelineCloses(n, ms[1..], k - 1, time);
    }
  }

  lemma TailOf(ms: seq<Message>, k: nat)
    requires k < |ms|
    ensures ms[..k + 1][0] == ms[0] && ms[..k + 1][1..] == ms[1..][..k]
    ensures ms[1..][k..] == ms[k + 1..]
    ensures forall i :: 0 <= i < |ms| - 1 ==> ms[1..][i] == ms[i + 1]
  {
  }

  lemma NoAnswers(log: seq<Event>, time: int)
    ensures log + Answers([], time) == log
  {
  }

  lemma RuleTurn(s: Session, ms: seq<Message>, time: int)
    requires Between(s) && ms != [] && AllWellFormed(ms) && s.pending == PrintAll(ms)
    ensures var open := StaysOpen(ms[0]);
            var n := s.(pending := PrintAll(ms[1..]), connected := open,
                        log := s.log + [Handled(Expected(ms[0], time))]);
            ServeOne(s, Deciding(PLAIN), time) == (n, open && n.pending != "")
  {
    hide Parse, Print, Expected, StaysOpen, Deciding;
    RequestRoundTrip(ms[0], PrintAll(ms[1..]), time);
    ConnectionRule(ms[0], time);
  }

  /** And if none closes, all are answered and the connection stays open. */
  lemma PipelineStaysOpen(s: Session, ms: seq<Message>, time: int)
    requires Between(s) && ms != [] && AllWellFormed(ms) && s.pending == PrintAll(ms)
    requires forall i :: 0 <= i < |ms| ==> StaysOpen(ms[i])
    ensures Serve(s, Deciding(PLAIN), time) == s.(pending := "", log := s.log + Answers(ms, time))
  {
    forall i | 0 <= i < |ms| ensures Deciding(PLAIN)(Untimed(Expected(ms[i], 0))).Keep? {
      ConnectionRule(ms[i], 0);
    }
    PipelineRoundTrip(s, ms, Deciding(PLAIN), time);
  }

  // ---------- holding a request ----------

  /** The shortest request there is. */
  const PROBE := Message(Get, "/", None, Http11, [], "")

  lemma ProbeHead()
    ensures FirstLine(PROBE) == "GET / HTTP/1.1"
    ensures AllHeaders(PROBE) == [Header("Content-Length", "0")]
    ensures Target(PROBE) == "/"
  {
  }

  lemma ProbeSize()
    ensures HeadSize(PROBE) < 100
  {
    ProbeHead();
    hide FirstLine, AllHeaders;
    assert AllHeaders(PROBE)[1..] == [];
    assert HeaderText([]) == "";
  }

  lemma ProbeIsPlain()
    ensures Multipart(Plain(PROBE, 0)) == (true, Plain(PROBE, 0))
  {
    hide Find, LowerChar;
    ProbeHead();
    HeaderTableLookup(map[], AllHeaders(PROBE), "Content-Type");
    OtherName();
    NoOther();
    FindMeans("", "multipart/form-data", 0);
  }

  lemma OtherName()
    ensures Lower("Content-Length") != Lower("Content-Type")
  {
    assert |Lower("Content-Length")| == 14 && |Lower("Content-Type")| == 12;
  }

  lemma NoOther()
    requires Lower("Content-Length") != Lower("Content-Type")
    ensures LastValue("", [Header("Content-Length", "0")], "Content-Type") == ""
  {
    hide Lower;
    assert [Header("Content-Length", "0")][..0] == [];
  }

  lemma ProbeIsWellFormed()
    ensures WellFormed(PROBE)
  {
    ProbeHead();
    ProbeSize();
    ProbeIsPlain();
    hide Multipart, Plain, AllHeaders, HeadSize, FirstLine, Target;
    OneLineWithoutFeed("GET / HTTP/1.1");
  }

  /** A handler that holds everything, and two copies of that request: two reads, two answers; one
      read, one answer. */
  lemma HoldingDependsOnTheCut() returns (cuts: seq<Read>)
    ensures WellCut(cuts)
    ensures |Run(cuts, _ => Hold).log| == 2 && |Deliver(Fresh, Bytes(cuts), _ => Hold, 0).log| == 1
    ensures !FragmentationIndependent(_ => Hold)
  {
    ProbeIsWellFormed();
    RequestRoundTrip(PROBE, "", 0);
    cuts := HoldIsVisible(Print(PROBE) + "", 0, _ => Hold);
    FragmentationIndependence(_ => Hold);
  }
}
