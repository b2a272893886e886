/** What one call of the incremental parser makes of a context and the buffered bytes
    (src/http/HttpContext.cc). The functions here are the specification the `HttpContext` class
    is proved against; the laws about them are in HttpLocality.dfy, HttpPrinting.dfy and
    Multipart.dfy. */
module HttpParsing {
  import opened Text
  import opened Numerals
  import opened HttpRequests

  const MAX_HEADER_BYTES: nat := 16 * 1024
  const MAX_BODY_BYTES: nat := 10 * 1024 * 1024
  const HEADER_END := "\r\n\r\n"

  datatype Phase = ExpectRequestLine | ExpectHeaders | ExpectBody | GotAll
  datatype ParseResult = Incomplete | Complete | BadRequest | RequestTooLarge

  /** The fields of an `HttpContext`. */
  datatype Context = Context(phase: Phase, request: Request, headerBytes: nat, contentLength: nat)

  const Initial := Context(ExpectRequestLine, Blank, 0, 0)

  /** The verdict of a call, the context it leaves, and the bytes it leaves in the buffer. */
  datatype Outcome = Outcome(result: ParseResult, context: Context, rest: string)

  // ---------- multipart/form-data ----------

  /** The parameter `name` of a header value, quoted or bare; "" when absent or unterminated. */
  function ParameterValue(value: string, name: string): string {
    match Find(value, name + "=", 0)
    case None => ""
    case Some(k) =>
      var pos := k + |name| + 1;
      if pos < |value| && value[pos] == '"' then
        match Find(value, "\"", pos + 1)
        case None => ""
        case Some(end) => value[pos + 1..end]
      else
        match Find(value, ";", pos)
        case None => Strip(value[pos..], IsBlank)
        case Some(end) => Strip(value[pos..end], IsBlank)
  }

  datatype PartHeaders = PartHeaders(disposition: string, contentType: string)

  function WithPartHeader(h: PartHeaders, key: string, value: string): PartHeaders {
    if key == "content-disposition" then h.(disposition := value)
    else if key == "content-type" then h.(contentType := value)
    else h
  }

  /** Where the header line that starts at `lineStart` ends. */
  function LineEnd(body: string, lineStart: nat, headerEnd: nat): (end: nat)
    requires lineStart <= headerEnd
    ensures lineStart <= end <= headerEnd
  {
    var found := Find(body, CRLF, lineStart);
    if found.None? || found.value > headerEnd then headerEnd else found.value
  }

  /** The headers of one part; `None` when a line has no colon. */
  function HeaderLines(body: string, lineStart: nat, headerEnd: nat, h: PartHeaders): Option<PartHeaders>
    requires headerEnd <= |body|
    decreases headerEnd - lineStart
  {
    if lineStart >= headerEnd then Some(h)
    else
      var lineEnd := LineEnd(body, lineStart, headerEnd);
      var line := body[lineStart..lineEnd];
      match Find(line, ":", 0)
      case None => None
      case Some(colon) =>
        HeaderLines(body, lineEnd + 2, headerEnd,
                    WithPartHeader(h, Lower(line[..colon]), Strip(line[colon + 1..], IsBlank)))
  }

  /** A part with a file name is a file, any other part a form field. */
  function WithPart(r: Request, h: PartHeaders, content: string): Request {
    var field := ParameterValue(h.disposition, "name");
    var file := ParameterValue(h.disposition, "filename");
    if file == "" then r.(bodyForm := r.bodyForm[field := content])
    else r.(files := r.files + [UploadedFile(field, file, h.contentType, content)])
  }

  predicate GoodDisposition(h: PartHeaders) {
    Contains(h.disposition, "form-data") && ParameterValue(h.disposition, "name") != ""
  }

  /** One turn of the multipart loop: the closing boundary, a fault, or a part. */
  datatype PartTurn = Closed | Malformed | Part(headers: PartHeaders, content: string, cursor: nat)

  /** The part whose headers start at `start`: they end at a blank line, the content at the next
      boundary. */
  function PartAt(body: string, boundary: string, start: nat): (t: PartTurn)
    ensures !t.Closed? && (t.Part? ==> start < t.cursor <= |body|)
  {
    var headerEnd := Find(body, HEADER_END, start);
    if headerEnd.None? then Malformed
    else
      var contentStart := headerEnd.value + 4;
      var next := Find(body, CRLF + boundary, contentStart);
      if next.None? then Malformed
      else
        var h := HeaderLines(body, start, headerEnd.value, PartHeaders("", ""));
        if h.None? || !GoodDisposition(h.value) then Malformed
        else Part(h.value, body[contentStart..next.value], next.value + 2)
  }

  function NextPart(body: string, boundary: string, cursor: nat): (t: PartTurn)
    ensures t.Part? ==> cursor < t.cursor <= |body|
  {
    var marker := Find(body, boundary, cursor);
    if marker.None? then Malformed
    else
      var partStart := marker.value + |boundary|;
      if OccursAt(body, "--", partStart) then Closed
      else if !OccursAt(body, CRLF, partStart) then Malformed
      else PartAt(body, boundary, partStart + 2)
  }

  /** The parts from `cursor` on are added to `r`; false when the body is malformed, in which case
      the parts before the fault have been added. */
  function Parts(body: string, boundary: string, cursor: nat, r: Request): (bool, Request)
    requires cursor <= |body|
    decreases |body| - cursor
  {
    match NextPart(body, boundary, cursor)
    case Closed => (true, r)
    case Malformed => (false, r)
    case Part(h, content, next) => Parts(body, boundary, next, WithPart(r, h, content))
  }

  /** Any body that is not declared multipart is accepted as it stands. */
  function Multipart(r: Request): (bool, Request) {
    var contentType := HeaderValue(r.headers, "Content-Type");
    if !Contains(contentType, "multipart/form-data") then (true, r)
    else
      var boundary := ParameterValue(contentType, "boundary");
      if boundary == "" then (false, r) else Parts(r.body, "--" + boundary, 0, r)
  }

  // ---------- request line, headers, body ----------

  /** METHOD SP path[?query] SP HTTP/1.0|1.1; false leaves the fields set before the fault. */
  function RequestLine(r: Request, line: string): (bool, Request) {
    var space := Find(line, " ", 0);
    if space.None? then (false, r)
    else
      var r1 := r.(verb := MethodOf(line[..space.value]));
      if r1.verb.Invalid? then (false, r1)
      else
        var target := line[space.value + 1..];
        var second := Find(target, " ", 0);
        if second.None? then (false, r1)
        else
          var r2 := WithTarget(r1, target[..second.value]);
          var version := target[second.value + 1..];
          if version == "HTTP/1.1" then (true, r2.(version := Http11))
          else if version == "HTTP/1.0" then (true, r2.(version := Http10))
          else (false, r2)
  }

  function WithTarget(r: Request, target: string): Request {
    var question := Find(target, "?", 0);
    if question.None? then r.(path := target)
    else r.(path := target[..question.value], query := target[question.value + 1..])
  }

  /** The declared length of the body: absent or empty means none. */
  function BodyLength(headers: map<string, string>): Option<nat> {
    var value := HeaderValue(headers, "Content-Length");
    if value == "" then Some(0) else Strtoull(value)
  }

  /** Exactly which declared lengths let a body through: none at all, a number up to the limit behind
      optional white space and plus sign, or a minus sign in front of zero or of a number so close
      to 2^64 that it wraps around to one within the limit. */
  lemma LengthWithinLimit(headers: map<string, string>)
    ensures var value, length := HeaderValue(headers, "Content-Length"), BodyLength(headers);
            length.Some? && length.value <= MAX_BODY_BYTES <==>
            || value == ""
            || exists blanks, sign, digits ::
                 && Spelled(value, blanks, sign, digits)
                 && if sign == "-" then NatOf(digits) == 0 || TWO_64 - MAX_BODY_BYTES <= NatOf(digits) < TWO_64
                    else NatOf(digits) <= MAX_BODY_BYTES
  {
    AcceptedUpTo(HeaderValue(headers, "Content-Length"), MAX_BODY_BYTES);
  }

  /** The failing family is not empty: this negative length asks for a body of one byte. */
  lemma NegativeLength(headers: map<string, string>)
    requires HeaderValue(headers, "Content-Length") == WRAPPING
    ensures BodyLength(headers) == Some(1)
  {
    MinusWraps();
  }

  /** One turn of the parser's loop: `Stop` returns to the caller, `Go` consumes a line. */
  datatype Turn = Stop(outcome: Outcome) | Go(context: Context, rest: string)

  function TakeLine(c: Context, line: string, input: string, time: int): (t: Turn)
    requires |line| + 2 <= |input| && (c.phase.ExpectRequestLine? || c.phase.ExpectHeaders?)
    ensures t.Go? ==> t.rest == input[|line| + 2..]
  {
    var c1 := c.(headerBytes := c.headerBytes + |line| + 2);
    if c1.headerBytes > MAX_HEADER_BYTES then Stop(Outcome(RequestTooLarge, c1, input))
    else if c.phase.ExpectRequestLine? then
      var (ok, r) := RequestLine(c.request, line);
      if !ok then Stop(Outcome(BadRequest, c1.(request := r), input))
      else Go(c1.(request := r.(receiveTime := time), phase := ExpectHeaders), input[|line| + 2..])
    else
      var colon := Find(line, ":", 0);
      if colon.Some? then
        Go(c1.(request := c.request.(
                 headers := WithHeader(c.request.headers, line[..colon.value], line[colon.value + 1..]))),
           input[|line| + 2..])
      else if line != "" then Stop(Outcome(BadRequest, c1, input))
      else
        var length := BodyLength(c.request.headers);
        if length.None? then Stop(Outcome(BadRequest, c1, input))
        else
          var c2 := c1.(contentLength := length.value);
          if length.value > MAX_BODY_BYTES then Stop(Outcome(RequestTooLarge, c2, input))
          else Go(c2.(phase := ExpectBody), input[|line| + 2..])
  }

  function TakeBody(c: Context, input: string): Outcome {
    if |input| < c.contentLength then Outcome(Incomplete, c, input)
    else
      var (ok, r) := Multipart(c.request.(body := input[..c.contentLength]));
      if ok then Outcome(Complete, c.(request := r, phase := GotAll), input[c.contentLength..])
      else Outcome(BadRequest, c.(request := r), input[c.contentLength..])
  }

  function Step(c: Context, input: string, time: int): (t: Turn)
    ensures t.Go? ==> |t.rest| < |input|
  {
    match c.phase
    case ExpectBody => Stop(TakeBody(c, input))
    case GotAll => Stop(Outcome(Complete, c, input))
    case _ =>
      match Find(input, CRLF, 0)
      case None =>
        Stop(Outcome(if c.headerBytes + |input| > MAX_HEADER_BYTES then RequestTooLarge else Incomplete, c, input))
      case Some(n) => TakeLine(c, input[..n], input, time)
  }

  /** A call of `parseRequest` at clock value `time`. */
  function Parse(c: Context, input: string, time: int): Outcome
    decreases |input|
  {
    match Step(c, input, time)
    case Stop(outcome) => outcome
    case Go(c', rest) => Parse(c', rest, time)
  }
}
