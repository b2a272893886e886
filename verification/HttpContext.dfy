/** The parser object: a request under construction and the state of the machine that fills it
    (src/http/HttpContext.h, HttpContext.cc). */
module HttpContexts {
  import opened Text
  import opened Numerals
  import opened Buffers
  import opened HttpRequests
  import opened HttpParsing

  class HttpContext {
    var phase: Phase
    const request: HttpRequest
    var headerBytes: nat
    var contentLength: nat

    function Value(): Context
      reads this, request
    {
      Context(phase, request.Value(), headerBytes, contentLength)
    }

    constructor ()
      ensures Value() == Initial && fresh(request)
    {
      phase, headerBytes, contentLength := ExpectRequestLine, 0, 0;
      request := new HttpRequest();
    }

    method Reset()
      modifies this, request
      ensures Value() == Initial
    {
      phase, headerBytes, contentLength := ExpectRequestLine, 0, 0;
      var dummy := new HttpRequest();
      request.Swap(dummy);
    }

    method ProcessRequestLine(line: string) returns (ok: bool)
      modifies request
      ensures (ok, request.Value()) == RequestLine(old(request.Value()), line)
    {
      hide Find;
      var space := Find(line, " ", 0);
      if space.None? {
        return false;
      }
      var known := request.SetMethod(line[..space.value]);
      if !known {
        return false;
      }
      var target := line[space.value + 1..];
      var second := Find(target, " ", 0);
      if second.None? {
        return false;
      }
      var path := target[..second.value];
      var question := Find(path, "?", 0);
      request.SetPath(if question.None? then path else path[..question.value]);
      if question.Some? {
        request.SetQuery(path[question.value + 1..]);
      }
      var version := target[second.value + 1..];
      if |version| != 8 || version[..7] != "HTTP/1." {
        return false;
      }
      assert version == version[..7] + [version[7]];
      if version[7] == '1' {
        request.SetVersion(Http11);
      } else if version[7] == '0' {
        request.SetVersion(Http10);
      } else {
        return false;
      }
      ok := true;
    }

    /** Stores the declared body length; fails when the header value is not a number. */
    method PrepareBody() returns (ok: bool)
      modifies this`contentLength
      ensures ok <==> BodyLength(request.headers).Some?
      ensures contentLength == if ok then BodyLength(request.headers).value else old(contentLength)
    {
      var value := request.GetHeader("Content-Length");
      if value == "" {
        contentLength := 0;
        return true;
      }
      var parsed := Strtoull(value);
      if parsed.None? {
        return false;
      }
      contentLength := parsed.value;
      ok := true;
    }

    /** The header lines of one part. */
    method PartHeaderLines(body: string, partStart: nat, headerEnd: nat) returns (h: Option<PartHeaders>)
      requires headerEnd <= |body|
      ensures h == HeaderLines(body, partStart, headerEnd, PartHeaders("", ""))
    {
      hide WithPartHeader, LineEnd, Strip, Find;
      var found := PartHeaders("", "");
      var lineStart := partStart;
      while lineStart < headerEnd
        invariant HeaderLines(body, lineStart, headerEnd, found)
               == HeaderLines(body, partStart, headerEnd, PartHeaders("", ""))
        decreases headerEnd - lineStart
      {
        var lineEnd := LineEnd(body, lineStart, headerEnd);
        var line := body[lineStart..lineEnd];
        var colon := Find(line, ":", 0);
        if colon.None? {
          return None;
        }
        found := WithPartHeader(found, Lower(line[..colon.value]), Strip(line[colon.value + 1..], IsBlank));
        lineStart := lineEnd + 2;
      }
      h := Some(found);
    }

    /** Reads the part behind the boundary found from `cursor` on. */
    method ReadPart(body: string, boundary: string, cursor: nat) returns (turn: PartTurn)
      ensures turn == NextPart(body, boundary, cursor)
    {
      hide PartAt, Find;
      var marker := Find(body, boundary, cursor);
      if marker.None? {
        return Malformed;
      }
      var partStart := marker.value + |boundary|;
      if OccursAt(body, "--", partStart) {
        return Closed;
      }
      if !OccursAt(body, CRLF, partStart) {
        return Malformed;
      }
      turn := ReadPartAt(body, boundary, partStart + 2);
    }

    method ReadPartAt(body: string, boundary: string, partStart: nat) returns (turn: PartTurn)
      ensures turn == PartAt(body, boundary, partStart)
    {
      hide HeaderLines, GoodDisposition, Find;
      var headerEnd := Find(body, HEADER_END, partStart);
      if headerEnd.None? {
        return Malformed;
      }
      var contentStart := headerEnd.value + 4;
      var nextMarker := Find(body, CRLF + boundary, contentStart);
      if nextMarker.None? {
        return Malformed;
      }
      var h := PartHeaderLines(body, partStart, headerEnd.value);
      if h.None? || !GoodDisposition(h.value) {
        return Malformed;
      }
      turn := Part(h.value, body[contentStart..nextMarker.value], nextMarker.value + 2);
    }

    /** Files the part under the form fields or the uploaded files of the request. */
    method StorePart(h: PartHeaders, content: string)
      modifies request
      ensures request.Value() == WithPart(old(request.Value()), h, content)
    {
      var fieldName := ParameterValue(h.disposition, "name");
      var fileName := ParameterValue(h.disposition, "filename");
      if fileName == "" {
        request.AddBodyForm(fieldName, content);
      } else {
        request.AddFile(UploadedFile(fieldName, fileName, h.contentType, content));
      }
    }

    method ParseMultipartBody() returns (ok: bool)
      modifies request
      ensures (ok, request.Value()) == Multipart(old(request.Value()))
    {
      var contentType := request.GetHeader("Content-Type");
      if !Contains(contentType, "multipart/form-data") {
        return true;
      }
      var boundaryValue := ParameterValue(contentType, "boundary");
      if boundaryValue == "" {
        return false;
      }
      var boundary := "--" + boundaryValue;
      var body := request.body;
      var cursor := 0;
      while true
        invariant cursor <= |body|
        invariant Parts(body, boundary, cursor, request.Value()) == Multipart(old(request.Value()))
        decreases |body| - cursor
      {
        var turn := ReadPart(body, boundary, cursor);
        match turn {
          case Closed => return true;
          case Malformed => return false;
          case Part(h, content, next) =>
            StorePart(h, content);
            cursor := next;
        }
      }
    }

    /** Consumes one complete line; a result means that parsing stops here. */
    method ParseLine(buf: Buffer, crlf: nat, receiveTime: int) returns (result: Option<ParseResult>)
      requires buf.Valid() && crlf + 2 <= buf.ReadableBytes()
      requires phase == ExpectRequestLine || phase == ExpectHeaders
      modifies this, request, buf
      ensures buf.Valid() && buf.data == old(buf.data)
      ensures TakeLine(old(Value()), old(buf.Readable())[..crlf], old(buf.Readable()), receiveTime)
           == if result.None? then Go(Value(), buf.Readable())
              else Stop(Outcome(result.value, Value(), buf.Readable()))
    {
      hide RequestLine, WithHeader, BodyLength, Find;
      var line := buf.Readable()[..crlf];
      headerBytes := headerBytes + |line| + 2;
      if headerBytes > MAX_HEADER_BYTES {
        return Some(RequestTooLarge);
      }
      if phase == ExpectRequestLine {
        var ok := ProcessRequestLine(line);
        if !ok {
          return Some(BadRequest);
        }
        request.SetReceiveTime(receiveTime);
        phase := ExpectHeaders;
      } else {
        var refused := ParseHeaderLine(line);
        if refused.Some? {
          return refused;
        }
      }
      buf.RetrieveUntil(crlf + 2);
      result := None;
    }

    /** A header, or the empty line that ends them. */
    method ParseHeaderLine(line: string) returns (refused: Option<ParseResult>)
      modifies this`contentLength, this`phase, request
      ensures var c, length, colon := old(Value()), BodyLength(old(Value()).request.headers), Find(line, ":", 0);
              if colon.Some? then
                refused.None? && Value() == c.(request := c.request.(
                  headers := WithHeader(c.request.headers, line[..colon.value], line[colon.value + 1..])))
              else if line != "" || length.None? then refused == Some(BadRequest) && Value() == c
              else if length.value > MAX_BODY_BYTES then
                refused == Some(RequestTooLarge) && Value() == c.(contentLength := length.value)
              else refused.None? && Value() == c.(contentLength := length.value, phase := ExpectBody)
    {
      hide WithHeader, BodyLength, Find;
      refused := None;
      var colon := Find(line, ":", 0);
      if colon.Some? {
        request.AddHeader(line, colon.value);
        return;
      }
      if line != "" {
        return Some(BadRequest);
      }
      var ok := PrepareBody();
      if !ok {
        return Some(BadRequest);
      }
      if contentLength > MAX_BODY_BYTES {
        return Some(RequestTooLarge);
      }
      phase := ExpectBody;
    }

    /** Takes the body once all of it has arrived. */
    method ParseBody(buf: Buffer) returns (result: ParseResult)
      requires buf.Valid() && phase == ExpectBody
      modifies this, request, buf
      ensures buf.Valid() && buf.data == old(buf.data)
      ensures Outcome(result, Value(), buf.Readable()) == TakeBody(old(Value()), old(buf.Readable()))
    {
      ghost var input := buf.Readable();
      if buf.ReadableBytes() < contentLength {
        return Incomplete;
      }
      var body := buf.RetrieveAsString(contentLength);
      assert body == input[..contentLength] && buf.Readable() == input[contentLength..];
      request.SetBody(body);
      var ok := ParseMultipartBody();
      if !ok {
        return BadRequest;
      }
      phase := GotAll;
      result := Complete;
    }

    /** Consumes what the buffer holds of the current request. */
    method ParseRequest(buf: Buffer, receiveTime: int) returns (result: ParseResult)
      requires buf.Valid()
      modifies this, request, buf
      ensures buf.Valid() && buf.data == old(buf.data)
      ensures Outcome(result, Value(), buf.Readable())
           == Parse(old(Value()), old(buf.Readable()), receiveTime)
    {
      hide TakeLine, TakeBody, Find;
      while true
        invariant buf.Valid() && buf.data == old(buf.data)
        invariant Parse(Value(), buf.Readable(), receiveTime)
               == Parse(old(Value()), old(buf.Readable()), receiveTime)
        decreases buf.ReadableBytes()
      {
        if phase == ExpectRequestLine || phase == ExpectHeaders {
          var crlf := buf.FindCRLF();
          if crlf.None? {
            return if headerBytes + buf.ReadableBytes() > MAX_HEADER_BYTES then RequestTooLarge else Incomplete;
          }
          var stop := ParseLine(buf, crlf.value, receiveTime);
          if stop.Some? {
            return stop.value;
          }
        } else if phase == ExpectBody {
          result := ParseBody(buf);
          return;
        } else {
          return Complete;
        }
      }
    }
  }
}
