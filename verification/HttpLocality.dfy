/** How the parser sees the stream: it looks at a prefix, never past it, and never remembers the
    clock. These are the laws that make it resumable. */
module HttpLocality {
  import opened Text
  import opened HttpRequests
  import opened HttpParsing

  // ---------- the clock ----------

  /** A request as handlers decide on it: without the time it arrived. */
  function Untimed(r: Request): Request {
    r.(receiveTime := 0)
  }

  function UntimedContext(c: Context): Context {
    c.(request := Untimed(c.request))
  }

  function UntimedOutcome(o: Outcome): Outcome {
    o.(context := UntimedContext(o.context))
  }

  lemma {:induction false} PartsUntimed(body: string, boundary: string, cursor: nat, r: Request)
    requires cursor <= |body|
    ensures Parts(body, boundary, cursor, Untimed(r))
         == (Parts(body, boundary, cursor, r).0, Untimed(Parts(body, boundary, cursor, r).1))
    decreases |body| - cursor
  {
    match NextPart(body, boundary, cursor) {
      case Part(h, content, next) =>
        PartsUntimed(body, boundary, next, WithPart(r, h, content));
        assert WithPart(Untimed(r), h, content) == Untimed(WithPart(r, h, content));
      case _ =>
    }
  }

  lemma MultipartUntimed(r: Request)
    ensures Multipart(Untimed(r)) == (Multipart(r).0, Untimed(Multipart(r).1))
  {
    var boundary := ParameterValue(HeaderValue(r.headers, "Content-Type"), "boundary");
    PartsUntimed(r.body, "--" + boundary, 0, r);
  }

  function UntimedTurn(t: Turn): Turn {
    match t
    case Stop(o) => Stop(UntimedOutcome(o))
    case Go(c, rest) => Go(UntimedContext(c), rest)
  }

  lemma StepUntimed(c: Context, input: string, time: int, time': int)
    ensures UntimedTurn(Step(c, input, time)) == UntimedTurn(Step(UntimedContext(c), input, time'))
  {
    hide RequestLine, WithHeader, BodyLength, Multipart, Find;
    match c.phase {
      case ExpectBody =>
        if c.contentLength <= |input| {
          var r := c.request.(body := input[..c.contentLength]);
          MultipartUntimed(r);
          assert Untimed(r) == Untimed(c.request).(body := input[..c.contentLength]);
        }
      case ExpectRequestLine =>
        var crlf := Find(input, CRLF, 0);
        if crlf.Some? {
          RequestLineUntimed(c.request, input[..crlf.value]);
        }
      case _ =>
    }
  }

  lemma RequestLineUntimed(r: Request, line: string)
    ensures RequestLine(Untimed(r), line) == (RequestLine(r, line).0, Untimed(RequestLine(r, line).1))
  {
  }

  /** Clock values reach nothing but the receive time of the request. */
  lemma {:induction false} ParseUntimed(c: Context, c': Context, input: string, time: int, time': int)
    requires UntimedContext(c) == UntimedContext(c')
    ensures UntimedOutcome(Parse(c, input, time)) == UntimedOutcome(Parse(c', input, time'))
    decreases |input|
  {
    StepUntimed(c, input, time, 0);
    StepUntimed(c', input, time', 0);
    var t, t' := Step(c, input, time), Step(c', input, time');
    if t.Go? {
      ParseUntimed(t.context, t'.context, t.rest, time, time');
    }
  }

  // ---------- more bytes ----------

  /** Equal up to the header count, which an oversized header leaves undefined. */
  predicate SameRefusal(o: Outcome, o': Outcome) {
    o.result == o'.result == RequestTooLarge && o.rest == o'.rest
  }

  lemma StepMore(c: Context, input: string, more: string, time: int)
    ensures var t, w := Step(c, input, time), Step(c, input + more, time);
            match t
            case Go(c', rest) => w == Go(c', rest + more)
            case Stop(o) =>
              match o.result
              case Incomplete => o == Outcome(Incomplete, c, input)
              case RequestTooLarge => w.Stop? && SameRefusal(o.(rest := o.rest + more), w.outcome)
              case _ => w == Stop(o.(rest := o.rest + more))
  {
    hide RequestLine, WithHeader, BodyLength, Multipart, Find;
    match c.phase {
      case ExpectBody =>
        if c.contentLength <= |input| {
          assert (input + more)[..c.contentLength] == input[..c.contentLength];
          assert (input + more)[c.contentLength..] == input[c.contentLength..] + more;
        }
      case GotAll =>
      case _ =>
        var crlf := Find(input, CRLF, 0);
        if crlf.Some? {
          var n := crlf.value;
          FindExtends(input, more, CRLF);
          assert (input + more)[..n] == input[..n];
          assert (input + more)[n + 2..] == input[n + 2..] + more;
        } else {
          var later := Find(input + more, CRLF, 0);
          if later.Some? && later.value + 2 <= |input| {
            FindCut(input, more, CRLF);
          }
        }
    }
  }

  /** Resumption: what a call does with `input + more` is what it does with `input`, carried on
      with `more` behind whatever was left over. */
  lemma {:induction false} ParseMore(c: Context, input: string, more: string, time: int)
    ensures var o, w := Parse(c, input, time), Parse(c, input + more, time);
            match o.result
            case Incomplete => w == Parse(o.context, o.rest + more, time)
            case RequestTooLarge => SameRefusal(o.(rest := o.rest + more), w)
            case _ => w == o.(rest := o.rest + more)
    decreases |input|
  {
    StepMore(c, input, more, time);
    var t := Step(c, input, time);
    if t.Go? {
      ParseMore(t.context, t.rest, more, time);
    }
  }

  // ---------- fewer bytes ----------

  lemma StepExact(c: Context, input: string, time: int, n: nat)
    requires n <= |input|
    requires match Step(c, input, time)
             case Go(_, rest) => |rest| >= |input| - n
             case Stop(o) => o.result.Complete? && |o.rest| >= |input| - n
    ensures match Step(c, input, time)
            case Go(c', rest) => rest == input[|input| - |rest|..]
                                 && Step(c, input[..n], time) == Go(c', rest[..n - (|input| - |rest|)])
            case Stop(o) => o.rest == input[|input| - |o.rest|..]
                            && Step(c, input[..n], time) == Stop(o.(rest := o.rest[..n - (|input| - |o.rest|)]))
  {
    hide RequestLine, WithHeader, BodyLength, Multipart, Find;
    var used := input[..n];
    assert input == used + input[n..];
    match c.phase {
      case ExpectBody =>
        assert used[..c.contentLength] == input[..c.contentLength];
        assert used[c.contentLength..] == input[c.contentLength..][..n - c.contentLength];
      case GotAll =>
      case _ =>
        var k := Find(input, CRLF, 0).value;
        FindCut(used, input[n..], CRLF);
        assert used[..k] == input[..k];
        assert used[k + 2..] == input[k + 2..][..n - k - 2];
    }
  }

  /** A complete request is decided by exactly the bytes it consumes: the same call on those alone
      returns the same and leaves nothing. */
  lemma {:induction false} ParseExact(c: Context, input: string, time: int) returns (used: nat)
    requires Parse(c, input, time).result.Complete?
    ensures used <= |input| && Parse(c, input, time).rest == input[used..]
    ensures Parse(c, input[..used], time) == Parse(c, input, time).(rest := "")
    decreases |input|
  {
    var t := Step(c, input, time);
    match t {
      case Go(c', rest) =>
        var n := ParseExact(c', rest, time);
        used := |input| - |rest| + n;
        StepExact(c, input, time, used);
      case Stop(o) =>
        used := |input| - |o.rest|;
        StepExact(c, input, time, used);
    }
  }

  /** A context that waits for its first line consumes something to complete. */
  lemma ParseConsumes(input: string, time: int)
    requires Parse(Initial, input, time).result.Complete?
    ensures |Parse(Initial, input, time).rest| < |input|
  {
    var used := ParseExact(Initial, input, time);
    assert input[..0] == "";
    assert Step(Initial, "", time) == Stop(Outcome(Incomplete, Initial, ""));
  }

  // ---------- limits ----------

  ghost predicate WithinLimits(c: Context) {
    && c.headerBytes <= MAX_HEADER_BYTES
    && (c.phase.ExpectBody? ==> c.contentLength <= MAX_BODY_BYTES)
  }

  /** While the parser asks for more, what it has not consumed fits the limits: the header read so
      far with the unfinished line, or an unfinished body of an acceptable declared length. */
  lemma {:induction false} IncompleteIsBounded(c: Context, input: string, time: int)
    requires WithinLimits(c)
    requires Parse(c, input, time).result.Incomplete?
    ensures var o := Parse(c, input, time);
            && WithinLimits(o.context)
            && (o.context.phase.ExpectRequestLine? || o.context.phase.ExpectHeaders? ==>
                  o.context.headerBytes + |o.rest| <= MAX_HEADER_BYTES)
            && (o.context.phase.ExpectBody? ==> |o.rest| < o.context.contentLength <= MAX_BODY_BYTES)
            && !o.context.phase.GotAll?
    decreases |input|
  {
    var t := Step(c, input, time);
    if t.Go? {
      IncompleteIsBounded(t.context, t.rest, time);
    }
  }
}
