/** The server's message loop over a connection's input (src/http/HttpServer.cc): every complete
    request in the buffer is answered in order until one of the answers ends the parsing. */
module HttpServers {
  import opened Text
  import opened Buffers
  import opened HttpRequests
  import opened HttpParsing
  import opened HttpContexts
  import opened HttpLocality

  /** What a handler does with a request: respond and go on, respond and shut down, accept it for
      later and stop reading, or accept it for later with reading left on. */
  datatype Answer = Keep | Close | Park | Hold

  /** The callbacks of the server. `take` is the asynchronous one: `None` when it declines,
      otherwise whether it has turned reading off. `respond` is the synchronous one: given the
      request and whether the response starts out closing the connection, whether it ends that way. */
  datatype Handlers = Handlers(take: Request -> Option<bool>, respond: (Request, bool) -> bool)

  /** The rule a response starts out with. The header value is compared as it stands, and HTTP/1.0
      keeps a connection only on request. */
  predicate AsksToClose(r: Request) {
    var connection := HeaderValue(r.headers, "Connection");
    connection == "close" || (r.version.Http10? && connection != "Keep-Alive")
  }

  function Decide(h: Handlers, r: Request): Answer {
    var taken := h.take(r);
    if taken.Some? then (if taken.value then Park else Hold)
    else if h.respond(r, AsksToClose(r)) then Close
    else Keep
  }

  /** The server's answers as a function of the request. */
  function Deciding(h: Handlers): Request -> Answer {
    r => Decide(h, r)
  }

  /** Handlers that answer everything at once and leave the rule alone. */
  const PLAIN := Handlers(_ => None, (r, close) => close)

  datatype Event = Handled(request: Request) | Refused(status: nat)

  /** Everything a connection's input side amounts to between two reads: the parser context, the
      bytes buffered, the bytes the kernel holds because reading is off, and the answers so far. */
  datatype Session = Session(
    context: Context, pending: string, unread: string, connected: bool, reading: bool, log: seq<Event>)

  const Fresh := Session(Initial, "", "", true, true, [])

  /** `onRequest`: the handler sees the request, the log records it, the context starts over. */
  function Answered(s: Session, o: Outcome, answer: Answer): Session
  {
    s.(context := Initial, pending := o.rest, log := s.log + [Handled(o.context.request)],
       connected := !answer.Close?, reading := s.reading && !answer.Park?)
  }

  function RefusedWith(s: Session, o: Outcome, status: nat): Session {
    s.(context := o.context, pending := o.rest, connected := false, log := s.log + [Refused(status)])
  }

  /** One turn of the message loop on a connected session, and whether another one follows. */
  function ServeOne(s: Session, decide: Request -> Answer, time: int): (Session, bool) {
    var o := Parse(s.context, s.pending, time);
    match o.result
    case Incomplete => (s.(context := o.context, pending := o.rest), false)
    case BadRequest => (RefusedWith(s, o, 400), false)
    case RequestTooLarge => (RefusedWith(s, o, 413), false)
    case Complete =>
      var answer := decide(Untimed(o.context.request));
      (Answered(s, o, answer), answer.Keep? && o.rest != "")
  }

  /** One call of `onMessage`. */
  function Serve(s: Session, decide: Request -> Answer, time: int): Session
    decreases |s.pending|, if s.context.phase.ExpectRequestLine? then 0 else 1
  {
    if !s.connected then s
    else
      var (s', more) := ServeOne(s, decide, time);
      ServeShrinks(s, decide, time);
      if more then Serve(s', decide, time) else s'
  }

  lemma ServeShrinks(s: Session, decide: Request -> Answer, time: int)
    ensures var (s', more) := ServeOne(s, decide, time);
            more ==> s'.context == Initial && |s'.pending| <= |s.pending|
                     && (s.context.phase.ExpectRequestLine? ==> |s'.pending| < |s.pending|)
  {
    if Parse(s.context, s.pending, time).result.Complete? {
      var used := ParseExact(s.context, s.pending, time);
      assert s.pending[..0] == "";
      if s.context.phase.ExpectRequestLine? {
        assert Step(s.context, "", time).Stop? && !Step(s.context, "", time).outcome.result.Complete?;
      }
    }
  }

  /** A readable event that delivers `chunk`; with reading off the kernel keeps the bytes. */
  function Deliver(s: Session, chunk: string, decide: Request -> Answer, time: int): Session {
    if s.reading then Serve(s.(pending := s.pending + chunk), decide, time)
    else s.(unread := s.unread + chunk)
  }

  class HttpConnection {
    var context: HttpContext?
    const input: Buffer
    var connected: bool
    var reading: bool
    /** Requests handed to the handler and error responses sent, in order. */
    var log: seq<Event>
    ghost var unread: string

    ghost predicate Valid()
      reads this, input
    {
      input.Valid()
    }

    ghost function Value(): Session
      requires Valid()
      reads this, input, input.data, context, if context == null then {} else {context.request}
    {
      Session(if context == null then Initial else context.Value(), input.Readable(), unread, connected, reading, log)
    }

    constructor ()
      ensures Valid() && Value() == Fresh
      ensures fresh(input) && fresh(input.data)
    {
      context := null;
      input := new Buffer(INITIAL_SIZE);
      connected, reading, log, unread := true, true, [], "";
    }
  }

  class HttpServer {
    /** The handlers do not look at the clock. */
    const handlers: Handlers

    constructor (handlers: Handlers)
      ensures this.handlers == handlers
    {
      this.handlers := handlers;
    }

    method OnMessage(conn: HttpConnection, time: int)
      requires conn.Valid()
      modifies conn, conn.input, conn.context, if conn.context == null then {} else {conn.context.request}
      ensures conn.Valid() && conn.input.data == old(conn.input.data)
      ensures conn.Value() == Serve(old(conn.Value()), Deciding(handlers), time)
    {
      if conn.context == null {
        conn.context := new HttpContext();
      }
      var context: HttpContext := conn.context;
      assert conn.Value() == old(conn.Value());
      var more := true;
      while conn.connected && more
        invariant conn.Valid() && conn.context == context && conn.input.data == old(conn.input.data)
        invariant (fresh(context) && fresh(context.request)) || old(conn.context) == context
        invariant Serve(old(conn.Value()), Deciding(handlers), time)
               == if more then Serve(conn.Value(), Deciding(handlers), time) else conn.Value()
        decreases more, |conn.input.Readable()|, if context.phase.ExpectRequestLine? then 0 else 1
      {
        ServeShrinks(conn.Value(), Deciding(handlers), time);
        more := ServeNext(conn, context, time);
      }
    }

    /** Parses at most one request off the buffer and answers it; true when the loop goes on. */
    method ServeNext(conn: HttpConnection, context: HttpContext, time: int) returns (more: bool)
      requires conn.Valid() && conn.context == context && conn.connected
      modifies conn, conn.input, context, context.request
      ensures conn.Valid() && conn.context == context && conn.input.data == old(conn.input.data)
      ensures (conn.Value(), more) == ServeOne(old(conn.Value()), Deciding(handlers), time)
    {
      var result := context.ParseRequest(conn.input, time);
      match result {
        case Incomplete =>
          more := false;
        case BadRequest =>
          conn.log := conn.log + [Refused(400)];
          conn.connected := false;
          more := false;
        case RequestTooLarge =>
          conn.log := conn.log + [Refused(413)];
          conn.connected := false;
          more := false;
        case Complete =>
          var stop := OnRequest(conn, context.request);
          context.Reset();
          more := !stop && conn.input.ReadableBytes() != 0;
      }
    }

    /** True when no further request may be parsed now. */
    method OnRequest(conn: HttpConnection, request: HttpRequest) returns (stop: bool)
      modifies conn
      ensures conn.context == old(conn.context) && conn.unread == old(conn.unread)
      ensures conn.log == old(conn.log) + [Handled(request.Value())]
      ensures var answer := Decide(handlers, Untimed(request.Value()));
              && stop == !answer.Keep?
              && conn.connected == (old(conn.connected) && !answer.Close?)
              && conn.reading == (old(conn.reading) && !answer.Park?)
    {
      ghost var seen := Untimed(request.Value());
      conn.log := conn.log + [Handled(request.Value())];
      var taken := handlers.take(Untimed(request.Value()));
      if taken.Some? {
        if taken.value {
          conn.reading := false;
        }
        return true;
      }
      var connection := request.GetHeader("Connection");
      var close := connection == "close" || (request.version.Http10? && connection != "Keep-Alive");
      assert close == AsksToClose(seen);
      stop := handlers.respond(Untimed(request.Value()), close);
      if stop {
        conn.connected := false;
      }
    }

    /** A readable event on the connection's socket that yields `chunk`. */
    method HandleRead(conn: HttpConnection, chunk: string, time: int)
      requires conn.Valid() && 0 < |chunk|
      requires conn.reading ==> |chunk| <= conn.input.ReadLimit()
      modifies conn, conn.input, conn.input.data, conn.context,
               if conn.context == null then {} else {conn.context.request}
      ensures conn.Valid()
      ensures conn.Value() == Deliver(old(conn.Value()), chunk, Deciding(handlers), time)
    {
      if !conn.reading {
        conn.unread := conn.unread + chunk;
        return;
      }
      var n := conn.input.ReadFd(Some(chunk));
      assert conn.Value() == old(conn.Value()).(pending := old(conn.Value()).pending + chunk);
      OnMessage(conn, time);
    }
  }
}
