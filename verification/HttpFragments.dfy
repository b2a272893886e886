/** However the network cuts the stream, the server answers the same requests the same way. */
module HttpFragments {
  import opened HttpRequests
  import opened HttpParsing
  import opened HttpLocality
  import opened HttpServers

  /** One read from the socket: never empty, an empty read closes the connection instead. */
  datatype Read = Read(bytes: string, time: int)

  ghost predicate WellCut(cuts: seq<Read>) {
    cuts != [] && forall i :: 0 <= i < |cuts| ==> cuts[i].bytes != ""
  }

  function Bytes(cuts: seq<Read>): string {
    if cuts == [] then "" else Bytes(cuts[..|cuts| - 1]) + cuts[|cuts| - 1].bytes
  }

  /** The session after a list of reads. */
  function Run(cuts: seq<Read>, decide: Request -> Answer): Session {
    if cuts == [] then Fresh
    else
      var last := cuts[|cuts| - 1];
      Deliver(Run(cuts[..|cuts| - 1], decide), last.bytes, decide, last.time)
  }

  // ---------- what can be seen of a session ----------

  function UntimedEvent(e: Event): Event {
    match e
    case Handled(r) => Handled(Untimed(r))
    case Refused(_) => e
  }

  function UntimedLog(log: seq<Event>): seq<Event> {
    seq(|log|, i requires 0 <= i < |log| => UntimedEvent(log[i]))
  }

  /** The requests handled and the refusals sent in order, whether the connection is still open
      and being read, the input not yet consumed, and while it is open the parser's state;
      receive times excepted. */
  datatype View = View(context: Context, input: string, connected: bool, reading: bool, log: seq<Event>)

  function Sight(s: Session): View {
    View(if s.connected then UntimedContext(s.context) else Initial,
         s.pending + s.unread, s.connected, s.reading, UntimedLog(s.log))
  }

  ghost predicate Alike(s: Session, s': Session) {
    Sight(s) == Sight(s') && s.pending == s'.pending && s.unread == s'.unread
  }

  lemma UntimedLogAppend(log: seq<Event>, e: Event)
    ensures UntimedLog(log + [e]) == UntimedLog(log) + [UntimedEvent(e)]
  {
  }

  lemma ServeOneAlike(s: Session, s': Session, decide: Request -> Answer, time: int, time': int)
    requires s.connected && s'.connected && s.reading == s'.reading
    requires s.unread == s'.unread && UntimedLog(s.log) == UntimedLog(s'.log)
    requires var o, o' := Parse(s.context, s.pending, time), Parse(s'.context, s'.pending, time');
             UntimedOutcome(o) == UntimedOutcome(o') || SameRefusal(o, o')
    ensures Alike(ServeOne(s, decide, time).0, ServeOne(s', decide, time').0)
    ensures ServeOne(s, decide, time).1 == ServeOne(s', decide, time').1
  {
    var o, o' := Parse(s.context, s.pending, time), Parse(s'.context, s'.pending, time');
    match o.result {
      case Incomplete =>
      case BadRequest =>
        UntimedLogAppend(s.log, Refused(400));
        UntimedLogAppend(s'.log, Refused(400));
      case RequestTooLarge =>
        UntimedLogAppend(s.log, Refused(413));
        UntimedLogAppend(s'.log, Refused(413));
      case Complete =>
        UntimedLogAppend(s.log, Handled(o.context.request));
        UntimedLogAppend(s'.log, Handled(o'.context.request));
    }
  }

  /** Sessions that look alike are served alike, at any time of day. */
  lemma {:induction false} ServeAlike(s: Session, s': Session, decide: Request -> Answer, time: int, time': int)
    requires Alike(s, s')
    ensures Alike(Serve(s, decide, time), Serve(s', decide, time'))
    decreases |s.pending|, if s.context.phase.ExpectRequestLine? then 0 else 1
  {
    if s.connected {
      ParseUntimed(s.context, s'.context, s.pending, time, time');
      ServeOneAlike(s, s', decide, time, time');
      ServeShrinks(s, decide, time);
      var (n, more) := ServeOne(s, decide, time);
      var (n', _) := ServeOne(s', decide, time');
      if more {
        ServeAlike(n, n', decide, time, time');
      }
    }
  }

  /** If the first turns agree, so do the whole calls. */
  lemma ServeFromOne(s: Session, s': Session, decide: Request -> Answer, time: int, time': int)
    requires s.connected && s'.connected
    requires Alike(ServeOne(s, decide, time).0, ServeOne(s', decide, time').0)
    requires ServeOne(s, decide, time).1 == ServeOne(s', decide, time').1
    ensures Alike(Serve(s, decide, time), Serve(s', decide, time'))
  {
    ServeAlike(ServeOne(s, decide, time).0, ServeOne(s', decide, time').0, decide, time, time');
  }

  // ---------- one cut ----------

  /** No request the parser can produce is taken on with the connection still being read. */
  ghost predicate NeverHolds(decide: Request -> Answer) {
    forall stream: string, time: int ::
      Parse(Initial, stream, time).result.Complete? ==>
        !decide(Untimed(Parse(Initial, stream, time).context.request)).Hold?
  }

  function WithMore(s: Session, more: string): Session {
    s.(pending := s.pending + more)
  }

  /** A session that is about to parse a fresh request. */
  predicate Between(s: Session) {
    s.connected && s.reading && s.unread == "" && s.context == Initial
  }

  lemma SplitIncomplete(s: Session, more: string, decide: Request -> Answer, time: int, later: int, whole: int)
    requires Between(s) && Parse(Initial, s.pending, time).result.Incomplete?
    ensures Sight(Deliver(Serve(s, decide, time), more, decide, later))
         == Sight(Serve(s.(pending := s.pending + more), decide, whole))
  {
    var o := Parse(Initial, s.pending, time);
    ParseMore(Initial, s.pending, more, time);
    ParseUntimed(Initial, Initial, s.pending + more, time, whole);
    ParseUntimed(o.context, o.context, o.rest + more, time, later);
    var resumed := s.(context := o.context, pending := o.rest + more);
    assert Deliver(Serve(s, decide, time), more, decide, later) == Serve(resumed, decide, later);
    var all := s.(pending := s.pending + more);
    ServeOneAlike(resumed, all, decide, later, whole);
    ServeFromOne(resumed, all, decide, later, whole);
  }

  /** Whether the first turn completes a request and the handler wants the next one. */
  predicate Continues(s: Session, decide: Request -> Answer, time: int) {
    var o := Parse(s.context, s.pending, time);
    o.result.Complete? && decide(Untimed(o.context.request)).Keep?
  }

  /** The first turn on `s` with more bytes behind it is the first turn on `s`, with those bytes
      behind what it leaves. */
  lemma SplitTurn(s: Session, more: string, decide: Request -> Answer, time: int)
    requires Between(s) && !Parse(Initial, s.pending, time).result.Incomplete?
    requires more != ""
    ensures var all := ServeOne(s.(pending := s.pending + more), decide, time);
            var n := ServeOne(s, decide, time).0;
            && Alike(all.0, n.(pending := n.pending + more))
            && all.1 == Continues(s, decide, time)
            && (all.1 ==> Between(n))
  {
    ParseMore(Initial, s.pending, more, time);
    var o, w := Parse(Initial, s.pending, time), Parse(Initial, s.pending + more, time);
    if o.result.RequestTooLarge? {
      UntimedLogAppend(s.log, Refused(413));
    } else {
      assert w == o.(rest := o.rest + more);
    }
  }

  /** A first turn that does not go on leaves the connection shut down or unread, unless the
      handler holds the request. */
  lemma TurnStops(s: Session, decide: Request -> Answer, time: int)
    requires Between(s) && !Parse(Initial, s.pending, time).result.Incomplete?
    requires var o := Parse(Initial, s.pending, time);
             o.result.Complete? ==> !decide(Untimed(o.context.request)).Hold?
    ensures var (n, again) := ServeOne(s, decide, time);
            && (again ==> Continues(s, decide, time))
            && n.unread == ""
            && (!Continues(s, decide, time) ==> !n.connected || !n.reading)
  {
  }

  /** The case where the prefix ends the parsing: the later bytes stay unread or unparsed. */
  lemma SplitStops(n: Session, w: Session, more: string, decide: Request -> Answer, later: int)
    requires n.unread == "" && (!n.connected || !n.reading)
    requires Alike(w, WithMore(n, more))
    ensures Sight(Deliver(n, more, decide, later)) == Sight(w)
  {
    if n.reading {
      assert Deliver(n, more, decide, later) == WithMore(n, more);
    } else {
      assert n.pending + (n.unread + more) == (n.pending + more) + n.unread;
    }
  }

  /** Serving a prefix and delivering the rest later looks like serving everything at once. */
  lemma {:induction false} ServeSplit(
    s: Session, more: string, decide: Request -> Answer, time: int, later: int, whole: int)
    requires NeverHolds(decide) && Between(s) && more != ""
    ensures Sight(Deliver(Serve(s, decide, time), more, decide, later))
         == Sight(Serve(s.(pending := s.pending + more), decide, whole))
    decreases |s.pending|
  {
    var all := s.(pending := s.pending + more);
    if Parse(Initial, s.pending, time).result.Incomplete? {
      SplitIncomplete(s, more, decide, time, later, whole);
    } else if !Continues(s, decide, time) {
      SplitTurn(s, more, decide, time);
      TurnStops(s, decide, time);
      SplitStops(ServeOne(s, decide, time).0, ServeOne(all, decide, time).0, more, decide, later);
      ServeAlike(all, all, decide, time, whole);
    } else {
      var n := ServeOne(s, decide, time).0;
      var n' := n.(pending := n.pending + more);
      SplitTurn(s, more, decide, time);
      ServeShrinks(s, decide, time);
      if n.pending == "" {
        assert Serve(s, decide, time) == n;
        ServeAlike(n', n', decide, later, time);
      } else {
        assert Serve(s, decide, time) == Serve(n, decide, time);
        ServeSplit(n, more, decide, time, later, time);
      }
      SplitGoesOn(s, more, decide, time, whole);
    }
  }

  lemma SplitGoesOn(s: Session, more: string, decide: Request -> Answer, time: int, whole: int)
    requires Between(s) && Continues(s, decide, time) && more != ""
    ensures Sight(Serve(s.(pending := s.pending + more), decide, whole))
         == Sight(Serve(WithMore(ServeOne(s, decide, time).0, more), decide, time))
  {
    var all := s.(pending := s.pending + more);
    var n := ServeOne(s, decide, time).0;
    SplitTurn(s, more, decide, time);
    ServeAlike(all, all, decide, time, whole);
    var w := ServeOne(all, decide, time).0;
    assert Serve(all, decide, time) == Serve(w, decide, time);
    ServeAlike(w, n.(pending := n.pending + more), decide, time, time);
  }

  // ---------- any cut ----------

  lemma DeliverAlike(s: Session, s': Session, chunk: string, decide: Request -> Answer, time: int)
    requires Sight(s) == Sight(s')
    requires (s.reading ==> s.unread == "") && (s'.reading ==> s'.unread == "")
    ensures Sight(Deliver(s, chunk, decide, time)) == Sight(Deliver(s', chunk, decide, time))
  {
    if s.reading {
      assert s.pending == s.pending + "" && s'.pending == s'.pending + "";
      ServeAlike(s.(pending := s.pending + chunk), s'.(pending := s'.pending + chunk), decide, time, time);
    } else {
      assert s.pending + (s.unread + chunk) == (s.pending + s.unread) + chunk;
      assert s'.pending + (s'.unread + chunk) == (s'.pending + s'.unread) + chunk;
    }
  }

  lemma {:induction false} ServeKeepsUnread(s: Session, decide: Request -> Answer, time: int)
    ensures Serve(s, decide, time).unread == s.unread
    decreases |s.pending|, if s.context.phase.ExpectRequestLine? then 0 else 1
  {
    if s.connected {
      ServeShrinks(s, decide, time);
      var (n, more) := ServeOne(s, decide, time);
      if more {
        ServeKeepsUnread(n, decide, time);
      }
    }
  }

  lemma {:induction false} RunUnread(cuts: seq<Read>, decide: Request -> Answer)
    ensures Run(cuts, decide).reading ==> Run(cuts, decide).unread == ""
  {
    if cuts != [] {
      var last := cuts[|cuts| - 1];
      var s := Run(cuts[..|cuts| - 1], decide);
      RunUnread(cuts[..|cuts| - 1], decide);
      ServeKeepsUnread(s.(pending := s.pending + last.bytes), decide, last.time);
    }
  }

  /** Two reads in a row, the first on a fresh session. */
  lemma TwoReads(first: string, second: string, decide: Request -> Answer, time: int, later: int, whole: int)
    requires NeverHolds(decide) && second != ""
    ensures Sight(Deliver(Deliver(Fresh, first, decide, time), second, decide, later))
         == Sight(Deliver(Fresh, first + second, decide, whole))
  {
    var s := Fresh.(pending := "" + first);
    assert s.pending + second == "" + (first + second);
    ServeSplit(s, second, decide, time, later, whole);
  }

  lemma {:induction false} RunIsOneRead(cuts: seq<Read>, decide: Request -> Answer, time: int)
    requires NeverHolds(decide) && WellCut(cuts)
    ensures Sight(Run(cuts, decide)) == Sight(Deliver(Fresh, Bytes(cuts), decide, time))
  {
    var front, last := cuts[..|cuts| - 1], cuts[|cuts| - 1];
    if front == [] {
      assert Run(front, decide) == Fresh && Bytes(cuts) == last.bytes;
      var s := Fresh.(pending := "" + last.bytes);
      ServeAlike(s, s, decide, last.time, time);
    } else {
      RunIsOneRead(front, decide, time);
      RunUnread(front, decide);
      RunUnread([Read(Bytes(front), time)], decide);
      var once := Deliver(Fresh, Bytes(front), decide, time);
      assert [Read(Bytes(front), time)][..0] == [];
      assert Run([Read(Bytes(front), time)], decide) == once;
      DeliverAlike(Run(front, decide), once, last.bytes, decide, last.time);
      TwoReads(Bytes(front), last.bytes, decide, time, last.time, time);
    }
  }

  /** For every stream and every way of cutting it, the server ends up where one read of the whole
      stream leaves it. */
  ghost predicate FragmentationIndependent(decide: Request -> Answer) {
    forall cuts: seq<Read>, time: int ::
      WellCut(cuts) ==> Sight(Run(cuts, decide)) == Sight(Deliver(Fresh, Bytes(cuts), decide, time))
  }

  /** A request taken on with reading left on stops this call but not the next one: sent twice, its
      bytes are handled twice when they come in two reads and once when they come in one. */
  lemma HoldIsVisible(stream: string, time: int, decide: Request -> Answer) returns (cuts: seq<Read>)
    requires Parse(Initial, stream, time).result.Complete?
    requires decide(Untimed(Parse(Initial, stream, time).context.request)).Hold?
    ensures WellCut(cuts)
    ensures |Run(cuts, decide).log| == 2 && |Deliver(Fresh, Bytes(cuts), decide, time).log| == 1
  {
    hide Parse;
    var used := ParseExact(Initial, stream, time);
    ParseConsumes(stream, time);
    var s := stream[..used];
    var r := Read(s, time);
    cuts := [r, r];
    assert cuts[..1] == [r] && [r][..0] == [];
    assert "" + s == s;
    var once := Deliver(Fresh, s, decide, time);
    assert ServeOne(Fresh.(pending := s), decide, time) == (once, false);
    assert Run([r], decide) == once;
    assert ServeOne(once.(pending := s), decide, time).1 == false;
    assert Run(cuts, decide) == Deliver(once, s, decide, time);
    assert Bytes([r]) == s && Bytes(cuts) == s + s && "" + (s + s) == s + s;
    ParseMore(Initial, s, s, time);
    assert ServeOne(Fresh.(pending := s + s), decide, time).1 == false;
  }

  /** Fragmentation independence holds exactly for the handlers that never hold a request the
      parser can produce. */
  lemma FragmentationIndependence(decide: Request -> Answer)
    ensures FragmentationIndependent(decide) <==> NeverHolds(decide)
  {
    if NeverHolds(decide) {
      forall cuts: seq<Read>, time: int | WellCut(cuts)
        ensures Sight(Run(cuts, decide)) == Sight(Deliver(Fresh, Bytes(cuts), decide, time))
      {
        RunIsOneRead(cuts, decide, time);
      }
    } else {
      var stream: string, time: int :|
        Parse(Initial, stream, time).result.Complete?
        && decide(Untimed(Parse(Initial, stream, time).context.request)).Hold?;
      var cuts := HoldIsVisible(stream, time, decide);
      assert |Sight(Run(cuts, decide)).log| == 2;
      assert |Sight(Deliver(Fresh, Bytes(cuts), decide, time)).log| == 1;
    }
  }
}
