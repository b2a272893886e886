/** The sending half of a connection (src/muduo_core/TcpConnection.cc): direct writes, the output
    buffer behind them, write interest and the half-close. Calls are made on the loop thread; what
    the kernel answers to a write is a parameter. */
module TcpConnections {
  import opened Text
  import opened Buffers
  import P = Pollers

  datatype Phase = Disconnected | Connecting | Connected | Disconnecting

  /** `Fault` is EPIPE or ECONNRESET, `Failure` any other error that is not EWOULDBLOCK. */
  datatype WriteResult = Wrote(n: nat) | WouldBlock | Fault | Failure

  /** A connection and its history: its channel with the registration in epoll, the bytes the kernel
      took, the bytes of all messages `send` accepted, those of the messages it kept and those it
      gave up on a fault, and the number of `shutdownWrite` calls. */
  datatype Conn = Conn(
    phase: Phase, reading: bool, channel: P.View, destroyed: bool, output: string,
    written: string, accepted: string, kept: string, lost: string, shutdowns: nat)

  const Created := Conn(Connecting, true, P.FreshView, false, "", "", "", "", "", 0)

  datatype Step =
    | Established
    | Send(message: string, result: WriteResult)
    | Shutdown
    | StopRead
    | HandleWrite(result: WriteResult)
    | HandleClose
    | Destroyed

  predicate IsWriting(c: Conn) {
    P.Has(c.channel.events, P.WRITE_EVENT)
  }

  /** One interest change, with the update of the poller it triggers. */
  function Set(c: Conn, change: P.Change): Conn {
    c.(channel := P.Apply(c.channel, change))
  }

  predicate Fits(result: WriteResult, len: nat) {
    result.Wrote? ==> result.n <= len
  }

  predicate Enabled(c: Conn, step: Step) {
    match step
    case Established => c.phase == Connecting
    case Send(message, result) => Fits(result, |message|)
    case HandleWrite(result) => c.phase != Connecting && Fits(result, |c.output|)
    case HandleClose => c.phase != Connecting
    case Destroyed => c.phase != Connecting
    case _ => true
  }

  function Sent(c: Conn, message: string, result: WriteResult): Conn
    requires Fits(result, |message|)
  {
    if c.phase == Disconnected then c
    else
      var direct := !IsWriting(c) && c.output == "";
      var n := if direct && result.Wrote? then result.n else 0;
      if direct && result.Fault? then c.(accepted := c.accepted + message, lost := c.lost + message)
      else
        var sent := c.(accepted := c.accepted + message, kept := c.kept + message,
                       written := c.written + message[..n]);
        if n == |message| then sent
        else
          var queued := sent.(output := c.output + message[n..]);
          if IsWriting(c) then queued else Set(queued, P.EnableWriting)
  }

  function ShutdownInLoop(c: Conn): Conn {
    if IsWriting(c) then c else c.(shutdowns := c.shutdowns + 1)
  }

  function Next(c: Conn, step: Step): Conn
    requires Enabled(c, step)
  {
    match step
    case Established => Set(c.(phase := Connected), P.EnableReading)
    case Send(message, result) => if c.phase == Connected then Sent(c, message, result) else c
    case Shutdown => if c.phase == Connected then ShutdownInLoop(c.(phase := Disconnecting)) else c
    case StopRead => if c.reading then Set(c.(reading := false), P.DisableReading) else c
    case HandleWrite(result) =>
      if !IsWriting(c) || !result.Wrote? || result.n == 0 then c
      else
        var rest := c.(written := c.written + c.output[..result.n], output := c.output[result.n..]);
        if rest.output != "" then rest
        else
          var idle := Set(rest, P.DisableWriting);
          if c.phase == Disconnecting then ShutdownInLoop(idle) else idle
    case HandleClose => Set(c.(phase := Disconnected), P.DisableAll)
    case Destroyed =>
      var closed := if c.phase == Connected then Set(c.(phase := Disconnected), P.DisableAll) else c;
      Set(closed, P.Remove).(destroyed := true)
  }

  predicate IsRun(steps: seq<Step>)
    decreases |steps|, 0
  {
    steps == [] || (IsRun(steps[..|steps| - 1]) && Enabled(After(steps[..|steps| - 1]), steps[|steps| - 1]))
  }

  function After(steps: seq<Step>): Conn
    requires IsRun(steps)
    decreases |steps|, 1
  {
    if steps == [] then Created else Next(After(steps[..|steps| - 1]), steps[|steps| - 1])
  }

  // ---------- the invariant ----------

  ghost predicate Inv(c: Conn) {
    && c.written + c.output == c.kept
    && |c.kept| + |c.lost| == |c.accepted|
    && (c.lost == "" ==> c.kept == c.accepted)
    && P.Agrees(c.channel)
    && (c.phase == Connecting ==> c.output == "")
    && (c.phase != Connecting && !c.destroyed ==> c.channel.listed)
    && (c.phase == Disconnected ==> c.channel.events == P.NONE_EVENT)
    && (c.phase != Disconnected ==> (IsWriting(c) <==> c.output != ""))
    && (c.phase == Connecting || c.phase == Connected ==> c.shutdowns == 0)
    && (c.phase == Disconnecting ==> c.shutdowns == if c.output == "" then 1 else 0)
    && (c.shutdowns == 0 || (c.shutdowns == 1 && c.output == ""))
  }

  /** What an interest change does to the write bit and the registration. */
  lemma SetMeaning(c: Conn, change: P.Change)
    requires P.Agrees(c.channel)
    ensures var after := Set(c, change);
            && after == c.(channel := after.channel)
            && P.Agrees(after.channel)
            && (!change.Remove? ==> after.channel.listed)
            && (change.EnableWriting? ==> IsWriting(after))
            && (change.DisableWriting? || change.DisableAll? ==> !IsWriting(after))
            && (change.EnableReading? || change.DisableReading? || change.Remove? ==> IsWriting(after) == IsWriting(c))
            && (change.DisableAll? ==> after.channel.events == P.NONE_EVENT)
            && (change.Remove? ==> after.channel.events == c.channel.events)
            && (c.channel.events == P.NONE_EVENT && change.DisableReading? ==> after.channel.events == P.NONE_EVENT)
  {
    hide P.Apply, P.Agrees;
    P.Bits(c.channel.events);
    P.ApplyKeeps(c.channel, change);
    hide P.With, P.Without, P.Has;
  }

  lemma SendKeeps(c: Conn, message: string, result: WriteResult)
    requires Inv(c) && c.phase == Connected && Fits(result, |message|)
    ensures Inv(Sent(c, message, result))
  {
    hide Set, P.Agrees, P.Has;
    if IsWriting(c) {
      Behind(c.written, c.output, message);
      assert c.written + message[..0] == c.written && message[0..] == message;
    } else {
      SendDirectKeeps(c, message, result);
    }
  }

  lemma Behind(written: string, output: string, message: string)
    ensures (written + output) + message == written + (output + message)
  {
  }

  lemma SendDirectKeeps(c: Conn, message: string, result: WriteResult)
    requires Inv(c) && c.phase == Connected && Fits(result, |message|) && !IsWriting(c)
    ensures Inv(Sent(c, message, result))
  {
    hide Set, P.Agrees, P.Has;
    var n := if result.Wrote? then result.n else 0;
    var rest := c.(accepted := c.accepted + message, kept := c.kept + message, written := c.written + message[..n],
                   output := c.output + message[n..]);
    SetMeaning(rest, P.EnableWriting);
    CutAt(c.written, message, n);
  }

  lemma CutAt(written: string, message: string, n: nat)
    requires n <= |message|
    ensures (written + "") + message == (written + message[..n]) + ("" + message[n..])
    ensures n == |message| ==> (written + message[..n]) + "" == (written + "") + message
  {
    assert message == message[..n] + message[n..];
  }

  lemma WriteKeeps(c: Conn, result: WriteResult)
    requires Inv(c) && Fits(result, |c.output|) && Enabled(c, HandleWrite(result))
    ensures Inv(Next(c, HandleWrite(result)))
  {
    hide Set, P.Agrees, P.Has;
    if IsWriting(c) && result.Wrote? && result.n > 0 {
      var rest := c.(written := c.written + c.output[..result.n], output := c.output[result.n..]);
      SetMeaning(rest, P.DisableWriting);
      assert c.output == c.output[..result.n] + c.output[result.n..];
      assert c.written + c.output == (c.written + c.output[..result.n]) + c.output[result.n..];
      NothingIsSilent(c.channel.events);
    }
  }

  lemma NothingIsSilent(events: P.Mask)
    ensures P.Has(events, P.WRITE_EVENT) ==> events != P.NONE_EVENT
  {
  }

  lemma StepKeeps(c: Conn, step: Step)
    requires Inv(c) && Enabled(c, step)
    ensures Inv(Next(c, step))
  {
    hide Set, P.Agrees, P.Has;
    match step {
      case Send(message, result) =>
        if c.phase == Connected {
          SendKeeps(c, message, result);
        }
      case HandleWrite(result) =>
        WriteKeeps(c, result);
      case Established =>
        SetMeaning(c.(phase := Connected), P.EnableReading);
      case StopRead =>
        SetMeaning(c.(reading := false), P.DisableReading);
      case HandleClose =>
        SetMeaning(c.(phase := Disconnected), P.DisableAll);
      case Destroyed =>
        SetMeaning(c.(phase := Disconnected), P.DisableAll);
        var closed := if c.phase == Connected then Set(c.(phase := Disconnected), P.DisableAll) else c;
        SetMeaning(closed, P.Remove);
      case Shutdown =>
    }
  }

  /** A step that loses bytes: a direct write of a non-empty message that meets EPIPE or ECONNRESET. */
  predicate GivesUp(c: Conn, step: Step) {
    && step.Send? && step.message != "" && step.result.Fault?
    && c.phase == Connected && !IsWriting(c) && c.output == ""
  }

  ghost predicate GivesUpAt(steps: seq<Step>, i: nat) {
    i < |steps| && IsRun(steps[..i]) && GivesUp(After(steps[..i]), steps[i])
  }

  /** Some step of the run did. */
  ghost predicate GaveUp(steps: seq<Step>) {
    exists i :: GivesUpAt(steps, i)
  }

  lemma {:induction false} LostIsGivenUp(steps: seq<Step>)
    requires IsRun(steps)
    ensures After(steps).lost != "" <==> GaveUp(steps)
  {
    if steps != [] {
      var n := |steps| - 1;
      var init := steps[..n];
      LostIsGivenUp(init);
      GaveUpGrows(steps);
      OneLoss(After(init), steps[n]);
    }
  }

  lemma OneLoss(c: Conn, step: Step)
    requires Enabled(c, step)
    ensures Next(c, step).lost != "" <==> c.lost != "" || GivesUp(c, step)
  {
    hide P.Apply, P.Has;
  }

  lemma GaveUpGrows(steps: seq<Step>)
    requires IsRun(steps) && steps != []
    ensures var n := |steps| - 1; GaveUp(steps) <==> GaveUp(steps[..n]) || GivesUp(After(steps[..n]), steps[n])
  {
    hide GivesUpAt, GivesUp, IsRun, After;
    var n := |steps| - 1;
    LastAt(steps);
    if GaveUp(steps) {
      var i: nat :| GivesUpAt(steps, i);
      AtMostLast(steps, i);
      if i < n {
        SameAt(steps, n, i);
      }
    }
    if GaveUp(steps[..n]) {
      var i: nat :| GivesUpAt(steps[..n], i);
      AtMostLast(steps[..n], i);
      SameAt(steps, n, i);
    }
  }

  lemma LastAt(steps: seq<Step>)
    requires IsRun(steps) && steps != []
    ensures var n := |steps| - 1; GivesUpAt(steps, n) <==> GivesUp(After(steps[..n]), steps[n])
  {
    hide GivesUp;
  }

  lemma SameAt(steps: seq<Step>, n: nat, i: nat)
    requires i < n <= |steps|
    ensures GivesUpAt(steps, i) <==> GivesUpAt(steps[..n], i)
  {
    hide GivesUp;
    assert steps[..n][..i] == steps[..i];
  }

  lemma AtMostLast(steps: seq<Step>, i: nat)
    requires GivesUpAt(steps, i)
    ensures i < |steps|
  {
    hide GivesUp;
  }

  /** Every run, any partial writes and errors. What the kernel took followed by what waits is the
      accepted stream, exactly unless some send met a fault on a direct write of a non-empty message;
      write interest is on exactly while something waits, and the kernel then watches for it; the
      write side is closed once at most, after the last byte. */
  lemma {:induction false} EveryRun(steps: seq<Step>)
    requires IsRun(steps)
    ensures var c := After(steps);
            && (c.written + c.output == c.accepted <==> !GaveUp(steps))
            && (c.phase != Disconnected ==> (IsWriting(c) <==> c.output != ""))
            && (c.output != "" && c.phase != Disconnected && !c.destroyed ==>
                  c.channel.kernel == Some(c.channel.events) && IsWriting(c))
            && c.shutdowns <= 1
            && (c.shutdowns == 1 ==> c.written == c.kept && (!GaveUp(steps) ==> c.written == c.accepted))
  {
    RunsKeep(steps);
    LostIsGivenUp(steps);
    InvMeans(After(steps));
  }

  lemma {:induction false} RunsKeep(steps: seq<Step>)
    requires IsRun(steps)
    ensures Inv(After(steps))
  {
    if steps != [] {
      RunsKeep(steps[..|steps| - 1]);
      StepKeeps(After(steps[..|steps| - 1]), steps[|steps| - 1]);
    }
  }

  lemma InvMeans(c: Conn)
    requires Inv(c)
    ensures c.written + c.output == c.accepted <==> c.lost == ""
    ensures c.output != "" && c.phase != Disconnected && c.phase != Connecting && !c.destroyed ==>
              c.channel.kernel == Some(c.channel.events)
    ensures c.shutdowns == 1 ==> c.written == c.kept && (c.lost == "" ==> c.written == c.accepted)
  {
    NothingIsSilent(c.channel.events);
    assert c.output == "" ==> c.written + c.output == c.written;
  }

  /** Without EPIPE or ECONNRESET on a non-empty send nothing is lost. */
  lemma ConservedUntilAFault(steps: seq<Step>)
    requires IsRun(steps)
    requires forall s :: s in steps && s.Send? && s.result.Fault? ==> s.message == ""
    ensures var c := After(steps); c.written + c.output == c.accepted
  {
    EveryRun(steps);
    hide After, IsRun, GivesUpAt;
    forall i: nat ensures GivesUpAt(steps, i) ==> exists s :: s in steps && s.Send? && s.result.Fault? && s.message != "" {
      FaultySend(steps, i);
    }
  }

  lemma FaultySend(steps: seq<Step>, i: nat)
    ensures GivesUpAt(steps, i) ==> exists s :: s in steps && s.Send? && s.result.Fault? && s.message != ""
  {
    if i < |steps| {
      assert steps[i] in steps;
    }
  }

  /** While something waits, every write the kernel accepts shortens it; the one that empties the
      buffer turns write interest off and, if a shutdown is pending, closes the write side. */
  lemma EveryWriteHelps(c: Conn, n: nat)
    requires Inv(c) && c.phase != Connecting && c.phase != Disconnected && c.output != ""
    requires 0 < n <= |c.output|
    ensures var after := Next(c, HandleWrite(Wrote(n)));
            && |after.output| == |c.output| - n
            && (n == |c.output| ==> !IsWriting(after) && after.written == c.kept
                                    && after.shutdowns == if c.phase == Disconnecting then 1 else 0)
  {
    hide P.Agrees;
    WriteKeeps(c, Wrote(n));
    var after := Next(c, HandleWrite(Wrote(n)));
    assert after.output == "" ==> after.written + after.output == after.written;
  }

  // ---------- what the kernel took ----------

  /** The step calls the kernel's write: a send on an open connection with nothing waiting, or a write
      event while something waits. */
  predicate Writes(c: Conn, step: Step) {
    match step
    case Send(_, _) => c.phase == Connected && c.output == ""
    case HandleWrite(_) => c.phase != Disconnected && c.output != ""
    case _ => false
  }

  /** The number of bytes the kernel answers it took. */
  function Taken(step: Step): nat {
    match step
    case Send(_, Wrote(n)) => n
    case HandleWrite(Wrote(n)) => n
    case _ => 0
  }

  /** The bytes taken in a run, added up over its writes. */
  function TakenInAll(steps: seq<Step>): nat
    requires IsRun(steps)
    decreases |steps|
  {
    if steps == [] then 0
    else
      var front, last := steps[..|steps| - 1], steps[|steps| - 1];
      TakenInAll(front) + if Writes(After(front), last) then Taken(last) else 0
  }

  lemma OneWrite(c: Conn, step: Step)
    requires Inv(c) && Enabled(c, step)
    ensures |Next(c, step).written| == |c.written| + if Writes(c, step) then Taken(step) else 0
  {
    hide P.Apply, P.Agrees, P.Has;
    NothingIsSilent(c.channel.events);
    NothingAsked();
  }

  lemma NothingAsked()
    ensures !P.Has(P.NONE_EVENT, P.WRITE_EVENT)
  {
  }

  /** Over every run the bytes counted as written are those the kernel said it took. */
  lemma {:induction false} WrittenIsTaken(steps: seq<Step>)
    requires IsRun(steps)
    ensures |After(steps).written| == TakenInAll(steps)
  {
    if steps != [] {
      var front := steps[..|steps| - 1];
      WrittenIsTaken(front);
      RunsKeep(front);
      hide Inv, Next, Writes, Taken;
      OneWrite(After(front), steps[|steps| - 1]);
    }
  }

  /** One send: with nothing waiting the message goes to the kernel and what it does not take waits,
      nothing of it after a fault; with something waiting the message waits behind it. */
  lemma SendMeaning(c: Conn, message: string, result: WriteResult)
    requires Inv(c) && c.phase == Connected && Fits(result, |message|)
    ensures var after := Next(c, Send(message, result));
            && after.phase == Connected && after.accepted == c.accepted + message
            && (c.output != "" ==> after.output == c.output + message && after.written == c.written)
            && (c.output == "" ==>
                  match result
                  case Wrote(n) => after.output == message[n..] && after.written == c.written + message[..n]
                  case Fault => after.output == "" && after.written == c.written && after.lost == c.lost + message
                  case _ => after.output == message && after.written == c.written)
  {
    hide P.Apply, P.Agrees, P.Has;
    assert c.written + "" == c.written && message[..0] == "" && message[0..] == message;
    assert c.output == "" ==> forall rest :: c.output + rest == rest;
  }

  /** A shutdown closes the write side at once if nothing waits, otherwise after the last byte, and no
      message is accepted any more. */
  lemma ShutdownMeaning(c: Conn)
    requires Inv(c) && c.phase == Connected
    ensures var n := Next(c, Shutdown);
            && n == c.(phase := Disconnecting, shutdowns := if c.output == "" then 1 else 0)
            && forall message, result :: Enabled(n, Send(message, result)) ==> Next(n, Send(message, result)) == n
  {
    hide P.Apply, P.Agrees, P.Has;
  }

  lemma {:induction false} PrefixIsRun(steps: seq<Step>, i: nat)
    requires IsRun(steps) && i <= |steps|
    ensures IsRun(steps[..i])
    decreases |steps|
  {
    if i < |steps| {
      PrefixIsRun(steps[..|steps| - 1], i);
      assert steps[..|steps| - 1][..i] == steps[..i];
    } else {
      assert steps[..i] == steps;
    }
  }

  lemma ClosedStep(c: Conn, step: Step)
    requires Inv(c) && Enabled(c, step) && (c.phase == Disconnected || step == HandleClose)
    ensures var n := Next(c, step);
            && n.phase == Disconnected && n.output == c.output && n.written == c.written
            && n.accepted == c.accepted && n.shutdowns == c.shutdowns
  {
    hide P.Apply, P.Agrees, P.Has;
    NothingAsked();
  }

  /** After the close event nothing is accepted, written, dropped from the buffer or shut down. */
  lemma {:induction false} ClosedIsFinal(steps: seq<Step>, i: nat)
    requires IsRun(steps) && i < |steps| && steps[i] == HandleClose
    ensures IsRun(steps[..i])
    ensures var c, before := After(steps), After(steps[..i]);
            && c.phase == Disconnected && c.output == before.output && c.written == before.written
            && c.accepted == before.accepted && c.shutdowns == before.shutdowns
    decreases |steps|
  {
    PrefixIsRun(steps, i);
    var n := |steps| - 1;
    RunsKeep(steps[..n]);
    hide Inv, Next, Enabled;
    if i < n {
      ClosedIsFinal(steps[..n], i);
      assert steps[..n][..i] == steps[..i];
    }
    ClosedStep(After(steps[..n]), steps[n]);
  }

  predicate IsReading(c: Conn) {
    P.Has(c.channel.events, P.READ_EVENT)
  }

  lemma SetReading(c: Conn, change: P.Change)
    requires P.Agrees(c.channel)
    ensures (change.EnableReading? ==> IsReading(Set(c, change)))
    ensures (change.DisableReading? ==> !IsReading(Set(c, change)))
    ensures (change.EnableWriting? || change.DisableWriting? || change.Remove? ==>
               IsReading(Set(c, change)) == IsReading(c))
  {
    hide P.Apply, P.Agrees;
    P.Bits(c.channel.events);
    P.ApplyKeeps(c.channel, change);
    hide P.With, P.Without, P.Has;
  }

  lemma ReadingStep(c: Conn, step: Step)
    requires Inv(c) && Enabled(c, step) && c.phase != Connecting
    ensures var n := Next(c, step);
            && n.phase != Connecting
            && n.reading == (c.reading && step != StopRead)
            && (n.phase != Disconnected && IsReading(c) == c.reading ==> IsReading(n) == n.reading)
            && (n.phase != Disconnected ==> c.phase != Disconnected)
  {
    hide P.Apply, P.Agrees, P.Has;
    forall d: Conn, change: P.Change | P.Agrees(d.channel)
      ensures change.DisableReading? ==> !IsReading(Set(d, change))
      ensures change.EnableWriting? || change.DisableWriting? || change.Remove? ==>
                IsReading(Set(d, change)) == IsReading(d)
    {
      SetReading(d, change);
    }
  }

  /** An established connection is read until the first `stopRead`, or its end. */
  lemma {:induction false} ReadUntilStopped(steps: seq<Step>)
    requires IsRun(steps) && steps != [] && steps[0] == Established
    ensures var c := After(steps);
            && c.phase != Connecting
            && (c.reading <==> StopRead !in steps)
            && (c.phase != Disconnected ==> (IsReading(c) <==> StopRead !in steps))
    decreases |steps|
  {
    hide P.Apply, P.Agrees, P.Has;
    var n := |steps| - 1;
    if n == 0 {
      assert steps[..0] == [];
      FreshAgrees();
      SetReading(Created.(phase := Connected), P.EnableReading);
    } else {
      RunsKeep(steps[..n]);
      hide Inv, Next, Enabled, Set;
      ReadUntilStopped(steps[..n]);
      ReadingStep(After(steps[..n]), steps[n]);
      assert StopRead in steps <==> StopRead in steps[..n] || steps[n] == StopRead;
    }
  }

  lemma FreshAgrees()
    ensures P.Agrees(P.FreshView)
  {
  }

  /** The end of a connection: out of the poller's table and the kernel's set; disconnected if it was
      still connected. */
  lemma DestroyedMeaning(c: Conn)
    requires Inv(c) && c.phase != Connecting
    ensures var n := Next(c, Destroyed);
            && n.destroyed && !n.channel.listed && n.channel.kernel == None
            && n.phase == (if c.phase == Connected then Disconnected else c.phase)
            && n.output == c.output && n.written == c.written && n.accepted == c.accepted
  {
    var closed := if c.phase == Connected then Set(c.(phase := Disconnected), P.DisableAll) else c;
    P.ApplyKeeps(c.channel, P.DisableAll);
    hide P.Has;
    assert P.Agrees(closed.channel);
  }

  // ---------- the object ----------

  class TcpConnection {
    var phase: Phase
    var reading: bool
    /** The channel, with its registration in the poller. */
    var channel: P.View
    ghost var destroyed: bool
    const outputBuffer: Buffer
    ghost var written: string
    ghost var accepted: string
    ghost var kept: string
    ghost var lost: string
    ghost var shutdowns: nat

    ghost predicate Valid()
      reads this, outputBuffer
    {
      outputBuffer.Valid()
    }

    ghost function Model(): Conn
      requires Valid()
      reads this, outputBuffer, outputBuffer.data
    {
      Conn(phase, reading, channel, destroyed, outputBuffer.Readable(), written, accepted, kept, lost, shutdowns)
    }

    constructor ()
      ensures Valid() && fresh(outputBuffer) && fresh(outputBuffer.data) && Model() == Created
    {
      phase, reading, channel, destroyed := Connecting, true, P.FreshView, false;
      outputBuffer := new Buffer(INITIAL_SIZE);
      written, accepted, kept, lost, shutdowns := "", "", "", "", 0;
    }

    predicate Writing()
      reads this
    {
      P.Has(channel.events, P.WRITE_EVENT)
    }

    method ConnectEstablished()
      requires Valid() && phase == Connecting
      modifies this
      ensures Valid() && Model() == Next(old(Model()), Established)
    {
      hide P.Apply, P.Has;
      phase := Connected;
      channel := P.Apply(channel, P.EnableReading);
    }

    method Send(message: string, result: WriteResult)
      requires Valid() && Fits(result, |message|)
      modifies this, outputBuffer, outputBuffer.data
      ensures Valid() && (outputBuffer.data == old(outputBuffer.data) || fresh(outputBuffer.data))
      ensures Model() == Next(old(Model()), Step.Send(message, result))
    {
      hide P.Apply, P.Has;
      if phase == Connected {
        SendInLoop(message, result);
      }
    }

    method SendInLoop(message: string, result: WriteResult)
      requires Valid() && Fits(result, |message|)
      modifies this, outputBuffer, outputBuffer.data
      ensures Valid() && (outputBuffer.data == old(outputBuffer.data) || fresh(outputBuffer.data))
      ensures Model() == Sent(old(Model()), message, result)
    {
      hide P.Apply, P.Has, Buffer.Readable, Buffer.ReadableBytes;
      var nwrote, remaining, faultError := 0, |message|, false;
      if phase == Disconnected {
        return;
      }
      var direct := Direct();
      if direct {
        match result {
          case Wrote(n) =>
            nwrote := n;
            remaining := |message| - nwrote;
          case Fault =>
            faultError := true;
          case _ =>
        }
      }
      Account(message, nwrote, faultError);
      if !faultError && remaining > 0 {
        QueueRest(message[nwrote..]);
      }
    }

    /** Nothing waits and no write interest is on: the message may go to the socket at once. */
    method Direct() returns (direct: bool)
      requires Valid()
      ensures direct == (!IsWriting(Model()) && Model().output == "")
    {
      direct := !Writing() && outputBuffer.ReadableBytes() == 0;
    }

    method QueueRest(rest: string)
      requires Valid()
      modifies this`channel, outputBuffer, outputBuffer.data
      ensures Valid() && (outputBuffer.data == old(outputBuffer.data) || fresh(outputBuffer.data))
      ensures var queued := old(Model()).(output := old(Model()).output + rest);
              Model() == if IsWriting(queued) then queued else Set(queued, P.EnableWriting)
    {
      hide P.Apply, P.Has, Buffer.Readable;
      outputBuffer.Append(rest);
      if !Writing() {
        channel := P.Apply(channel, P.EnableWriting);
      }
    }

    /** Book-keeping of what happened to a message. */
    ghost method Account(message: string, nwrote: nat, faultError: bool)
      requires Valid() && nwrote <= |message|
      modifies this`accepted, this`kept, this`written, this`lost
      ensures var m := old(Model());
              Model() == if faultError then m.(accepted := m.accepted + message, lost := m.lost + message)
                         else m.(accepted := m.accepted + message, kept := m.kept + message,
                                 written := m.written + message[..nwrote])
    {
      accepted := accepted + message;
      if faultError {
        lost := lost + message;
      } else {
        kept := kept + message;
        written := written + message[..nwrote];
      }
    }

    method Shutdown()
      requires Valid()
      modifies this
      ensures Valid() && Model() == Next(old(Model()), Step.Shutdown)
    {
      hide P.Apply, P.Has;
      if phase == Connected {
        phase := Disconnecting;
        ShutdownInLoop();
      }
    }

    method ShutdownInLoop()
      requires Valid()
      modifies this`shutdowns
      ensures shutdowns == old(shutdowns) + if Writing() then 0 else 1
    {
      if !Writing() {
        shutdowns := shutdowns + 1;
      }
    }

    method StopReadInLoop()
      requires Valid()
      modifies this
      ensures Valid() && Model() == Next(old(Model()), StopRead)
    {
      hide P.Apply, P.Has;
      if reading {
        reading := false;
        channel := P.Apply(channel, P.DisableReading);
      }
    }

    method HandleWrite(result: WriteResult)
      requires Valid() && phase != Connecting && Fits(result, outputBuffer.ReadableBytes())
      modifies this, outputBuffer
      ensures Valid() && outputBuffer.data == old(outputBuffer.data)
      ensures Model() == Next(old(Model()), Step.HandleWrite(result))
    {
      hide P.Apply, P.Has;
      if Writing() {
        if result.Wrote? && result.n > 0 {
          written := written + outputBuffer.Readable()[..result.n];
          outputBuffer.Retrieve(result.n);
          if outputBuffer.ReadableBytes() == 0 {
            channel := P.Apply(channel, P.DisableWriting);
            if phase == Disconnecting {
              ShutdownInLoop();
            }
          }
        }
      }
    }

    method HandleClose()
      requires Valid() && phase != Connecting
      modifies this
      ensures Valid() && Model() == Next(old(Model()), Step.HandleClose)
    {
      hide P.Apply, P.Has;
      phase := Disconnected;
      channel := P.Apply(channel, P.DisableAll);
    }

    method ConnectDestroyed()
      requires Valid() && phase != Connecting
      modifies this
      ensures Valid() && Model() == Next(old(Model()), Destroyed)
    {
      hide P.Apply, P.Has;
      if phase == Connected {
        phase := Disconnected;
        channel := P.Apply(channel, P.DisableAll);
      }
      channel := P.Apply(channel, P.Remove);
      destroyed := true;
    }
  }
}
