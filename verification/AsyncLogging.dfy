/** The double-buffer hand-off between threads that log and the thread that writes the log file
    (src/logger/AsyncLogging.cc, FixedBuffer.h). */
module AsyncLogs {
  import opened Text

  const LARGE_BUFFER: nat := 4000 * 1000

  type Records = seq<string>

  function Bytes(records: Records): string {
    if records == [] then "" else Bytes(records[..|records| - 1]) + records[|records| - 1]
  }

  lemma BytesGrow(records: Records, r: string)
    ensures Bytes(records + [r]) == Bytes(records) + r
  {
    assert (records + [r])[..|records|] == records;
  }

  // ---------- the protocol ----------

  /** Where the back end is: about to take the lock, or writing out what it took. */
  datatype Phase = Outside | Writing(done: nat)

  /** A buffer is the list of records in it. The front end's buffers, the back end's locals, the
      buffers handed to the file and the records appended so far; a null pointer is `None`. `broken`
      is set where the code would use a null pointer or pop from an empty vector. */
  datatype State = State(
    current: Option<Records>, next: Option<Records>, buffers: seq<Records>,
    spare1: Option<Records>, spare2: Option<Records>, toWrite: seq<Records>,
    phase: Phase, file: seq<Records>, appended: Records, broken: bool)

  const Initial := State(Some([]), Some([]), [], Some([]), Some([]), [], Outside, [], [], false)

  /** Each step is one critical section, or code that touches the back end's locals only. */
  datatype Step = Append(r: string) | Swap | WriteOne | Refill

  predicate Room(buffer: Records, r: string) {
    LARGE_BUFFER - |Bytes(buffer)| > |r|
  }

  function Add(buffer: Records, r: string): Records {
    if Room(buffer, r) then buffer + [r] else buffer
  }

  function Appended(s: State, r: string): State {
    if s.current.None? then s.(broken := true)
    else
      var t := s.(appended := s.appended + [r]);
      if Room(s.current.value, r) then t.(current := Some(s.current.value + [r]))
      else
        var unused := if s.next.Some? then s.next.value else [];
        t.(buffers := s.buffers + [s.current.value], current := Some(Add(unused, r)), next := None)
  }

  function Swapped(s: State): State {
    if s.current.None? then s.(broken := true)
    else
      s.(toWrite := s.buffers + [s.current.value], buffers := s.toWrite, current := s.spare1, spare1 := None,
         next := if s.next.None? then s.spare2 else s.next,
         spare2 := if s.next.None? then None else s.spare2, phase := Writing(0))
  }

  /** Two buffers at most are kept; the spares that were given away come back from their end. */
  function Refilled(s: State): State {
    var kept := if |s.toWrite| > 2 then 2 else |s.toWrite|;
    var needed := (if s.spare1.None? then 1 else 0) + (if s.spare2.None? then 1 else 0);
    if needed > kept then s.(broken := true)
    else
      s.(spare1 := if s.spare1.None? then Some([]) else s.spare1,
         spare2 := if s.spare2.None? then Some([]) else s.spare2,
         toWrite := [], phase := Outside)
  }

  predicate Enabled(s: State, step: Step) {
    match step
    case Append(_) => true
    case Swap => s.phase.Outside?
    case WriteOne => s.phase.Writing? && s.phase.done < |s.toWrite|
    case Refill => s.phase == Writing(|s.toWrite|)
  }

  function Next(s: State, step: Step): State
    requires Enabled(s, step)
  {
    match step
    case Append(r) => Appended(s, r)
    case Swap => Swapped(s)
    case WriteOne => s.(file := s.file + [s.toWrite[s.phase.done]], phase := Writing(s.phase.done + 1))
    case Refill => Refilled(s)
  }

  predicate IsRun(from: State, steps: seq<Step>)
    decreases |steps|, 0
  {
    steps == [] || (IsRun(from, steps[..|steps| - 1])
                    && Enabled(After(from, steps[..|steps| - 1]), steps[|steps| - 1]))
  }

  function After(from: State, steps: seq<Step>): State
    requires IsRun(from, steps)
    decreases |steps|, 1
  {
    if steps == [] then from else Next(After(from, steps[..|steps| - 1]), steps[|steps| - 1])
  }

  ghost predicate Leads(from: State, steps: seq<Step>, to: State) {
    IsRun(from, steps) && After(from, steps) == to
  }

  lemma LeadsOne(from: State, steps: seq<Step>, mid: State, step: Step)
    requires Leads(from, steps, mid) && Enabled(mid, step)
    ensures Leads(from, steps + [step], Next(mid, step))
  {
    assert (steps + [step])[..|steps|] == steps;
  }

  // ---------- the invariant ----------

  /** The records short enough for a buffer; `FixedBuffer::append` silently drops the others. */
  function Kept(records: Records): Records {
    if records == [] then []
    else
      var rest, r := Kept(records[..|records| - 1]), records[|records| - 1];
      if |r| < LARGE_BUFFER then rest + [r] else rest
  }

  lemma KeptGrows(records: Records, r: string)
    ensures Kept(records + [r]) == if |r| < LARGE_BUFFER then Kept(records) + [r] else Kept(records)
  {
    assert (records + [r])[..|records|] == records;
  }

  function Taken(s: State): seq<Records>
    requires s.phase.Writing? ==> s.phase.done <= |s.toWrite|
  {
    if s.phase.Writing? then s.toWrite[s.phase.done..] else []
  }

  /** All buffers with records still to keep, in the order they were filled. */
  function InOrder(s: State): seq<Records>
    requires s.phase.Writing? ==> s.phase.done <= |s.toWrite|
    requires s.current.Some?
  {
    s.file + Taken(s) + s.buffers + [s.current.value]
  }

  ghost predicate Spares(s: State) {
    && (s.next == None || s.next == Some([]))
    && (s.next == None ==> s.buffers != [])
    && match s.phase
       case Outside => s.spare1 == Some([]) && s.spare2 == Some([]) && s.toWrite == []
       case Writing(done) =>
         && done <= |s.toWrite| && s.toWrite != [] && s.spare1 == None
         && (s.spare2 == Some([]) || (s.spare2 == None && |s.toWrite| >= 2))
  }

  ghost predicate Inv(s: State) {
    && !s.broken && s.current.Some? && Spares(s)
    && |Bytes(s.current.value)| < LARGE_BUFFER
    && Flat(InOrder(s)) == Kept(s.appended)
  }

  lemma AppendKeeps(s: State, r: string)
    requires Inv(s)
    ensures Inv(Appended(s, r))
  {
    hide Flat, Bytes, Kept, InOrder, Taken;
    if Room(s.current.value, r) {
      RoomKeeps(s, r);
    } else {
      TurnKeeps(s, r);
    }
  }

  lemma RoomKeeps(s: State, r: string)
    requires Inv(s) && Room(s.current.value, r)
    ensures Inv(s.(appended := s.appended + [r], current := Some(s.current.value + [r])))
  {
    hide Flat, Bytes, Kept;
    KeptGrows(s.appended, r);
    BytesGrow(s.current.value, r);
    InCurrent(s.file + Taken(s) + s.buffers, s.current.value, r);
  }

  lemma TurnKeeps(s: State, r: string)
    requires Inv(s) && !Room(s.current.value, r)
    ensures Inv(s.(appended := s.appended + [r], buffers := s.buffers + [s.current.value],
                   current := Some(Add([], r)), next := None))
  {
    hide Flat, Bytes, Kept;
    KeptGrows(s.appended, r);
    NoBytes();
    BytesGrow([], r);
    InNext(s.file + Taken(s), s.buffers, s.current.value, Add([], r));
    assert Kept(s.appended) + [] == Kept(s.appended) && [] + [r] == [r];
  }

  lemma InCurrent(before: seq<Records>, current: Records, r: string)
    ensures Flat(before + [current + [r]]) == Flat(before + [current]) + [r]
  {
    FlatGrows(before, current);
    FlatGrows(before, current + [r]);
    assert Flat(before) + (current + [r]) == Flat(before) + current + [r];
  }

  lemma InNext(before: seq<Records>, buffers: seq<Records>, current: Records, added: Records)
    ensures Flat(before + (buffers + [current]) + [added]) == Flat(before + buffers + [current]) + added
  {
    assert before + (buffers + [current]) == before + buffers + [current];
    FlatGrows(before + buffers + [current], added);
  }

  lemma NoBytes()
    ensures Bytes([]) == "" && Flat<string>([]) == []
  {
  }

  lemma SwapOrder(file: seq<Records>, buffers: seq<Records>, current: Records)
    ensures Flat(file + (buffers + [current])[0..] + [] + [[]]) == Flat(file + [] + buffers + [current])
  {
    assert file + (buffers + [current])[0..] + [] == file + [] + buffers + [current];
    FlatGrows(file + [] + buffers + [current], []);
  }

  lemma MoveOne(file: seq<Records>, taken: seq<Records>, i: nat)
    requires i < |taken|
    ensures (file + [taken[i]]) + taken[i + 1..] == file + taken[i..]
  {
    assert taken[i..] == [taken[i]] + taken[i + 1..];
  }

  lemma BackEndKeeps(s: State, step: Step)
    requires Inv(s) && Enabled(s, step) && !step.Append?
    ensures Inv(Next(s, step))
  {
    NoBytes();
    hide Flat, Bytes, Kept;
    match step {
      case Swap =>
        SwapOrder(s.file, s.buffers, s.current.value);
      case WriteOne =>
        MoveOne(s.file, s.toWrite, s.phase.done);
      case Refill =>
        assert s.toWrite[|s.toWrite|..] == [];
    }
  }

  lemma Holds(s: State)
    requires Inv(s)
    ensures s.current.Some? && Spares(s)
  {
  }

  lemma StepKeeps(s: State, step: Step)
    requires Inv(s) && Enabled(s, step)
    ensures Inv(Next(s, step))
  {
    if step.Append? {
      AppendKeeps(s, step.r);
    } else {
      BackEndKeeps(s, step);
    }
  }

  lemma InitialHolds()
    ensures Inv(Initial)
  {
    NoBytes();
    var none: seq<Records> := [];
    FlatGrows(none, []);
    assert InOrder(Initial) == none + [[]];
  }

  lemma {:induction false} RunKeeps(from: State, steps: seq<Step>, to: State)
    requires Inv(from) && Leads(from, steps, to)
    ensures Inv(to)
    decreases |steps|
  {
    hide Inv, Next;
    if steps != [] {
      var n := |steps| - 1;
      RunKeeps(from, steps[..n], After(from, steps[..n]));
      StepKeeps(After(from, steps[..n]), steps[n]);
    }
  }

  /** Every interleaving of producers with the back end: no null buffer is used and no empty vector
      popped, and the buffers handed over, taken, full and current hold every record shorter than a
      buffer, once and in order. */
  lemma EveryRun(steps: seq<Step>)
    requires IsRun(Initial, steps)
    ensures var s := After(Initial, steps);
            && Inv(s) && !s.broken && s.current.Some?
            && (s.next.None? ==> s.buffers != [])
            && Flat(s.file + Taken(s) + s.buffers + [s.current.value]) == Kept(s.appended)
  {
    hide IsRun, After, Flat, Kept, Bytes;
    InitialHolds();
    RunKeeps(Initial, steps, After(Initial, steps));
  }

  /** What is lost is exactly the records that do not fit into an empty buffer. */
  lemma {:induction false} NothingDropped(records: Records)
    ensures Kept(records) == records <==> forall r :: r in records ==> |r| < 4000000
    ensures |Kept(records)| <= |records|
  {
    if records != [] {
      var rest, r := records[..|records| - 1], records[|records| - 1];
      NothingDropped(rest);
      assert records == rest + [r];
      if |r| < LARGE_BUFFER && Kept(records) == records {
        assert Kept(rest) == Kept(records)[..|rest|] == rest;
      }
    }
  }

  /** What the producers asked to log, in the order of their turns. */
  function Asked(steps: seq<Step>): Records {
    if steps == [] then []
    else Asked(steps[..|steps| - 1]) + match steps[|steps| - 1] case Append(r) => [r] case _ => []
  }

  lemma {:induction false} AppendedMeaning(steps: seq<Step>)
    requires IsRun(Initial, steps)
    ensures After(Initial, steps).appended == Asked(steps)
  {
    if steps != [] {
      var n := |steps| - 1;
      AppendedMeaning(steps[..n]);
      EveryRun(steps[..n]);
      hide Inv;
      AppendedStep(After(Initial, steps[..n]), steps[n]);
    }
  }

  lemma AppendedStep(s: State, step: Step)
    requires Enabled(s, step) && s.current.Some?
    ensures Next(s, step).appended == s.appended + match step case Append(r) => [r] case _ => []
  {
    hide Bytes;
    assert s.appended + [] == s.appended;
  }

  /** A record goes into the current buffer if that leaves it short of four million bytes; otherwise the
      buffer is full and the record goes into an empty one, unless it is itself that long. */
  lemma RotationMeaning(s: State, r: string)
    requires Inv(s)
    ensures var n := Appended(s, r);
            var fits := |Bytes(s.current.value)| + |r| < 4000000;
            && (fits ==> n.current == Some(s.current.value + [r]) && n.buffers == s.buffers && n.next == s.next)
            && (!fits ==> n.buffers == s.buffers + [s.current.value] && n.next == None
                          && n.current == Some(if |r| < 4000000 then [r] else []))
  {
    NoBytes();
    hide Flat, Kept, Bytes;
    assert [] + [r] == [r];
  }

  // ---------- one turn of the back end ----------

  lemma {:induction false} WriteAll(from: State, steps: seq<Step>, s: State) returns (all: seq<Step>)
    requires Leads(from, steps, s) && s.phase.Writing? && s.phase.done <= |s.toWrite|
    ensures Leads(from, all, s.(file := s.file + s.toWrite[s.phase.done..], phase := Writing(|s.toWrite|)))
    decreases |s.toWrite| - s.phase.done
  {
    hide Leads, Refilled, Swapped, Appended;
    if s.phase.done == |s.toWrite| {
      all := steps;
      assert s.file + s.toWrite[s.phase.done..] == s.file;
    } else {
      LeadsOne(from, steps, s, WriteOne);
      all := WriteAll(from, steps + [WriteOne], Next(s, WriteOne));
      MoveOne(s.file, s.toWrite, s.phase.done);
    }
  }

  /** From the lock on, one undisturbed turn of the back end hands every record appended so far to
      the file and leaves the front end with two empty buffers. */
  lemma OneTurnWritesAll(s: State) returns (steps: seq<Step>, end: State)
    requires Inv(s) && s.phase.Outside?
    ensures Leads(s, steps, end) && Inv(end)
    ensures end.phase.Outside? && Flat(end.file) == Kept(s.appended)
    ensures end.current == Some([]) && end.next == Some([]) && end.buffers == []
  {
    hide Flat, Kept, Bytes;
    var swapped := Next(s, Swap);
    var written := swapped.(file := s.file + swapped.toWrite[0..], phase := Writing(|swapped.toWrite|));
    end := Next(written, Refill);
    steps := TurnSteps(s);
    RunKeeps(s, steps, end);
    assert end.file + [] + [] + [[]] == end.file + [[]];
    FlatGrows(end.file, []);
  }

  lemma TurnSteps(s: State) returns (steps: seq<Step>)
    requires Inv(s) && s.phase.Outside?
    ensures var swapped := Next(s, Swap);
            && Enabled(swapped.(file := s.file + swapped.toWrite[0..], phase := Writing(|swapped.toWrite|)), Refill)
            && Leads(s, steps, Next(swapped.(file := s.file + swapped.toWrite[0..], phase := Writing(|swapped.toWrite|)),
                                    Refill))
  {
    assert Leads(s, [], s);
    hide Leads, Flat, Kept, Bytes, InOrder;
    LeadsOne(s, [], s, Swap);
    var swapped := Next(s, Swap);
    steps := WriteAll(s, [] + [Swap], swapped);
    LeadsOne(s, steps, swapped.(file := s.file + swapped.toWrite[0..], phase := Writing(|swapped.toWrite|)), Refill);
    steps := steps + [Refill];
  }

  // ---------- the objects ----------

  /** A buffer of fixed size, part of its object; `records` is the history of what is in it. */
  class FixedBuffer {
    var data: string
    var cur: nat
    ghost var records: Records

    ghost predicate Valid()
      reads this
    {
      |data| == LARGE_BUFFER && cur <= |data| && data[..cur] == Bytes(records)
    }

    constructor ()
      ensures Valid() && records == []
    {
      data, cur, records := seq(LARGE_BUFFER, _ => '\0'), 0, [];
    }

    function Avail(): int
      requires Valid()
      reads this
      ensures Avail() == LARGE_BUFFER - |Bytes(records)|
    {
      assert |data[..cur]| == cur;
      LARGE_BUFFER - cur
    }

    /** Too long a text is dropped without a word; the rest of the buffer stays as it is. */
    method Append(text: string)
      requires Valid()
      modifies this
      ensures Valid() && records == Add(old(records), text)
      ensures cur == old(cur) + (if Room(old(records), text) then |text| else 0)
    {
      if Avail() > |text| {
        BytesGrow(records, text);
        data := data[..cur] + text + data[cur + |text|..];
        cur := cur + |text|;
        records := records + [text];
      }
    }

    method Reset()
      requires Valid()
      modifies this
      ensures Valid() && records == []
    {
      cur, records := 0, [];
    }
  }

  ghost function RecordsIn(b: FixedBuffer?): Option<Records>
    reads b
  {
    if b == null then None else Some(b.records)
  }

  ghost function AllRecords(bs: seq<FixedBuffer>): (all: seq<Records>)
    reads bs
    ensures |all| == |bs|
    ensures forall i :: 0 <= i < |bs| ==> all[i] == bs[i].records
  {
    if bs == [] then [] else AllRecords(bs[..|bs| - 1]) + [bs[|bs| - 1].records]
  }

  ghost predicate Apart(b: FixedBuffer?, c: FixedBuffer?) {
    b == null || b != c
  }

  ghost predicate AllApart(bs: seq<FixedBuffer>) {
    forall i, j :: 0 <= i < j < |bs| ==> bs[i] != bs[j]
  }

  /** The front end's fields and the back end's locals; each buffer has one owner. */
  class AsyncLogging {
    var currentBuffer: FixedBuffer?
    var nextBuffer: FixedBuffer?
    var buffers: seq<FixedBuffer>
    var newBuffer1: FixedBuffer?
    var newBuffer2: FixedBuffer?
    var buffersToWrite: seq<FixedBuffer>
    ghost var phase: Phase
    ghost var file: seq<Records>
    ghost var appended: Records

    ghost function Model(): State
      reads this, currentBuffer, nextBuffer, newBuffer1, newBuffer2, buffers, buffersToWrite
    {
      State(RecordsIn(currentBuffer), RecordsIn(nextBuffer), AllRecords(buffers),
            RecordsIn(newBuffer1), RecordsIn(newBuffer2), AllRecords(buffersToWrite),
            phase, file, appended, false)
    }

    ghost predicate Free(b: FixedBuffer?)
      reads this, b
    {
      b == null || (b !in buffers && b !in buffersToWrite && b.Valid())
    }

    /** No buffer is held twice. */
    ghost predicate Sole()
      reads this, currentBuffer, nextBuffer, newBuffer1, newBuffer2, buffers, buffersToWrite
    {
      && Free(currentBuffer) && Free(nextBuffer) && Free(newBuffer1) && Free(newBuffer2)
      && Apart(currentBuffer, nextBuffer) && Apart(currentBuffer, newBuffer1) && Apart(currentBuffer, newBuffer2)
      && Apart(nextBuffer, newBuffer1) && Apart(nextBuffer, newBuffer2) && Apart(newBuffer1, newBuffer2)
      && AllApart(buffers) && AllApart(buffersToWrite)
      && (forall b :: b in buffers ==> b !in buffersToWrite && b.Valid())
      && (forall b :: b in buffersToWrite ==> b.Valid())
    }

    ghost predicate Valid()
      reads this, currentBuffer, nextBuffer, newBuffer1, newBuffer2, buffers, buffersToWrite
    {
      Sole() && Inv(Model())
    }

    constructor ()
      ensures Valid() && Model() == Initial
    {
      currentBuffer := new FixedBuffer();
      nextBuffer := new FixedBuffer();
      newBuffer1 := new FixedBuffer();
      newBuffer2 := new FixedBuffer();
      buffers, buffersToWrite := [], [];
      phase, file, appended := Outside, [], [];
      new;
      InitialHolds();
      hide Inv, FixedBuffer.Valid;
      assert Model() == Initial;
    }

    method AppendHere(logline: string)
      requires Sole() && currentBuffer != null
      modifies currentBuffer
      ensures Sole()
      ensures Model() == old(Model()).(current := Some(Add(old(currentBuffer.records), logline)))
    {
      hide FixedBuffer.Valid;
      currentBuffer.Append(logline);
    }

    /** `buffers_.push_back(std::move(currentBuffer_))`: the pointer is null until it is refilled. */
    method PushCurrent()
      requires Sole() && currentBuffer != null
      modifies this`currentBuffer, this`buffers
      ensures Sole() && currentBuffer == null
      ensures buffers == old(buffers) + [old(currentBuffer)]
      ensures Model() == old(Model()).(current := None, buffers := old(Model()).buffers + [old(currentBuffer.records)])
    {
      hide AllRecords, AllApart, Sole, Model;
      buffers, currentBuffer := buffers + [currentBuffer], null;
      PushedModel();
      PushedIsSole();
    }

    twostate lemma PushedModel()
      requires old(currentBuffer) != null && currentBuffer == null
      requires buffers == old(buffers) + [old(currentBuffer)]
      requires unchanged(this`nextBuffer, this`newBuffer1, this`newBuffer2, this`buffersToWrite)
      requires unchanged(this`phase, this`file, this`appended)
      requires unchanged(old(currentBuffer), old(buffers), buffersToWrite)
      requires nextBuffer != null ==> unchanged(nextBuffer)
      requires newBuffer1 != null ==> unchanged(newBuffer1)
      requires newBuffer2 != null ==> unchanged(newBuffer2)
      ensures Model() == old(Model()).(current := None, buffers := old(Model()).buffers + [old(currentBuffer.records)])
    {
      AllGrows(old(buffers), old(currentBuffer));
      hide AllRecords;
    }

    twostate lemma PushedIsSole()
      requires old(Sole()) && old(currentBuffer) != null && currentBuffer == null
      requires buffers == old(buffers) + [old(currentBuffer)]
      requires unchanged(this`nextBuffer, this`newBuffer1, this`newBuffer2, this`buffersToWrite)
      requires unchanged(old(currentBuffer), old(buffers), buffersToWrite)
      requires nextBuffer != null ==> unchanged(nextBuffer)
      requires newBuffer1 != null ==> unchanged(newBuffer1)
      requires newBuffer2 != null ==> unchanged(newBuffer2)
      ensures Sole()
    {
      ApartGrows(old(buffers), old(currentBuffer));
      hide FixedBuffer.Valid, AllApart;
    }

    method TakeNext()
      requires Sole() && currentBuffer == null
      modifies this`currentBuffer, this`nextBuffer
      ensures Sole() && currentBuffer != null && nextBuffer == null
      ensures if old(nextBuffer) == null then fresh(currentBuffer) else currentBuffer == old(nextBuffer)
      ensures Model() == old(Model()).(
                next := None, current := Some(if old(nextBuffer) == null then [] else old(nextBuffer.records)))
    {
      hide FixedBuffer.Valid, AllRecords;
      if nextBuffer != null {
        currentBuffer := nextBuffer;
        nextBuffer := null;
      } else {
        currentBuffer := new FixedBuffer();
      }
    }

    /** One record, under the lock. */
    method Append(logline: string)
      requires Valid()
      modifies this`currentBuffer, this`nextBuffer, this`buffers, this`appended, currentBuffer, nextBuffer
      ensures Valid() && Model() == Next(old(Model()), Step.Append(logline))
    {
      hide Inv, Bytes, Sole, FixedBuffer.Valid, AllRecords;
      StepKeeps(Model(), Step.Append(logline));
      Holds(Model());
      var fits := CurrentFits(logline);
      Note(logline);
      if fits {
        AppendHere(logline);
      } else {
        PushCurrent();
        TakeNext();
        AppendHere(logline);
      }
    }

    /** The back end's critical section; a timed wait may precede it, so nothing is said about
        `buffers_`. */
    method Swap()
      requires Valid() && phase.Outside?
      modifies this`currentBuffer, this`nextBuffer, this`buffers, this`newBuffer1, this`newBuffer2,
               this`buffersToWrite, this`phase
      ensures Valid() && Model() == Next(old(Model()), Step.Swap)
    {
      hide Inv, Bytes, Sole, FixedBuffer.Valid, AllRecords;
      StepKeeps(Model(), Step.Swap);
      Holds(Model());
      PushCurrent();
      Exchange();
      GiveNext();
    }

    method GiveNext()
      requires Sole()
      modifies this`nextBuffer, this`newBuffer2, this`phase
      ensures Sole()
      ensures var m := old(Model());
              Model() == m.(next := if m.next.None? then m.spare2 else m.next,
                            spare2 := if m.next.None? then None else m.spare2, phase := Writing(0))
    {
      hide AllRecords, AllApart, FixedBuffer.Valid;
      if nextBuffer == null {
        nextBuffer, newBuffer2 := newBuffer2, null;
      }
      phase := Writing(0);
    }

    ghost method Note(logline: string)
      requires Sole()
      modifies this`appended
      ensures Sole() && Model() == old(Model()).(appended := old(appended) + [logline])
    {
      hide AllRecords, AllApart, FixedBuffer.Valid;
      appended := appended + [logline];
    }

    method CurrentFits(logline: string) returns (fits: bool)
      requires Sole() && currentBuffer != null
      ensures fits == Room(currentBuffer.records, logline)
    {
      hide Bytes;
      fits := currentBuffer.Avail() > |logline|;
    }

    method Exchange()
      requires Sole() && currentBuffer == null
      modifies this`currentBuffer, this`newBuffer1, this`buffers, this`buffersToWrite
      ensures Sole()
      ensures var m := old(Model());
              Model() == m.(current := m.spare1, spare1 := None, buffers := m.toWrite, toWrite := m.buffers)
    {
      hide AllRecords, AllApart, FixedBuffer.Valid;
      currentBuffer, newBuffer1 := newBuffer1, null;
      buffersToWrite, buffers := buffers, buffersToWrite;
    }

    /** The next buffer goes to the file. */
    method WriteOne()
      requires Valid() && phase.Writing? && phase.done < |buffersToWrite|
      modifies this`phase, this`file
      ensures Valid() && Model() == Next(old(Model()), Step.WriteOne)
    {
      hide Inv, Bytes, FixedBuffer.Valid, AllRecords, AllApart;
      StepKeeps(Model(), Step.WriteOne);
      file := file + [buffersToWrite[phase.done].records];
      phase := Writing(phase.done + 1);
    }

    /** Takes the last written buffer back, emptied. */
    method PopReset() returns (b: FixedBuffer)
      requires Sole() && buffersToWrite != []
      modifies this`buffersToWrite, buffersToWrite
      ensures Sole() && Free(b) && b.records == []
      ensures Apart(currentBuffer, b) && Apart(nextBuffer, b) && Apart(newBuffer1, b) && Apart(newBuffer2, b)
      ensures b !in buffers && buffersToWrite == old(buffersToWrite)[..|old(buffersToWrite)| - 1]
      ensures Model() == old(Model()).(toWrite := Model().toWrite)
    {
      hide FixedBuffer.Valid, AllRecords;
      b := buffersToWrite[|buffersToWrite| - 1];
      assert b in buffersToWrite;
      buffersToWrite := buffersToWrite[..|buffersToWrite| - 1];
      b.Reset();
    }

    method Trim(count: nat)
      requires Sole()
      modifies this`buffersToWrite
      ensures Sole() && Model() == old(Model()).(toWrite := Model().toWrite)
      ensures buffersToWrite == if |old(buffersToWrite)| > count then old(buffersToWrite)[..count] else old(buffersToWrite)
    {
      hide FixedBuffer.Valid, AllRecords;
      if |buffersToWrite| > count {
        buffersToWrite := buffersToWrite[..count];
      }
    }

    method RefillFirst()
      requires Sole() && (newBuffer1 == null ==> buffersToWrite != [])
      modifies this`newBuffer1, this`buffersToWrite, buffersToWrite
      ensures Sole()
      ensures buffersToWrite == if old(newBuffer1) == null then old(buffersToWrite)[..|old(buffersToWrite)| - 1]
                                else old(buffersToWrite)
      ensures Model() == old(Model()).(
                spare1 := if old(newBuffer1) == null then Some([]) else old(Model()).spare1, toWrite := Model().toWrite)
    {
      hide FixedBuffer.Valid, AllRecords, AllApart;
      if newBuffer1 == null {
        newBuffer1 := PopReset();
      }
    }

    method RefillSecond()
      requires Sole() && (newBuffer2 == null ==> buffersToWrite != [])
      modifies this`newBuffer2, this`buffersToWrite, buffersToWrite
      ensures Sole()
      ensures Model() == old(Model()).(
                spare2 := if old(newBuffer2) == null then Some([]) else old(Model()).spare2, toWrite := Model().toWrite)
    {
      hide FixedBuffer.Valid, AllRecords, AllApart;
      if newBuffer2 == null {
        newBuffer2 := PopReset();
      }
    }

    /** Keeps two of the written buffers at most and refills the spares from their end; popping is
        safe although nothing is checked. */
    method Refill()
      requires Valid() && phase == Writing(|buffersToWrite|)
      modifies this`phase, this`newBuffer1, this`newBuffer2, this`buffersToWrite, buffersToWrite
      ensures Valid() && Model() == Next(old(Model()), Step.Refill)
    {
      hide Inv, Bytes, Sole, FixedBuffer.Valid, AllRecords;
      StepKeeps(Model(), Step.Refill);
      Holds(Model());
      Trim(2);
      RefillFirst();
      RefillSecond();
      Leave();
    }

    method Leave()
      requires Sole()
      modifies this`phase, this`buffersToWrite
      ensures Sole() && Model() == old(Model()).(toWrite := [], phase := Outside)
    {
      hide FixedBuffer.Valid, AllRecords;
      buffersToWrite := [];
      phase := Outside;
    }
  }

  lemma ApartGrows(bs: seq<FixedBuffer>, b: FixedBuffer)
    requires AllApart(bs) && b !in bs
    ensures AllApart(bs + [b])
    ensures forall c :: c in bs + [b] <==> c in bs || c == b
  {
  }

  lemma AllGrows(bs: seq<FixedBuffer>, b: FixedBuffer)
    ensures AllRecords(bs + [b]) == AllRecords(bs) + [b.records]
  {
    assert (bs + [b])[..|bs|] == bs;
  }
}
