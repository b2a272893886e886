/** The growing byte buffer of the network library (src/muduo_core/Buffer.h, Buffer.cc):
    a byte queue stored in one array behind a prepend area. */
module Buffers {
  import opened Text

  const CHEAP_PREPEND: nat := 8
  const EXTRA_BUF: nat := 65536
  const INITIAL_SIZE: nat := 1024 * 1024

  class Buffer {
    var data: array<char>
    var readerIndex: nat
    var writerIndex: nat

    ghost predicate Valid()
      reads this
    {
      CHEAP_PREPEND <= readerIndex <= writerIndex <= data.Length
    }

    /** The bytes the buffer holds, oldest first. */
    function Readable(): string
      requires Valid()
      reads this, data
    {
      data[readerIndex..writerIndex]
    }

    function ReadableBytes(): nat
      requires Valid()
      reads this
    {
      writerIndex - readerIndex
    }

    function WritableBytes(): nat
      requires Valid()
      reads this
    {
      data.Length - writerIndex
    }

    /** The most one scatter read can deliver: the spill area is used only when it is the larger. */
    function ReadLimit(): nat
      requires Valid()
      reads this
    {
      WritableBytes() + (if WritableBytes() < EXTRA_BUF then EXTRA_BUF else 0)
    }

    constructor (initialSize: nat)
      ensures Valid() && fresh(data)
      ensures Readable() == "" && WritableBytes() == initialSize
    {
      data := new char[CHEAP_PREPEND + initialSize];
      readerIndex, writerIndex := CHEAP_PREPEND, CHEAP_PREPEND;
    }

    /** Asking for more than there is empties the buffer. */
    method Retrieve(len: nat)
      requires Valid()
      modifies this
      ensures Valid() && data == old(data)
      ensures Readable() == if len < |old(Readable())| then old(Readable())[len..] else ""
    {
      if len < ReadableBytes() {
        readerIndex := readerIndex + len;
      } else {
        RetrieveAll();
      }
    }

    method RetrieveAll()
      requires Valid()
      modifies this
      ensures Valid() && data == old(data)
      ensures Readable() == ""
    {
      readerIndex, writerIndex := CHEAP_PREPEND, CHEAP_PREPEND;
    }

    /** `end` is a position relative to the first readable byte. */
    method RetrieveUntil(end: nat)
      requires Valid() && end <= ReadableBytes()
      modifies this
      ensures Valid() && data == old(data)
      ensures Readable() == old(Readable())[end..]
    {
      Retrieve(end);
    }

    method RetrieveAsString(len: nat) returns (result: string)
      requires Valid()
      modifies this
      ensures Valid() && data == old(data)
      ensures result + Readable() == old(Readable())
      ensures |result| == if len < |old(Readable())| then len else |old(Readable())|
    {
      var n := if len > ReadableBytes() then ReadableBytes() else len;
      result := data[readerIndex..readerIndex + n];
      Retrieve(n);
    }

    /** Makes `len` bytes writable by growing the array or by sliding the contents down over the
        bytes already read; source and destination of the slide overlap. */
    method MakeSpace(len: nat)
      requires Valid() && WritableBytes() < len
      modifies this, data
      ensures Valid() && (data == old(data) || fresh(data))
      ensures Readable() == old(Readable()) && len <= WritableBytes()
      ensures data == old(data) <==> len + 8 <= old(WritableBytes()) + old(readerIndex)
    {
      if WritableBytes() + readerIndex < len + CHEAP_PREPEND {
        var grown := new char[writerIndex + len];
        forall i | 0 <= i < data.Length {
          grown[i] := data[i];
        }
        data := grown;
      } else {
        SlideDown();
      }
    }

    method SlideDown()
      requires Valid()
      modifies this`readerIndex, this`writerIndex, data
      ensures Valid() && data == old(data) && readerIndex == CHEAP_PREPEND
      ensures Readable() == old(Readable())
    {
      var readable := ReadableBytes();
      CopyDown(data, CHEAP_PREPEND, readerIndex - CHEAP_PREPEND, readable);
      readerIndex := CHEAP_PREPEND;
      writerIndex := readerIndex + readable;
    }

    method EnsureWritableBytes(len: nat)
      requires Valid()
      modifies this, data
      ensures Valid() && (data == old(data) || fresh(data))
      ensures Readable() == old(Readable()) && len <= WritableBytes()
    {
      if WritableBytes() < len {
        MakeSpace(len);
      }
    }

    method Append(text: string)
      requires Valid()
      modifies this, data
      ensures Valid() && (data == old(data) || fresh(data))
      ensures Readable() == old(Readable()) + text
    {
      EnsureWritableBytes(|text|);
      AppendInPlace(text);
    }

    /** Writes behind the readable bytes, where there is room, and takes the bytes in. */
    method AppendInPlace(text: string)
      requires Valid() && |text| <= WritableBytes()
      modifies this`writerIndex, data
      ensures Valid() && Readable() == old(Readable()) + text
      ensures writerIndex == old(writerIndex) + |text|
    {
      forall i | 0 <= i < |text| {
        data[writerIndex + i] := text[i];
      }
      assert data[readerIndex..writerIndex] == old(Readable());
      assert data[writerIndex..writerIndex + |text|] == text;
      writerIndex := writerIndex + |text|;
    }

    /** One scatter read: `incoming` is what the kernel delivers, `None` a failed call. Bytes that
        do not fit behind the readable ones land in a spill area on the stack and are appended. */
    method ReadFd(incoming: Option<string>) returns (n: int)
      requires Valid()
      requires incoming.Some? ==> |incoming.value| <= ReadLimit()
      modifies this, data
      ensures Valid() && (data == old(data) || fresh(data))
      ensures n == if incoming.Some? then |incoming.value| else -1
      ensures Readable() == old(Readable()) + (if incoming.Some? then incoming.value else "")
    {
      if incoming.None? {
        return -1;
      }
      var bytes := incoming.value;
      var writable := WritableBytes();
      n := |bytes|;
      if n <= writable {
        AppendInPlace(bytes);
      } else {
        AppendInPlace(bytes[..writable]);
        assert writerIndex == data.Length;
        Append(bytes[writable..]);
        assert bytes == bytes[..writable] + bytes[writable..];
      }
    }

    /** Position of the first line break, relative to the first readable byte. */
    method FindCRLF() returns (r: Option<nat>)
      requires Valid()
      ensures r == Find(Readable(), CRLF, 0)
      ensures r.Some? ==> OccursAt(Readable(), CRLF, r.value)
                          && forall k :: 0 <= k < r.value ==> !OccursAt(Readable(), CRLF, k)
      ensures r.None? ==> forall k :: 0 <= k ==> !OccursAt(Readable(), CRLF, k)
    {
      FindMeans(Readable(), CRLF, 0);
      r := Search(CRLF);
    }

    /** `std::search` over the readable bytes. */
    method Search(p: string) returns (r: Option<nat>)
      requires Valid()
      ensures r == Find(Readable(), p, 0)
    {
      hide Find;
      var k := 0;
      while k + |p| <= ReadableBytes()
        invariant k == 0 || k + |p| <= ReadableBytes() + 1
        invariant Find(Readable(), p, 0) == Find(Readable(), p, k)
      {
        FindStep(Readable(), p, k);
        Within(data[..], readerIndex, writerIndex, k, |p|);
        if data[readerIndex + k..readerIndex + k + |p|] == p {
          return Some(k);
        }
        k := k + 1;
      }
      FindStep(Readable(), p, k);
      r := None;
    }
  }

  lemma FindStep(s: string, p: string, k: nat)
    ensures Find(s, p, k) == if k + |p| > |s| then None else if s[k..k + |p|] == p then Some(k) else Find(s, p, k + 1)
  {
  }

  /** `std::copy` of `count` bytes down by `shift`: source and destination overlap, and copying
      upwards from the first byte is what makes it work. */
  method CopyDown(data: array<char>, at: nat, shift: nat, count: nat)
    requires at + shift + count <= data.Length
    modifies data
    ensures data[at..at + count] == old(data[at + shift..at + shift + count])
  {
    ghost var before := data[..];
    NothingSlid(before, at, shift);
    hide Slid;
    var i := 0;
    while i < count
      invariant i <= count
      invariant Slid(before, data[..], at, shift, i)
    {
      OneSlid(before, data[..], at, shift, i);
      ghost var next := data[..][at + i := data[at + shift + i]];
      data[at + i] := data[at + shift + i];
      assert data[..] == next;
      i := i + 1;
    }
    AllSlid(before, data[..], at, shift, count);
    assert data[..][at..at + count] == data[at..at + count];
    assert before[at + shift..at + shift + count] == old(data[at + shift..at + shift + count]);
  }

  lemma NothingSlid(before: string, at: nat, shift: nat)
    requires at + shift <= |before|
    ensures Slid(before, before, at, shift, 0)
  {
  }

  /** The first `n` bytes at `at + shift` have been copied down to `at`, one after the other. */
  ghost predicate Slid(before: string, after: string, at: nat, shift: nat, n: nat)
    requires |before| == |after| && at + shift + n <= |before|
  {
    && (forall k :: at <= k < at + n ==> after[k] == before[k + shift])
    && (forall k :: 0 <= k < |after| && !(at <= k < at + n) ==> after[k] == before[k])
  }

  lemma OneSlid(before: string, after: string, at: nat, shift: nat, n: nat)
    requires |before| == |after| && at + shift + n < |before|
    requires Slid(before, after, at, shift, n)
    ensures Slid(before, after[at + n := after[at + shift + n]], at, shift, n + 1)
  {
    assert after[at + shift + n] == before[at + shift + n];
  }

  lemma AllSlid(before: string, after: string, at: nat, shift: nat, n: nat)
    requires |before| == |after| && at + shift + n <= |before|
    requires Slid(before, after, at, shift, n)
    ensures after[at..at + n] == before[at + shift..at + shift + n]
  {
    var moved, origin := after[at..at + n], before[at + shift..at + shift + n];
    forall i | 0 <= i < n ensures moved[i] == origin[i] {
      assert moved[i] == after[at + i];
    }
  }

  lemma Within(s: string, first: nat, last: nat, k: nat, n: nat)
    requires first <= last <= |s| && first + k + n <= last
    ensures s[first..last][k..k + n] == s[first + k..first + k + n]
  {
    var whole, part := s[first..last][k..k + n], s[first + k..first + k + n];
    assert |whole| == |part| == n;
    forall i | 0 <= i < n ensures whole[i] == part[i] {
      assert whole[i] == s[first..last][k + i] == s[first + (k + i)];
      assert part[i] == s[first + k + i];
    }
  }

  // ---------- every run of operations is a run of a queue ----------

  datatype Op =
    | Push(text: string)
    | Scatter(bytes: string)
    | Drop(len: nat)
    | Take(len: nat)
    | DropLine

  function Cap(len: nat, queue: string): nat {
    if len < |queue| then len else |queue|
  }

  /** One operation on the abstract queue: what is left, and what the caller receives. */
  function QueueStep(queue: string, op: Op): (string, string) {
    match op
    case Push(text) => (queue + text, "")
    case Scatter(bytes) => (queue + bytes, "")
    case Drop(len) => (queue[Cap(len, queue)..], "")
    case Take(len) => (queue[Cap(len, queue)..], queue[..Cap(len, queue)])
    case DropLine =>
      var r := Find(queue, CRLF, 0);
      if r.Some? then (queue[r.value + 2..], "") else (queue, "")
  }

  /** The queue and everything taken out of it after a run. */
  function QueueRun(ops: seq<Op>): (string, string) {
    if ops == [] then ("", "")
    else
      var (queue, taken) := QueueRun(ops[..|ops| - 1]);
      var (next, out) := QueueStep(queue, ops[|ops| - 1]);
      (next, taken + out)
  }

  /** Bytes that arrive are read with as many scatter reads as it takes, each delivering all that
      fits the tail and the spill area together. */
  method Pour(buffer: Buffer, bytes: string)
    requires buffer.Valid()
    modifies buffer, buffer.data
    ensures buffer.Valid() && (buffer.data == old(buffer.data) || fresh(buffer.data))
    ensures buffer.Readable() == old(buffer.Readable()) + bytes
  {
    var i := 0;
    assert old(buffer.Readable()) + bytes[..0] == old(buffer.Readable());
    while i < |bytes|
      invariant i <= |bytes| && buffer.Valid()
      invariant buffer.data == old(buffer.data) || fresh(buffer.data)
      invariant buffer.Readable() == old(buffer.Readable()) + bytes[..i]
    {
      var n := if |bytes| - i < buffer.ReadLimit() then |bytes| - i else buffer.ReadLimit();
      var got := buffer.ReadFd(Some(bytes[i..i + n]));
      Pieces(old(buffer.Readable()), bytes, i, n);
      i := i + n;
    }
    assert bytes[..i] == bytes;
  }

  lemma Pieces(front: string, bytes: string, i: nat, n: nat)
    requires i + n <= |bytes|
    ensures (front + bytes[..i]) + bytes[i..i + n] == front + bytes[..i + n]
  {
  }

  /** One call: what it hands out and what it leaves are those of the queue. */
  method Perform(buffer: Buffer, op: Op) returns (out: string)
    requires buffer.Valid()
    modifies buffer, buffer.data
    ensures buffer.Valid() && (buffer.data == old(buffer.data) || fresh(buffer.data))
    ensures (buffer.Readable(), out) == QueueStep(old(buffer.Readable()), op)
  {
    hide Find;
    out := "";
    match op {
      case Push(text) =>
        buffer.Append(text);
      case Scatter(bytes) =>
        Pour(buffer, bytes);
      case Drop(len) =>
        ghost var queue := buffer.Readable();
        buffer.Retrieve(len);
        assert queue[|queue|..] == "";
      case Take(len) =>
        ghost var queue := buffer.Readable();
        out := buffer.RetrieveAsString(len);
        assert out == queue[..|out|] && buffer.Readable() == queue[|out|..];
      case DropLine =>
        var r := buffer.FindCRLF();
        if r.Some? {
          buffer.RetrieveUntil(r.value + 2);
        }
    }
  }

  /** Any sequence of calls on a fresh buffer returns what the queue returns and leaves what the
      queue holds, growing, compacting and spilling as it must. */
  method Replay(ops: seq<Op>, initialSize: nat) returns (buffer: Buffer, taken: string)
    ensures buffer.Valid() && fresh(buffer) && fresh(buffer.data)
    ensures (buffer.Readable(), taken) == QueueRun(ops)
  {
    buffer := new Buffer(initialSize);
    taken := "";
    for i := 0 to |ops|
      invariant buffer.Valid() && fresh(buffer) && fresh(buffer.data)
      invariant (buffer.Readable(), taken) == QueueRun(ops[..i])
    {
      assert ops[..i + 1][..i] == ops[..i];
      hide QueueStep;
      var out := Perform(buffer, ops[i]);
      taken := taken + out;
    }
    assert ops[..|ops|] == ops;
  }

  /** Conservation: when nothing is dropped, the bytes taken out followed by the bytes still queued
      are the bytes put in. */
  lemma {:induction false} QueueConserves(ops: seq<Op>)
    requires forall op | op in ops :: op.Push? || op.Scatter? || op.Take?
    ensures QueueRun(ops).1 + QueueRun(ops).0 == Pushed(ops)
  {
    if ops != [] {
      QueueConserves(ops[..|ops| - 1]);
      var (queue, taken) := QueueRun(ops[..|ops| - 1]);
      var op := ops[|ops| - 1];
      if op.Take? {
        var n := Cap(op.len, queue);
        assert taken + queue[..n] + queue[n..] == taken + queue;
        assert (taken + queue) + "" == taken + queue;
      } else {
        var text := if op.Push? then op.text else op.bytes;
        assert taken + "" + (queue + text) == (taken + queue) + text;
      }
    }
  }

  function Pushed(ops: seq<Op>): string {
    if ops == [] then ""
    else
      var op := ops[|ops| - 1];
      Pushed(ops[..|ops| - 1]) + (if op.Push? then op.text else if op.Scatter? then op.bytes else "")
  }
}
