/**
 The growable byte queue of Buffer.h and Buffer.cc: one vector with a read and a write index.

     +-------------------+------------------+------------------+
     | prependable bytes |  readable bytes  |  writable bytes  |
     +-------------------+------------------+------------------+
     0      <=      reader      <=       writer      <=      size
 */
module ByteBuffer {
  import opened NetworkOrder

  const CHEAP_PREPEND: nat := 8
  const INITIAL_SIZE: nat := 1024
  const EXTRA_BUFFER: nat := 65536

  /** What `readv` did: it failed, or it filled the segments it was given with some bytes. */
  datatype ReadResult = ReadFailed(errno: int) | Delivered(bytes: seq<byte>)

  // ---------------------------------------------------------------- sizes and indices

  /** The size of the vector and the two indices, without the bytes. */
  datatype Shape = Shape(size: nat, reader: nat, writer: nat) {
    predicate Valid() {
      CHEAP_PREPEND <= size && reader <= writer <= size
    }

    function Readable(): nat
      requires Valid()
    {
      writer - reader
    }

    function Writable(): nat
      requires Valid()
    {
      size - writer
    }

    /** After `ensureWritableBytes(len)`: as before, grown, or moved down to the front. */
    function WithRoom(len: nat): (s: Shape)
      requires Valid()
      ensures s.Valid() && s.Readable() == Readable() && s.Writable() >= len
      ensures s.reader == reader || s.reader == CHEAP_PREPEND < reader  // the prepend area stays
    {
      if len <= Writable() then this
      else if Writable() + reader < len + CHEAP_PREPEND then this.(size := writer + len)
      else Shape(size, CHEAP_PREPEND, CHEAP_PREPEND + Readable())
    }

    function Appended(len: nat): (s: Shape)
      requires Valid()
      ensures s.Valid() && s.Readable() == Readable() + len
    {
      var s := WithRoom(len);
      s.(writer := s.writer + len)
    }

    function Retrieved(len: nat): (s: Shape)
      requires Valid() && len <= Readable()
      ensures s.Valid() && s.Readable() == Readable() - len
      ensures len == Readable() ==> s.Writable() == size - CHEAP_PREPEND  // all room is free again
    {
      if len < Readable() then this.(reader := reader + len) else Shape(size, CHEAP_PREPEND, CHEAP_PREPEND)
    }

    function Unwritten(len: nat): (s: Shape)
      requires Valid() && len <= Readable()
      ensures s.Valid() && s.Readable() == Readable() - len
    {
      this.(writer := writer - len)
    }

    function Prepended(len: nat): (s: Shape)
      requires Valid() && len <= reader
      ensures s.Valid() && s.Readable() == Readable() + len
    {
      this.(reader := reader - len)
    }

    function Received(n: nat): (s: Shape)
      requires Valid()
      ensures s.Valid() && s.Readable() == Readable() + n
    {
      if n <= Writable() then this.(writer := writer + n)
      else this.(writer := size).Appended(n - Writable())
    }

    function Shrunk(reserve: nat): (s: Shape)
      requires Valid()
      ensures s.Valid() && s.Readable() == Readable() && s.reader == CHEAP_PREPEND
      ensures s.size == CHEAP_PREPEND + if Readable() + reserve <= INITIAL_SIZE then INITIAL_SIZE else Readable() + reserve
    {
      Shape(CHEAP_PREPEND + INITIAL_SIZE, CHEAP_PREPEND, CHEAP_PREPEND)
        .WithRoom(Readable() + reserve).Appended(Readable())
    }
  }

  // ---------------------------------------------------------------- the buffer

  class Buffer {
    var data: array<byte>
    var reader: nat
    var writer: nat

    ghost predicate Valid()
      reads this
    {
      CHEAP_PREPEND <= data.Length && reader <= writer <= data.Length
    }

    /** The readable bytes: the queue that this buffer stands for. */
    ghost function Contents(): seq<byte>
      requires Valid()
      reads this, data
    {
      data[reader..writer]
    }

    ghost function GetShape(): (s: Shape)
      requires Valid()
      reads this
      ensures s.Valid()
    {
      Shape(data.Length, reader, writer)
    }

    constructor (initialSize: nat := INITIAL_SIZE)
      ensures Valid() && fresh(data)
      ensures Contents() == []
      ensures GetShape() == Shape(8 + initialSize, 8, 8)
    {
      data := new byte[CHEAP_PREPEND + initialSize](_ => 0);
      reader := CHEAP_PREPEND;
      writer := CHEAP_PREPEND;
    }

    method Swap(rhs: Buffer)
      requires Valid() && rhs.Valid()
      modifies this, rhs
      ensures data == old(rhs.data) && reader == old(rhs.reader) && writer == old(rhs.writer)
      ensures rhs.data == old(data) && rhs.reader == old(reader) && rhs.writer == old(writer)
    {
      var d, r, w := data, reader, writer;
      data, reader, writer := rhs.data, rhs.reader, rhs.writer;
      rhs.data, rhs.reader, rhs.writer := d, r, w;
    }

    method ReadableBytes() returns (n: nat)
      requires Valid()
      ensures n == |Contents()|
    {
      n := writer - reader;
    }

    method WritableBytes() returns (n: nat)
      requires Valid()
      ensures n == GetShape().Writable()
    {
      n := data.Length - writer;
    }

    /** The first `len` readable bytes. */
    method Peek(len: nat) returns (bytes: seq<byte>)
      requires Valid() && len <= |Contents()|
      ensures bytes == Contents()[..len]
    {
      bytes := data[reader..reader + len];
    }

    method RetrieveAll()
      requires Valid()
      modifies this
      ensures Valid() && data == old(data)
      ensures Contents() == [] && GetShape() == old(GetShape()).Retrieved(|old(Contents())|)
    {
      reader := CHEAP_PREPEND;
      writer := CHEAP_PREPEND;
    }

    method Retrieve(len: nat)
      requires Valid() && len <= |Contents()|
      modifies this
      ensures Valid() && data == old(data)
      ensures Contents() == old(Contents())[len..] && GetShape() == old(GetShape()).Retrieved(len)
    {
      if len < writer - reader {
        reader := reader + len;
      } else {
        RetrieveAll();
      }
    }

    method RetrieveAsString(len: nat) returns (bytes: seq<byte>)
      requires Valid() && len <= |Contents()|
      modifies this
      ensures Valid() && data == old(data)
      ensures bytes == old(Contents())[..len]
      ensures Contents() == old(Contents())[len..] && GetShape() == old(GetShape()).Retrieved(len)
    {
      bytes := Peek(len);
      Retrieve(len);
    }

    method Append(bytes: seq<byte>)
      requires Valid()
      modifies this, data
      ensures Valid() && (data == old(data) || fresh(data))
      ensures Contents() == old(Contents()) + bytes
      ensures GetShape() == old(GetShape()).Appended(|bytes|)
    {
      EnsureWritableBytes(|bytes|);
      FillTail(bytes);
      HasWritten(|bytes|);
    }

    method EnsureWritableBytes(len: nat)
      requires Valid()
      modifies this, data
      ensures Valid() && (data == old(data) || fresh(data))
      ensures Contents() == old(Contents())
      ensures GetShape() == old(GetShape()).WithRoom(len)
    {
      if data.Length - writer < len {
        MakeSpace(len);
      }
      assert data.Length - writer >= len;  // line 173
    }

    method HasWritten(len: nat)
      requires Valid() && len <= GetShape().Writable()
      modifies this
      ensures Valid() && data == old(data) && reader == old(reader) && writer == old(writer) + len
    {
      writer := writer + len;
    }

    method Unwrite(len: nat)
      requires Valid() && len <= |Contents()|
      modifies this
      ensures Valid() && data == old(data)
      ensures Contents() == old(Contents())[..|old(Contents())| - len]
      ensures GetShape() == old(GetShape()).Unwritten(len)
    {
      writer := writer - len;
    }

    /** Room must be missing, as it is where this is called. */
    method MakeSpace(len: nat)
      requires Valid() && GetShape().Writable() < len
      modifies this, data
      ensures Valid() && (data == old(data) || fresh(data))
      ensures Contents() == old(Contents())
      ensures GetShape() == old(GetShape()).WithRoom(len)
      ensures reader == old(reader) || reader == CHEAP_PREPEND < old(reader)
    {
      if data.Length - writer + reader < len + CHEAP_PREPEND {
        Resize(writer + len);
      } else {
        assert CHEAP_PREPEND < reader;  // line 373
        var readable := writer - reader;
        CopyWithin(data, reader, CHEAP_PREPEND, readable);
        reader := CHEAP_PREPEND;
        writer := reader + readable;
      }
    }

    /** `vector::resize` to a greater size: new storage, the old elements, zeroes behind them. */
    method Resize(size: nat)
      requires Valid() && data.Length <= size
      modifies this
      ensures fresh(data) && reader == old(reader) && writer == old(writer)
      ensures data[..] == old(data[..]) + seq(size - old(data.Length), _ => 0)
    {
      var elements := data[..];
      data := new byte[size](i => if 0 <= i < |elements| then elements[i] else 0);
    }

    method Prepend(bytes: seq<byte>)
      requires Valid() && |bytes| <= reader
      modifies this, data
      ensures Valid() && data == old(data)
      ensures Contents() == bytes + old(Contents())
      ensures GetShape() == old(GetShape()).Prepended(|bytes|)
    {
      ghost var before := Contents();
      reader := reader - |bytes|;
      CopyIn(data, reader, bytes);
      assert data[reader..reader + |bytes|] == bytes;
      assert data[reader + |bytes|..writer] == before;
    }

    method Shrink(reserve: nat)
      requires Valid()
      modifies this
      ensures Valid() && fresh(data)
      ensures Contents() == old(Contents())
      ensures GetShape() == old(GetShape()).Shrunk(reserve)
    {
      var other := new Buffer();
      other.EnsureWritableBytes(writer - reader + reserve);
      var bytes := Peek(writer - reader);
      other.Append(bytes);
      Swap(other);
    }

    /** `readFd`: `readv` fills the writable tail first and, when that is shorter than the extra
        buffer, the extra buffer with the rest. */
    method ReadFd(result: ReadResult, errnoIn: int) returns (n: int, savedErrno: int)
      requires Valid()
      requires result.Delivered? ==>
                 var room := GetShape().Writable();
                 |result.bytes| <= room + if room < EXTRA_BUFFER then EXTRA_BUFFER else 0
      modifies this, data
      ensures Valid() && (data == old(data) || fresh(data))
      ensures result.ReadFailed? ==> n == -1 && savedErrno == result.errno
                                     && Contents() == old(Contents()) && GetShape() == old(GetShape())
      ensures result.Delivered? ==> n == |result.bytes| && savedErrno == errnoIn
                                    && Contents() == old(Contents()) + result.bytes
                                    && GetShape() == old(GetShape()).Received(|result.bytes|)
    {
      savedErrno := errnoIn;
      match result
      case ReadFailed(errno) =>
        n := -1;
        savedErrno := errno;
      case Delivered(bytes) =>
        n := |bytes|;
        Receive(bytes);
    }

    /** The bytes are split between the writable tail and, past its end, the extra buffer. */
    method Receive(bytes: seq<byte>)
      requires Valid()
      modifies this, data
      ensures Valid() && (data == old(data) || fresh(data))
      ensures Contents() == old(Contents()) + bytes
      ensures GetShape() == old(GetShape()).Received(|bytes|)
    {
      var writable := data.Length - writer;
      if |bytes| <= writable {
        FillTail(bytes);
        writer := writer + |bytes|;
      } else {
        var inTail, extra := bytes[..writable], bytes[writable..];
        assert bytes == inTail + extra;
        FillTail(inTail);
        writer := data.Length;
        Append(extra);
      }
    }

    /** A store into the writable tail, by `std::copy` or by the kernel, before any index moves. */
    method FillTail(bytes: seq<byte>)
      requires Valid() && |bytes| <= GetShape().Writable()
      modifies data
      ensures Valid() && Contents() == old(Contents())
      ensures data[reader..writer + |bytes|] == Contents() + bytes
    {
      ghost var before := Contents();
      CopyIn(data, writer, bytes);
      assert data[reader..writer] == before;
      assert data[writer..writer + |bytes|] == bytes;
    }

    // -------------------------------------------------------------- integers in network order

    method AppendInt(x: int, w: nat)
      requires Valid() && IsWidth(w) && InSigned(x, w)
      modifies this, data
      ensures Valid() && (data == old(data) || fresh(data))
      ensures Contents() == old(Contents()) + EncodeInt(x, w)
    {
      Append(EncodeInt(x, w));
    }

    method PeekInt(w: nat) returns (x: int)
      requires Valid() && IsWidth(w) && w <= |Contents()|
      ensures x == DecodeInt(Contents()[..w])
      ensures InSigned(x, w) && EncodeInt(x, w) == Contents()[..w]
    {
      var bytes := Peek(w);
      EncodeDecode(bytes);
      x := DecodeInt(bytes);
    }

    method ReadInt(w: nat) returns (x: int)
      requires Valid() && IsWidth(w) && w <= |Contents()|
      modifies this
      ensures Valid() && data == old(data)
      ensures x == DecodeInt(old(Contents())[..w])
      ensures InSigned(x, w) && EncodeInt(x, w) == old(Contents())[..w]
      ensures Contents() == old(Contents())[w..]
    {
      x := PeekInt(w);
      Retrieve(w);
    }

    method PrependInt(x: int, w: nat)
      requires Valid() && IsWidth(w) && InSigned(x, w) && w <= reader
      modifies this, data
      ensures Valid() && data == old(data)
      ensures Contents() == EncodeInt(x, w) + old(Contents())
    {
      Prepend(EncodeInt(x, w));
    }
  }

  /** `std::copy` from outside the vector to position `at`. */
  method CopyIn(a: array<byte>, at: nat, bytes: seq<byte>)
    requires at + |bytes| <= a.Length
    modifies a
    ensures a[..] == old(a[..at]) + bytes + old(a[at + |bytes|..])
  {
    for i := 0 to |bytes|
      invariant a[..at] == old(a[..at]) && a[at..at + i] == bytes[..i]
      invariant a[at + i..] == old(a[at + i..])
    {
      a[at + i] := bytes[i];
      assert a[at + i + 1..] == old(a[at + i..])[1..];
      assert a[at..at + i + 1] == bytes[..i] + [bytes[i]];
    }
    assert a[..] == a[..at] + a[at..at + |bytes|] + a[at + |bytes|..];
  }

  /** `std::copy` downward inside one vector: source and target may overlap. */
  method CopyWithin(a: array<byte>, from: nat, to: nat, n: nat)
    requires to <= from && from + n <= a.Length
    modifies a
    ensures a[..] == old(a[..to]) + old(a[from..from + n]) + old(a[to + n..])
  {
    ghost var was := a[..];
    ghost var down := from - to;
    for i := 0 to n
      invariant forall k :: 0 <= k < to || to + i <= k < a.Length ==> a[k] == was[k]
      invariant forall k :: to <= k < to + i ==> a[k] == was[k + down]
    {
      a[to + i] := a[from + i];
    }
    assert a[..to] == was[..to];
    assert a[to..to + n] == was[from..from + n];
    assert a[to + n..] == was[to + n..];
    assert a[..] == a[..to] + a[to..to + n] + a[to + n..];
  }

  // ---------------------------------------------------------------- space over a run

  /** Growing for `len` bytes never takes more than twice `len` beyond the readable bytes. */
  lemma GrowthBound(s: Shape, len: nat)
    requires s.Valid() && s.WithRoom(len).size != s.size
    ensures s.size < s.WithRoom(len).size < s.Readable() + 2 * len + CHEAP_PREPEND
  {
  }

  /** The operations that move bytes, by their lengths. */
  datatype Op = Append(len: nat) | Retrieve(len: nat) | Unwrite(len: nat) | Prepend(len: nat) | Receive(len: nat)

  /** What the asserts in the code demand of the caller. */
  predicate Allowed(s: Shape, op: Op)
    requires s.Valid()
  {
    match op
    case Retrieve(len) => len <= s.Readable()
    case Unwrite(len) => len <= s.Readable()
    case Prepend(len) => len <= s.reader
    case _ => true
  }

  function Apply(s: Shape, op: Op): (s': Shape)
    requires s.Valid() && Allowed(s, op)
    ensures s'.Valid()
  {
    match op
    case Append(len) => s.Appended(len)
    case Retrieve(len) => s.Retrieved(len)
    case Unwrite(len) => s.Unwritten(len)
    case Prepend(len) => s.Prepended(len)
    case Receive(len) => s.Received(len)
  }

  /** The run is allowed, never holds more than `peak` readable bytes and adds at most `largest` at once. */
  predicate RunWithin(s: Shape, ops: seq<Op>, peak: nat, largest: nat)
    requires s.Valid()
    decreases |ops|
  {
    && s.Readable() <= peak
    && (ops != [] ==>
      && Allowed(s, ops[0])
      && (ops[0].Append? || ops[0].Receive? ==> ops[0].len <= largest)
      && RunWithin(Apply(s, ops[0]), ops[1..], peak, largest))
  }

  function Run(s: Shape, ops: seq<Op>, ghost peak: nat, ghost largest: nat): (s': Shape)
    requires s.Valid() && RunWithin(s, ops, peak, largest)
    ensures s'.Valid()
    decreases |ops|
  {
    if ops == [] then s else Run(Apply(s, ops[0]), ops[1..], peak, largest)
  }

  lemma OpSpaceBound(s: Shape, op: Op)
    requires s.Valid() && Allowed(s, op)
    ensures Apply(s, op).size <= s.size
            || ((op.Append? || op.Receive?) && Apply(s, op).size <= Apply(s, op).Readable() + op.len + CHEAP_PREPEND - 1)
  {
  }

  /** Over any run the vector stays within its initial size or the peak of readable bytes plus the
      largest addition plus 7, whichever is more. */
  lemma {:induction false} RunSpaceBound(s: Shape, ops: seq<Op>, peak: nat, largest: nat)
    requires s.Valid() && RunWithin(s, ops, peak, largest)
    ensures var size := Run(s, ops, peak, largest).size;
            size <= s.size || size <= peak + largest + CHEAP_PREPEND - 1
    decreases |ops|
  {
    if ops != [] {
      OpSpaceBound(s, ops[0]);
      RunSpaceBound(Apply(s, ops[0]), ops[1..], peak, largest);
    }
  }

  // ---------------------------------------------------------------- the prepend area over a run

  /** Appending `len` bytes moves the queue down to the front. */
  predicate Compacts(s: Shape, len: nat)
    requires s.Valid()
  {
    len > s.Writable() && len + CHEAP_PREPEND <= s.Writable() + s.reader
  }

  /** The operation empties the queue or moves it to the front, and the whole prepend area is free again. */
  predicate Renews(s: Shape, op: Op)
    requires s.Valid()
  {
    match op
    case Append(len) => Compacts(s, len)
    case Retrieve(len) => len == s.Readable()
    case Unwrite(_) => false
    case Prepend(_) => false
    case Receive(len) => len > s.Writable() && Compacts(s.(writer := s.size), len - s.Writable())
  }

  /** How many bytes have been prepended since the last renewal, if `used` had been before. */
  function UsedBy(s: Shape, op: Op, used: nat): nat
    requires s.Valid()
  {
    if Renews(s, op) then 0 else if op.Prepend? then used + op.len else used
  }

  function Used(s: Shape, ops: seq<Op>, ghost peak: nat, ghost largest: nat, used: nat): nat
    requires s.Valid() && RunWithin(s, ops, peak, largest)
    decreases |ops|
  {
    if ops == [] then used else Used(Apply(s, ops[0]), ops[1..], peak, largest, UsedBy(s, ops[0], used))
  }

  /** Only prepending uses up the prepend area; a renewal leaves exactly the 8 bytes. */
  lemma OpKeepsPrependable(s: Shape, op: Op, used: nat)
    requires s.Valid() && Allowed(s, op) && s.reader + used >= CHEAP_PREPEND
    ensures Apply(s, op).reader + UsedBy(s, op, used) >= CHEAP_PREPEND
    ensures Renews(s, op) ==> Apply(s, op).reader == CHEAP_PREPEND
  {
  }

  /** Over any run, the 8 bytes less those prepended since the last renewal can still be prepended. */
  lemma {:induction false} RunKeepsPrependable(s: Shape, ops: seq<Op>, peak: nat, largest: nat, used: nat, len: nat)
    requires s.Valid() && RunWithin(s, ops, peak, largest) && s.reader + used >= 8
    requires len + Used(s, ops, peak, largest, used) <= 8
    ensures Allowed(Run(s, ops, peak, largest), Op.Prepend(len))
    decreases |ops|
  {
    if ops != [] {
      OpKeepsPrependable(s, ops[0], used);
      RunKeepsPrependable(Apply(s, ops[0]), ops[1..], peak, largest, UsedBy(s, ops[0], used), len);
    }
  }
}
