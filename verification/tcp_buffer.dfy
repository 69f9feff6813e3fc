/** TcpBuffer: a growing, self-compacting byte buffer. Its value is a vector with a read and a write
    index; the class updates the vector in place and replaces it when it grows or compacts. */
module TcpBuffers {
  import opened Bytes

  function Min(a: int, b: int): int {
    if a < b then a else b
  }

  function Max(a: int, b: int): int {
    if a < b then b else a
  }

  datatype Buf = Buf(data: seq<Byte>, rd: nat, wr: nat) {
    ghost predicate Valid() {
      rd <= wr <= |data|
    }

    function Readable(): int {
      wr - rd
    }

    function Writable(): int {
      |data| - wr
    }

    /** The bytes to read, oldest first. */
    function Contents(): seq<Byte>
      requires Valid()
    {
      data[rd..wr]
    }

    function Resize(size: nat): Buf
      requires Valid()
    {
      var c := Min(size, Readable());
      Buf(data[rd..rd + c] + Zeros(size - c), 0, c)
    }

    /** memcpy of bytes to the write index. */
    function Store(bytes: seq<Byte>): Buf
      requires Valid() && |bytes| <= Writable()
    {
      this.(data := data[..wr] + bytes + data[wr + |bytes|..])
    }

    function Write(bytes: seq<Byte>): Buf
      requires Valid()
    {
      var b := if |bytes| > Writable() then Resize((wr + |bytes|) * 3 / 2) else this;
      b.Store(bytes).(wr := b.wr + |bytes|)
    }

    function Adjust(): Buf
      requires Valid()
    {
      if rd > |data| / 3 then Buf(Contents() + Zeros(|data| - Readable()), 0, Readable()) else this
    }

    /** An index past the end of the vector is refused. One between the write index and the end would
        leave the read index beyond the write index. */
    function RecycleRead(n: int): Buf
      requires Valid() && 0 <= rd + n && (rd + n <= wr || rd + n > |data|)
    {
      if rd + n > |data| then this else this.(rd := rd + n).Adjust()
    }

    function RecycleWrite(n: int): Buf
      requires Valid() && rd <= wr + n
    {
      if wr + n > |data| then this else this.(wr := wr + n).Adjust()
    }

    /** read(2) into the writable bytes, and recycleWrite of what it returned. */
    function Fill(bytes: seq<Byte>): Buf
      requires Valid() && |bytes| <= Writable()
    {
      Store(bytes).RecycleWrite(|bytes|)
    }

    function ReadSize(n: nat): nat
      requires Valid()
    {
      Min(n, Readable())
    }

    function Read(n: nat): Buf
      requires Valid()
    {
      if Readable() == 0 then this else this.(rd := rd + ReadSize(n)).Adjust()
    }

    /** What every operation keeps besides Valid: the dead front is at most a third of the vector, and
        the bytes not yet written are zero. */
    ghost predicate Tidy() {
      && Valid()
      && rd <= |data| / 3
      && forall i :: wr <= i < |data| ==> data[i] == 0
    }
  }

  function New(size: nat): Buf {
    Buf(Zeros(size), 0, 0)
  }

  lemma TidyIsValid(b: Buf)
    requires b.Tidy()
    ensures b.Valid()
  {
  }

  lemma ReadableIsLength(b: Buf)
    requires b.Valid()
    ensures b.Readable() == |b.Contents()|
  {
  }

  /** A write is a resize when it has to be, then the copy and the advance of the index. */
  lemma WriteParts(b: Buf, bytes: seq<Byte>)
    requires b.Tidy()
    ensures
      var size := (b.wr + |bytes|) * 3 / 2;
      var grown := if |bytes| > b.Writable() then b.Resize(size) else b;
      && grown.Valid() && |bytes| <= grown.Writable()
      && b.Write(bytes) == grown.Store(bytes).(wr := grown.wr + |bytes|)
      && b.Write(bytes).Tidy()
  {
    hide Buf.Tidy, Buf.Contents;
    TidyIsValid(b);
    WriteIsFifo(b, bytes);
  }

  /** Copies `n` elements, as memcpy between two vectors. */
  method Copy(dst: array<Byte>, at: nat, src: array<Byte>, from: nat, n: nat)
    requires dst != src && at + n <= dst.Length && from + n <= src.Length
    modifies dst
    ensures dst[..] == old(dst[..at]) + src[from..from + n] + old(dst[at + n..])
  {
    forall i | 0 <= i < n {
      dst[at + i] := src[from + i];
    }
  }

  lemma ReadParts(b: Buf, size: nat)
    requires b.Valid()
    ensures b.ReadSize(size) == (if b.wr - b.rd > size then size else b.wr - b.rd)
    ensures b.ReadSize(size) <= |b.Contents()|
    ensures b.Contents()[..b.ReadSize(size)] == b.data[b.rd..b.rd + b.ReadSize(size)]
    ensures b.Read(size) == if b.wr == b.rd then b else b.(rd := b.rd + b.ReadSize(size)).Adjust()
  {
    hide Buf.Adjust;
  }

  class TcpBuffer {
    var buffer: array<Byte>
    var readIndex: nat
    var writeIndex: nat

    function View(): Buf
      reads this, buffer
    {
      Buf(buffer[..], readIndex, writeIndex)
    }

    ghost predicate Valid()
      reads this, buffer
    {
      View().Tidy()
    }

    constructor (size: nat)
      ensures Valid() && View() == New(size) && fresh(buffer)
    {
      buffer := new Byte[size](_ => 0);
      readIndex, writeIndex := 0, 0;
      new;
      assert buffer[..] == Zeros(size);
    }

    method ResizeBuffer(size: nat)
      requires Valid()
      modifies this
      ensures Valid() && View() == old(View()).Resize(size) && fresh(buffer)
    {
      var tmp := new Byte[size](_ => 0);
      var c := Min(size, writeIndex - readIndex);
      assert tmp[c..] == Zeros(size - c);
      Copy(tmp, 0, buffer, readIndex, c);
      buffer := tmp;
      readIndex := 0;
      writeIndex := c;
    }

    method WriteToBuffer(bytes: array<Byte>)
      requires Valid() && bytes != buffer
      modifies this, buffer
      ensures Valid() && View() == old(View()).Write(bytes[..]) && bytes[..] == old(bytes[..])
      ensures fresh(buffer) || buffer == old(buffer)
    {
      hide Buf.Write, Buf.Store, Buf.Resize;
      WriteParts(View(), bytes[..]);
      if bytes.Length > buffer.Length - writeIndex {
        ResizeBuffer((writeIndex + bytes.Length) * 3 / 2);
      }
      CopyIn(bytes);
    }

    /** memcpy(&m_buffer[m_write_index], buf, size), and the advance of the write index. */
    method CopyIn(bytes: array<Byte>)
      requires View().Valid() && bytes != buffer && bytes.Length <= buffer.Length - writeIndex
      modifies this`writeIndex, buffer
      ensures View() == old(View().Store(bytes[..]).(wr := writeIndex + bytes.Length))
      ensures bytes[..] == old(bytes[..])
    {
      assert bytes[0..bytes.Length] == bytes[..];
      Copy(buffer, writeIndex, bytes, 0, bytes.Length);
      writeIndex := writeIndex + bytes.Length;
    }

    method AdjustBuffer()
      requires View().Valid()
      requires forall i :: writeIndex <= i < buffer.Length ==> buffer[i] == 0
      modifies this
      ensures Valid() && View() == old(View()).Adjust()
      ensures fresh(buffer) || buffer == old(buffer)
    {
      if readIndex > buffer.Length / 3 {
        var newBuffer := new Byte[buffer.Length](_ => 0);
        var count := writeIndex - readIndex;
        assert newBuffer[count..] == Zeros(buffer.Length - count);
        Copy(newBuffer, 0, buffer, readIndex, count);
        buffer := newBuffer;
        writeIndex := count;
        readIndex := 0;
      }
    }

    method ReadFromBuffer(size: nat) returns (re: seq<Byte>)
      requires Valid()
      modifies this
      ensures Valid() && View() == old(View()).Read(size)
      ensures re == old(View()).Contents()[..old(View()).ReadSize(size)]
      ensures fresh(buffer) || buffer == old(buffer)
    {
      hide Buf.Adjust, Buf.Contents, Buf.Read, Buf.ReadSize;
      ReadParts(View(), size);
      if writeIndex - readIndex == 0 {
        return [];
      }
      var readSize := if writeIndex - readIndex > size then size else writeIndex - readIndex;
      re := buffer[readIndex..readIndex + readSize];
      assert re == View().data[readIndex..readIndex + readSize];
      readIndex := readIndex + readSize;
      AdjustBuffer();
    }

    method RecycleRead(index: int)
      requires Valid() && 0 <= readIndex + index
      requires readIndex + index <= writeIndex || readIndex + index > buffer.Length
      modifies this
      ensures Valid() && View() == old(View()).RecycleRead(index)
      ensures fresh(buffer) || buffer == old(buffer)
    {
      var j := readIndex + index;
      if j > buffer.Length {
        return;
      }
      readIndex := j;
      AdjustBuffer();
    }

    method RecycleWrite(index: nat)
      requires View().Valid() && readIndex <= buffer.Length / 3
      requires forall i :: writeIndex + index <= i < buffer.Length ==> buffer[i] == 0
      modifies this
      ensures View() == old(View()).RecycleWrite(index)
      ensures old(writeIndex) + index <= old(buffer.Length) ==> Valid()
      ensures fresh(buffer) || buffer == old(buffer)
    {
      var j := writeIndex + index;
      if j > buffer.Length {
        return;
      }
      writeIndex := j;
      AdjustBuffer();
    }

    /** What read(2) does with the writable bytes of the buffer. */
    method ReceiveInto(bytes: seq<Byte>)
      requires Valid() && |bytes| <= buffer.Length - writeIndex
      modifies buffer
      ensures View() == old(View()).Store(bytes)
    {
      forall i | 0 <= i < |bytes| {
        buffer[writeIndex + i] := bytes[i];
      }
    }
  }

  // --- What any sequence of operations keeps ---

  datatype Op =
    | OpWrite(bytes: seq<Byte>)     // writeToBuffer
    | OpFill(bytes: seq<Byte>)      // read(2) and recycleWrite
    | OpRead(n: nat)                // readFromBuffer
    | OpRecycle(n: nat)             // recycleRead
    | OpDouble                      // input's resizeBuffer(2 * getSize())
    | OpResize(size: nat)

  /** What a caller must respect: no more is filled in than fits, no more is recycled than is there, and
      input doubles a full buffer only. */
  ghost predicate Allowed(b: Buf, op: Op) {
    match op
    case OpFill(bytes) => |bytes| <= b.Writable()
    case OpRecycle(n) => n <= b.Readable()
    case OpDouble => b.Writable() == 0
    case OpResize(size) => b.Readable() <= size
    case _ => true
  }

  function Apply(b: Buf, op: Op): Buf
    requires b.Valid() && Allowed(b, op)
  {
    match op
    case OpWrite(bytes) => b.Write(bytes)
    case OpFill(bytes) => b.Fill(bytes)
    case OpRead(n) => b.Read(n)
    case OpRecycle(n) => b.RecycleRead(n)
    case OpDouble => b.Resize(2 * |b.data|)
    case OpResize(size) => b.Resize(size)
  }

  /** How large the vector is after each operation, and where its read index is. A write that does not fit makes
      it half as large again as it then has to be; reading on past a third of it moves the rest to the front. */
  lemma SizeAndIndex(b: Buf, op: Op)
    requires b.Tidy() && Allowed(b, op)
    ensures
      var b', size := Apply(b, op), |b.data|;
      match op
      case OpWrite(bytes) =>
        if b.wr + |bytes| > size then |b'.data| == (b.wr + |bytes|) * 3 / 2 && b'.rd == 0
        else |b'.data| == size && b'.rd == b.rd
      case OpFill(bytes) => |b'.data| == size && b'.rd == b.rd && b'.wr == b.wr + |bytes|
      case OpRead(n) =>
        var next := b.rd + if n < b.wr - b.rd then n else b.wr - b.rd;
        |b'.data| == size && b'.rd == if next > size / 3 then 0 else next
      case OpRecycle(n) => |b'.data| == size && b'.rd == if b.rd + n > size / 3 then 0 else b.rd + n
      case OpDouble => |b'.data| == 2 * size && b'.rd == 0
      case OpResize(n) => |b'.data| == n && b'.rd == 0
  {
    hide Buf.Write, Buf.Fill, Buf.Adjust, Buf.Contents, Zeros;
    match op
    case OpWrite(bytes) => WriteGrows(b, bytes);
    case OpFill(bytes) => FillPlace(b, bytes);
    case OpRead(n) => AdjustPlace(b.(rd := b.rd + b.ReadSize(n)));
    case OpRecycle(n) => AdjustPlace(b.(rd := b.rd + n));
    case _ =>
  }

  lemma AdjustPlace(b: Buf)
    requires b.Valid()
    ensures |b.Adjust().data| == |b.data| && b.Adjust().rd == if b.rd > |b.data| / 3 then 0 else b.rd
    ensures b.rd <= |b.data| / 3 ==> b.Adjust() == b
  {
  }

  lemma FillPlace(b: Buf, bytes: seq<Byte>)
    requires b.Tidy() && |bytes| <= b.Writable()
    ensures var b' := b.Fill(bytes); |b'.data| == |b.data| && b'.rd == b.rd && b'.wr == b.wr + |bytes|
  {
    hide Buf.Adjust, Buf.Contents;
    AdjustPlace(b.Store(bytes).(wr := b.wr + |bytes|));
  }

  lemma WriteGrows(b: Buf, bytes: seq<Byte>)
    requires b.Valid()
    ensures
      var b' := b.Write(bytes);
      if b.wr + |bytes| > |b.data| then |b'.data| == (b.wr + |bytes|) * 3 / 2 && b'.rd == 0
      else |b'.data| == |b.data| && b'.rd == b.rd
  {
  }

  /** An index past the end of the vector is refused, and nothing changes. */
  lemma PastEndRefused(b: Buf, n: nat)
    requires b.Valid()
    ensures b.rd + n > |b.data| ==> b.RecycleRead(n) == b
    ensures b.wr + n > |b.data| ==> b.RecycleWrite(n) == b
    ensures b.wr + n == |b.data| && b.rd <= |b.data| / 3 ==> b.RecycleWrite(n) == b.(wr := |b.data|)
  {
  }

  /** The bytes an operation puts in. */
  function Put(op: Op): seq<Byte> {
    match op
    case OpWrite(bytes) => bytes
    case OpFill(bytes) => bytes
    case _ => []
  }

  /** The bytes an operation hands to its caller or declares used. */
  function Taken(b: Buf, op: Op): seq<Byte>
    requires b.Valid() && Allowed(b, op)
  {
    match op
    case OpRead(n) => b.Contents()[..b.ReadSize(n)]
    case OpRecycle(n) => b.Contents()[..n]
    case _ => []
  }

  lemma ResizeIsFifo(b: Buf, size: nat)
    requires b.Tidy() && b.Readable() <= size
    ensures b.Resize(size).Tidy() && b.Resize(size).Contents() == b.Contents()
    ensures b.Resize(size).rd == 0 && b.Resize(size).wr == b.Readable() && |b.Resize(size).data| == size
  {
  }

  lemma AdjustIsFifo(b: Buf)
    requires b.Valid() && forall i :: b.wr <= i < |b.data| ==> b.data[i] == 0
    ensures b.Adjust().Tidy() && b.Adjust().Contents() == b.Contents() && |b.Adjust().data| == |b.data|
  {
  }

  /** Bytes put at the write index, once it is moved past them. */
  lemma StoreIsFifo(b: Buf, bytes: seq<Byte>)
    requires b.Tidy() && |bytes| <= b.Writable()
    ensures
      var b' := b.Store(bytes).(wr := b.wr + |bytes|);
      b'.Tidy() && b'.Contents() == b.Contents() + bytes && |b'.data| == |b.data|
  {
    var b' := b.Store(bytes).(wr := b.wr + |bytes|);
    assert forall i :: b'.wr <= i < |b'.data| ==> b'.data[i] == b.data[i];
  }

  lemma WriteIsFifo(b: Buf, bytes: seq<Byte>)
    requires b.Tidy()
    ensures b.Write(bytes).Tidy() && b.Write(bytes).Contents() == b.Contents() + bytes
    ensures |b.Write(bytes).data| == if |bytes| > b.Writable() then (b.wr + |bytes|) * 3 / 2 else |b.data|
  {
    if |bytes| > b.Writable() {
      var size := (b.wr + |bytes|) * 3 / 2;
      ResizeIsFifo(b, size);
      StoreIsFifo(b.Resize(size), bytes);
    } else {
      StoreIsFifo(b, bytes);
    }
  }

  lemma FillIsFifo(b: Buf, bytes: seq<Byte>)
    requires b.Tidy() && |bytes| <= b.Writable()
    ensures b.Fill(bytes).Tidy() && b.Fill(bytes).Contents() == b.Contents() + bytes
    ensures |b.Fill(bytes).data| == |b.data|
  {
    StoreIsFifo(b, bytes);
    AdjustIsFifo(b.Store(bytes).(wr := b.wr + |bytes|));
  }

  lemma ConsumeIsFifo(b: Buf, n: nat)
    requires b.Tidy() && n <= b.Readable()
    ensures b.RecycleRead(n).Tidy() && b.RecycleRead(n).Contents() == b.Contents()[n..]
    ensures |b.RecycleRead(n).data| == |b.data|
  {
    AdjustIsFifo(b.(rd := b.rd + n));
  }

  lemma ReadIsRecycle(b: Buf, n: nat)
    requires b.Tidy()
    ensures b.Read(n) == if b.Readable() == 0 then b else b.RecycleRead(b.ReadSize(n))
  {
  }

  lemma Nothing<T>(c: seq<T>)
    ensures [] + c == c && c + [] == c
  {
  }

  lemma Halves<T>(c: seq<T>, k: nat)
    requires k <= |c|
    ensures c[..k] + c[k..] == c
  {
  }

  /** One operation on a tidy buffer is one step of a byte FIFO, and leaves the buffer tidy. */
  lemma StepIsFifo(b: Buf, op: Op)
    requires b.Tidy() && Allowed(b, op)
    ensures Apply(b, op).Tidy()
    ensures Taken(b, op) + Apply(b, op).Contents() == b.Contents() + Put(op)
  {
    hide Buf.Write, Buf.Fill, Buf.Resize, Buf.RecycleRead, Buf.Read, Buf.Contents, Buf.Tidy;
    TidyIsValid(b);
    ReadableIsLength(b);
    Nothing(b.Contents());
    Nothing(b.Contents() + Put(op));
    match op
    case OpWrite(bytes) => WriteIsFifo(b, bytes);
    case OpFill(bytes) => FillIsFifo(b, bytes);
    case OpRead(n) =>
      ReadIsRecycle(b, n);
      Halves(b.Contents(), b.ReadSize(n));
      if b.Readable() != 0 { ConsumeIsFifo(b, b.ReadSize(n)); }
    case OpRecycle(n) =>
      Halves(b.Contents(), n);
      ConsumeIsFifo(b, n);
    case OpDouble => ResizeIsFifo(b, 2 * |b.data|);
    case OpResize(size) => ResizeIsFifo(b, size);
  }

  /** Running a list of operations: every one is allowed where it happens. */
  ghost predicate AllAllowed(b: Buf, ops: seq<Op>)
    requires b.Tidy()
    decreases |ops|
  {
    ops == [] || (
      && Allowed(b, ops[0])
      && (StepIsFifo(b, ops[0]); AllAllowed(Apply(b, ops[0]), ops[1..])))
  }

  ghost function Final(b: Buf, ops: seq<Op>): Buf
    requires b.Tidy() && AllAllowed(b, ops)
    decreases |ops|
  {
    if ops == [] then b else StepIsFifo(b, ops[0]); Final(Apply(b, ops[0]), ops[1..])
  }

  ghost function AllPut(ops: seq<Op>): seq<Byte> {
    if ops == [] then [] else Put(ops[0]) + AllPut(ops[1..])
  }

  ghost function AllTaken(b: Buf, ops: seq<Op>): seq<Byte>
    requires b.Tidy() && AllAllowed(b, ops)
    decreases |ops|
  {
    if ops == [] then [] else StepIsFifo(b, ops[0]); Taken(b, ops[0]) + AllTaken(Apply(b, ops[0]), ops[1..])
  }

  /** Over any run, what was taken followed by what is left is what was there followed by what was put
      in, in order; and the buffer stays tidy, with zeros after the write index. */
  lemma {:induction false} RunIsFifo(b: Buf, ops: seq<Op>)
    requires b.Tidy() && AllAllowed(b, ops)
    ensures Final(b, ops).Tidy()
    ensures AllTaken(b, ops) + Final(b, ops).Contents() == b.Contents() + AllPut(ops)
    decreases |ops|
  {
    if ops == [] {
      assert b.Contents() + [] == b.Contents();
    } else {
      StepIsFifo(b, ops[0]);
      var b', rest := Apply(b, ops[0]), ops[1..];
      RunIsFifo(b', rest);
      Regroup(Taken(b, ops[0]), b'.Contents(), b.Contents(), Put(ops[0]),
              AllTaken(b', rest), Final(b', rest).Contents(), AllPut(rest));
    }
  }

  lemma Regroup<T>(t: seq<T>, c': seq<T>, c: seq<T>, p: seq<T>, ts: seq<T>, f: seq<T>, ps: seq<T>)
    requires t + c' == c + p && ts + f == c' + ps
    ensures (t + ts) + f == c + (p + ps)
  {
    assert (t + ts) + f == t + (ts + f);
    assert t + (c' + ps) == (t + c') + ps;
  }

  // --- How large the vector gets ---

  /** A write that grows the vector leaves it smaller than 9/4 of what is then readable. */
  lemma GrowthBound(b: Buf, bytes: seq<Byte>)
    requires b.Tidy() && |bytes| > b.Writable()
    ensures 4 * |b.Write(bytes).data| < 9 * b.Write(bytes).Readable()
  {
    WriteIsFifo(b, bytes);
    assert b.Write(bytes).Readable() == |b.Write(bytes).Contents()|;
  }

  /** The most that is readable at any point of a run. */
  ghost function Peak(b: Buf, ops: seq<Op>): int
    requires b.Tidy() && AllAllowed(b, ops)
    decreases |ops|
  {
    if ops == [] then b.Readable()
    else StepIsFifo(b, ops[0]); Max(b.Readable(), Peak(Apply(b, ops[0]), ops[1..]))
  }

  lemma StepBound(b: Buf, op: Op)
    requires b.Tidy() && Allowed(b, op) && !op.OpResize?
    ensures |Apply(b, op).data| <= Max(|b.data|, 3 * Max(b.Readable(), Apply(b, op).Readable()))
  {
    hide Buf.Write, Buf.Fill, Buf.Resize, Buf.RecycleRead;
    match op
    case OpWrite(bytes) =>
      WriteIsFifo(b, bytes);
      if |bytes| > b.Writable() { GrowthBound(b, bytes); }
    case OpFill(bytes) => FillIsFifo(b, bytes);
    case OpRead(n) =>
      ReadIsRecycle(b, n);
      if b.Readable() != 0 { ConsumeIsFifo(b, b.ReadSize(n)); }
    case OpRecycle(n) => ConsumeIsFifo(b, n);
    case OpDouble => ResizeIsFifo(b, 2 * |b.data|);
  }

  /** With no other growth than writeToBuffer's and input's doubling, the vector never exceeds its size
      at the start or three times the most that was ever readable. */
  lemma {:induction false} CapacityBound(b: Buf, ops: seq<Op>)
    requires b.Tidy() && AllAllowed(b, ops) && forall op :: op in ops ==> !op.OpResize?
    ensures |Final(b, ops).data| <= Max(|b.data|, 3 * Peak(b, ops))
    decreases |ops|
  {
    if ops != [] {
      StepIsFifo(b, ops[0]);
      StepBound(b, ops[0]);
      PeakAtStart(Apply(b, ops[0]), ops[1..]);
      CapacityBound(Apply(b, ops[0]), ops[1..]);
    }
  }

  lemma PeakAtStart(b: Buf, ops: seq<Op>)
    requires b.Tidy() && AllAllowed(b, ops)
    ensures b.Readable() <= Peak(b, ops)
  {
  }
}
