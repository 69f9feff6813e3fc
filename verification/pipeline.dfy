/** TcpConnection::input and execute over the FlconcPb codec: from read(2) results to messages. */
module Pipeline {
  import opened Bytes
  import opened TcpBuffers
  import opened PbCodec

  // --- input ---

  /** A full buffer is doubled before the next read. */
  function Room(b: Buf): Buf
    requires b.Valid()
  {
    if b.Writable() == 0 then b.Resize(2 * |b.data|) else b
  }

  lemma RoomKeeps(b: Buf)
    requires b.Tidy()
    ensures Room(b).Tidy() && Room(b).Contents() == b.Contents()
    ensures |Room(b).data| == if b.wr == |b.data| then 2 * |b.data| else |b.data|
  {
    if b.Writable() == 0 { ResizeIsFifo(b, 2 * |b.data|); }
  }

  /** What read_hook may return, call by call, until input stops reading: nothing (the peer is gone),
      less than was asked for, or exactly that, which makes it read again. */
  ghost predicate Feasible(b: Buf, chunks: seq<seq<Byte>>)
    requires b.Tidy()
    decreases |chunks|
  {
    && chunks != []
    && (RoomKeeps(b);
        var b1, r := Room(b), chunks[0];
        && |r| <= b1.Writable()
        && if r == [] || |r| < b1.Writable() then |chunks| == 1
           else FillIsFifo(b1, r); Feasible(b1.Fill(r), chunks[1..]))
  }

  ghost function AfterInput(b: Buf, chunks: seq<seq<Byte>>): Buf
    requires b.Tidy() && Feasible(b, chunks)
    decreases |chunks|
  {
    RoomKeeps(b);
    var b1, r := Room(b), chunks[0];
    if r == [] then b1
    else
      FillIsFifo(b1, r);
      if |chunks| == 1 then b1.Fill(r) else AfterInput(b1.Fill(r), chunks[1..])
  }

  /** One turn of the read loop. */
  lemma OneRead(b: Buf, chunks: seq<seq<Byte>>)
    requires b.Tidy() && Feasible(b, chunks)
    ensures chunks != [] && Room(b).Tidy() && |chunks[0]| <= Room(b).Writable()
    ensures chunks[0] == [] ==> |chunks| == 1 && AfterInput(b, chunks) == Room(b)
    ensures chunks[0] != [] ==>
      var b2 := Room(b).Fill(chunks[0]);
      && b2.Tidy()
      && if |chunks[0]| < Room(b).Writable() then |chunks| == 1 && AfterInput(b, chunks) == b2
         else |chunks| > 1 && Feasible(b2, chunks[1..]) && AfterInput(b, chunks) == AfterInput(b2, chunks[1..])
  {
    hide Room, Buf.Fill, Buf.Contents;
    RoomKeeps(b);
    if chunks[0] != [] { FillIsFifo(Room(b), chunks[0]); }
  }

  ghost function Concat(chunks: seq<seq<Byte>>): seq<Byte> {
    if chunks == [] then [] else chunks[0] + Concat(chunks[1..])
  }

  /** Whatever was read, input appends exactly their bytes. */
  lemma {:induction false} InputAppends(b: Buf, chunks: seq<seq<Byte>>)
    requires b.Tidy() && Feasible(b, chunks)
    ensures AfterInput(b, chunks).Tidy()
    ensures AfterInput(b, chunks).Contents() == b.Contents() + Concat(chunks)
    decreases |chunks|
  {
    RoomKeeps(b);
    var b1, r := Room(b), chunks[0];
    hide Buf.Tidy, Buf.Contents, Buf.Fill, Room;
    assert Concat(chunks) == r + Concat(chunks[1..]);
    if r != [] {
      FillIsFifo(b1, r);
      if |chunks| > 1 {
        InputAppends(b1.Fill(r), chunks[1..]);
        Assoc(b.Contents(), r, Concat(chunks[1..]));
      }
    }
  }

  // --- execute ---

  datatype Exec = Exec(msgs: seq<Msg>, buf: Buf, overrun: bool)

  /** Decoding keeps the buffer tidy, and a decoded message uses up bytes. */
  lemma DecodeKeeps(b: Buf)
    requires b.Tidy()
    ensures Decode(b).buf.Tidy()
    ensures Decode(b).outcome.Decoded? ==> 0 <= Decode(b).buf.Readable() < b.Readable()
  {
    var s := ScanFrom(b, b.rd);
    ScanInRange(b, b.rd);
    if s.Found? && 0 <= b.rd + s.pkLen {
      AdjustIsFifo(b.(rd := b.rd + s.pkLen));
      RecycledReadable(b, s.pkLen);
    }
  }

  lemma RecycledReadable(b: Buf, n: int)
    requires b.Valid() && 0 <= b.rd + n <= b.wr
    ensures b.RecycleRead(n).Readable() == b.Readable() - n
  {
  }

  /** The loop of execute: messages are taken off until one does not decode. */
  function Execute(b: Buf): Exec
    requires b.Tidy()
    decreases b.Readable()
  {
    if b.Readable() == 0 then Exec([], b, false)
    else
      DecodeKeeps(b);
      var r := Decode(b);
      match r.outcome
      case Decoded(m) =>
        var e := Execute(r.buf);
        e.(msgs := [m] + e.msgs)
      case Overrun => Exec([], r.buf, true)
      case _ => Exec([], r.buf, false)
  }

  // --- Messages out of a stream of frames ---

  predicate Sendable(m: Msg) {
    WithinCaps(m) && 0 !in m.msgReq && 0 !in m.service && 0 !in m.errInfo
  }

  ghost predicate AllSendable(ms: seq<Msg>) {
    forall i :: 0 <= i < |ms| ==> Sendable(ms[i])
  }

  ghost function Frames(ms: seq<Msg>): seq<Byte>
    requires AllSendable(ms)
  {
    if ms == [] then [] else Frame(ms[0]) + Frames(ms[1..])
  }

  lemma FramesStep(ms: seq<Msg>)
    requires AllSendable(ms) && ms != []
    ensures Sendable(ms[0]) && Fits32(ms[0]) && AllSendable(ms[1..])
    ensures Frames(ms) == Frame(ms[0]) + Frames(ms[1..]) && |Frame(ms[0])| == PkLen(ms[0])
  {
    hide Frame;
    FrameLayout(ms[0]);
  }

  /** How many of the messages lie wholly within the first n bytes of their frames. */
  function Complete(ms: seq<Msg>, n: int): (k: nat)
    ensures k <= |ms|
  {
    if ms == [] || n < PkLen(ms[0]) then 0 else 1 + Complete(ms[1..], n - PkLen(ms[0]))
  }

  /** The buffer once the given frames are recycled, one after the other. */
  ghost function AfterFrames(b: Buf, ms: seq<Msg>): Buf
    requires b.Tidy() && AllSendable(ms) && Frames(ms) <= b.Contents()
    decreases |ms|
  {
    if ms == [] then b
    else
      FrameTaken(b, ms);
      AfterFrames(b.RecycleRead(PkLen(ms[0])), ms[1..])
  }

  lemma FrameTaken(b: Buf, ms: seq<Msg>)
    requires b.Tidy() && AllSendable(ms) && ms != [] && Frames(ms) <= b.Contents()
    ensures PkLen(ms[0]) <= b.Readable() && Frame(ms[0]) <= b.Contents()
    ensures
      var b' := b.RecycleRead(PkLen(ms[0]));
      b'.Tidy() && Frames(ms[1..]) <= b'.Contents() && b'.Contents() == b.Contents()[PkLen(ms[0])..]
  {
    var f, rest := Frame(ms[0]), Frames(ms[1..]);
    FrameLayout(ms[0]);
    hide Frame, Buf.Contents, Buf.RecycleRead, Buf.Tidy;
    PrefixParts(f, rest, b.Contents());
    ReadableIsLength(b);
    ConsumeIsFifo(b, |f|);
  }

  lemma PrefixParts<T>(f: seq<T>, rest: seq<T>, s: seq<T>)
    requires f + rest <= s
    ensures f <= s && rest <= s[|f|..]
  {
    assert s[..|f|] == (f + rest)[..|f|];
    assert s[|f|..][..|rest|] == (f + rest)[|f|..];
  }

  /** Decoding at the start of a sendable message's frame. */
  lemma DecodeSendable(b: Buf, m: Msg)
    requires b.Valid() && Sendable(m) && Frame(m) <= b.Contents()
    ensures Decode(b) == Result(Decoded(m), b.RecycleRead(PkLen(m)))
  {
    DecodeInvertsFrame(b, m);
    CStrIsWhole(m.msgReq);
    CStrIsWhole(m.service);
    CStrIsWhole(m.errInfo);
  }

  lemma ExecuteOne(b: Buf, m: Msg)
    requires b.Tidy() && Sendable(m) && Frame(m) <= b.Contents()
    ensures
      var b' := b.RecycleRead(PkLen(m));
      b'.Tidy() && Execute(b) == Execute(b').(msgs := [m] + Execute(b').msgs)
  {
    DecodeSendable(b, m);
    FrameLayout(m);
    ReadableIsLength(b);
    DecodeKeeps(b);
    hide Frame, Decode, Buf.RecycleRead, Buf.Tidy, Buf.Contents;
  }

  /** execute delivers every frame in the buffer in order, and then does what it does with the rest. */
  lemma {:induction false} ExecuteDelivers(b: Buf, ms: seq<Msg>)
    requires b.Tidy() && AllSendable(ms) && Frames(ms) <= b.Contents()
    ensures
      var t := AfterFrames(b, ms);
      && t.Tidy() && t.Contents() == b.Contents()[|Frames(ms)|..]
      && Execute(b) == Execute(t).(msgs := ms + Execute(t).msgs)
    decreases |ms|
  {
    hide Buf.RecycleRead, Buf.Contents;
    if ms == [] {
      assert ms + Execute(b).msgs == Execute(b).msgs;
    } else {
      FrameTaken(b, ms);
      var b' := b.RecycleRead(PkLen(ms[0]));
      ExecuteDelivers(b', ms[1..]);
      ExecuteOne(b, ms[0]);
      AfterFramesStep(b, ms);
      Prepend(Execute(b), Execute(b'), Execute(AfterFrames(b, ms)), ms);
      DropTwice(b.Contents(), PkLen(ms[0]), |Frames(ms[1..])|);
    }
  }

  lemma DropTwice<T>(s: seq<T>, x: nat, y: nat)
    requires x + y <= |s|
    ensures s[x..][y..] == s[x + y..]
  {
  }

  lemma Prepend(e: Exec, e': Exec, t: Exec, ms: seq<Msg>)
    requires ms != [] && e == e'.(msgs := [ms[0]] + e'.msgs) && e' == t.(msgs := ms[1..] + t.msgs)
    ensures e == t.(msgs := ms + t.msgs)
  {
    assert [ms[0]] + (ms[1..] + t.msgs) == ms + t.msgs;
  }

  lemma AfterFramesStep(b: Buf, ms: seq<Msg>)
    requires b.Tidy() && AllSendable(ms) && ms != [] && Frames(ms) <= b.Contents()
    ensures
      var b' := b.RecycleRead(PkLen(ms[0]));
      && b'.Tidy() && Frames(ms[1..]) <= b'.Contents()
      && AfterFrames(b, ms) == AfterFrames(b', ms[1..])
      && |Frames(ms)| == PkLen(ms[0]) + |Frames(ms[1..])|
  {
    FrameTaken(b, ms);
    FrameLayout(ms[0]);
  }

  /** The bytes at k stop the search: a start byte whose length cannot be read, or whose frame, by that
      length, ends in sight: in front of the vector or at an end byte. */
  predicate StopsAt(b: Buf, k: nat)
    requires b.Valid()
  {
    && k + 1 < b.wr && b.data[k] == PB_START
    && (InRange(b.data, k + 1, 4) ==>
          var j := k + Int32At(b.data, k + 1) - 1;
          j < b.wr && (j < 0 || b.data[j] == PB_END))
  }

  /** Of those, an end byte, a start byte and a length of zero: recycling that frame consumes nothing. */
  predicate EmptyFrameAt(b: Buf, k: nat)
    requires b.Valid()
  {
    StopsAt(b, k) && k > 0 && InRange(b.data, k + 1, 4) && Int32At(b.data, k + 1) == 0
  }

  /** No false frame among the readable bytes: nothing in them stops the search, unless an empty frame is
      met first. */
  ghost predicate Quiet(b: Buf)
    requires b.Valid()
  {
    forall k: nat :: b.rd <= k < b.wr && StopsAt(b, k) ==>
      exists z: nat :: b.rd <= z <= k && EmptyFrameAt(b, z)
  }

  lemma {:induction false} SkipTo(b: Buf, i: nat, f: nat)
    requires b.Valid() && i <= f <= b.wr && forall k: nat :: i <= k < f ==> !StopsAt(b, k)
    ensures ScanFrom(b, i) == ScanFrom(b, f)
    decreases f - i
  {
    if i < f {
      SkipTo(b, i + 1, f);
      assert !StopsAt(b, i);
    }
  }

  /** The search finds nothing exactly when nothing stops it. */
  lemma NotFoundIff(b: Buf, i: nat)
    requires b.Valid()
    ensures ScanFrom(b, i) == NotFound <==> forall k: nat :: i <= k < b.wr ==> !StopsAt(b, k)
  {
    if i <= b.wr {
      var f := FirstStop(b, i);
      SkipTo(b, i, f);
      if f < b.wr { StopScan(b, f); }
    }
  }

  /** The first place from i on that stops the search, or the write index. */
  function FirstStop(b: Buf, i: nat): (f: nat)
    requires b.Valid() && i <= b.wr
    ensures i <= f <= b.wr && (f < b.wr ==> StopsAt(b, f)) && forall k: nat :: i <= k < f ==> !StopsAt(b, k)
    decreases b.wr - i
  {
    if i == b.wr || StopsAt(b, i) then i else FirstStop(b, i + 1)
  }

  lemma StopScan(b: Buf, f: nat)
    requires b.Valid() && StopsAt(b, f)
    ensures ScanFrom(b, f) != NotFound
    ensures EmptyFrameAt(b, f) <==> ScanFrom(b, f).Found? && ScanFrom(b, f).pkLen == 0
  {
    hide Int32At;
  }

  /** Quiet says of the bytes what the search says of them. */
  lemma QuietScan(b: Buf)
    requires b.Valid()
    ensures
      var s := ScanFrom(b, b.rd);
      Quiet(b) <==> s.NotFound? || (s.Found? && s.pkLen == 0)
  {
    var f := FirstStop(b, b.rd);
    NotFoundIff(b, b.rd);
    SkipTo(b, b.rd, f);
    if f < b.wr {
      StopScan(b, f);
      hide StopsAt, ScanFrom;
      if EmptyFrameAt(b, f) {
        assert Quiet(b) by {
          forall k: nat | b.rd <= k < b.wr && StopsAt(b, k) ensures exists z: nat :: b.rd <= z <= k && EmptyFrameAt(b, z) {
            assert f <= k;
          }
        }
      } else {
        forall z: nat | b.rd <= z <= f ensures !EmptyFrameAt(b, z) {
          if z < f { EmptyStops(b, z); }
        }
      }
    }
  }

  lemma EmptyStops(b: Buf, z: nat)
    requires b.Valid()
    ensures EmptyFrameAt(b, z) ==> StopsAt(b, z)
  {
  }

  /** execute leaves a non-empty buffer alone exactly when it is quiet. A frame the search meets anywhere
      else makes it drop or decode bytes that belong to the message still on its way. */
  lemma LeftAloneIffQuiet(b: Buf)
    requires b.Tidy() && b.Readable() > 0
    ensures Execute(b) == Exec([], b, false) <==> Quiet(b)
  {
    var s := ScanFrom(b, b.rd);
    QuietScan(b);
    hide Quiet, ScanFrom;
    ScanInRange(b, b.rd);
    DecodeKeeps(b);
    if s.Found? && 0 <= b.rd + s.pkLen { RecycledReadable(b, s.pkLen); }
  }

  /** One input and execute on a buffer that holds the start of a stream of frames: exactly the complete
      messages are delivered and exactly the incomplete tail is left, if and only if that tail is
      quiet. */
  lemma ExecuteExactIff(b: Buf, ms: seq<Msg>)
    requires b.Tidy() && AllSendable(ms) && Frames(ms) <= b.Contents()
    ensures
      var t := AfterFrames(b, ms);
      && t.Valid()
      && (Execute(b) == Exec(ms, t, false) <==> t.Readable() == 0 || Quiet(t))
  {
    ExecuteDelivers(b, ms);
    var t := AfterFrames(b, ms);
    if t.Readable() > 0 { LeftAloneIffQuiet(t); }
    assert ms + [] == ms;
    if Execute(b) == Exec(ms, t, false) { assert Execute(t).msgs == []; }
  }

  // --- Which tails are quiet ---

  /** The start of a frame, not all of it. */
  ghost predicate Tail(b: Buf, m: Msg)
    requires b.Valid() && Fits32(m)
  {
    b.Contents() < Frame(m)
  }

  lemma TailStart(b: Buf, m: Msg)
    requires b.Tidy() && Fits32(m) && Tail(b, m) && (b.Readable() == 1 || b.Readable() >= 5)
    ensures !StopsAt(b, b.rd)
  {
    hide Frame, ToNet;
    if b.Readable() >= 5 {
      FrameLayout(m);
      var f, c := Frame(m), b.Contents();
      SameBytes(b, b.rd);
      assert c[1..5] == f[1..5] == ToNet(PkLen(m));
      NetRoundTrip(PkLen(m));
    }
  }

  /** One byte, or at least five, of a frame are quiet exactly when the bytes after the first hold no false
      frame, unless an empty one comes first. */
  lemma LongTailQuietIff(b: Buf, m: Msg)
    requires b.Tidy() && Fits32(m) && Tail(b, m) && (b.Readable() == 1 || b.Readable() >= 5)
    ensures Quiet(b) <==>
      forall k: nat :: b.rd < k < b.wr && StopsAt(b, k) ==> exists z: nat :: b.rd < z <= k && EmptyFrameAt(b, z)
  {
    hide StopsAt, EmptyFrameAt, Frame;
    TailStart(b, m);
    EmptyStops(b, b.rd);
    if Quiet(b) {
      forall k: nat | b.rd < k < b.wr && StopsAt(b, k) ensures exists z: nat :: b.rd < z <= k && EmptyFrameAt(b, z) {
        var z: nat :| b.rd <= z <= k && EmptyFrameAt(b, z);
        assert z != b.rd;
      }
    }
  }

  /** No false frame starts at k, behind the first byte of a tail of two to four: what looks like its length is
      in range and not negative, or negative and ends at no end byte. */
  predicate NoneAt(b: Buf, k: nat)
    requires b.Valid()
  {
    k + 1 < b.wr && b.data[k] == PB_START ==>
      && InRange(b.data, k + 1, 4)
      && (b.data[k + 1] >= 0x80 ==>
            var j := k + Int32At(b.data, k + 1) - 1;
            j >= 0 && (j < b.wr ==> b.data[j] != PB_END))
  }

  /** Two to four bytes end inside the length. The decoder reads the rest of it from beyond the write
      index: that is quiet exactly when the vector reaches that far, the length so read is not zero or the
      frame does not start at the front of the vector, and no false frame starts at the next two bytes. */
  lemma ShortTailQuietIff(b: Buf, m: Msg)
    requires b.Tidy() && Fits32(m) && Tail(b, m) && 2 <= b.Readable() <= 4
    ensures Quiet(b) <==>
      && b.rd + 5 <= |b.data| && (b.rd > 0 || exists k :: b.rd < k < b.wr && b.data[k] != 0)
      && NoneAt(b, b.rd + 1) && NoneAt(b, b.rd + 2)
  {
    hide Frame, Tail, Int32At, Buf.Contents, NoneAt, StopsAt, EmptyFrameAt, Quiet;
    TailBytes(b, m);
    FirstIsFalse(b);
    LaterIsFalse(b, b.rd + 1);
    LaterIsFalse(b, b.rd + 2);
    EmptyStops(b, b.rd);
    EmptyStops(b, b.rd + 1);
    EmptyStops(b, b.rd + 2);
    NotEmptyBehind(b);
    ShortQuiet(b);
  }

  lemma TailBytes(b: Buf, m: Msg)
    requires b.Tidy() && Fits32(m) && Tail(b, m) && 2 <= b.Readable() <= 4
    ensures b.data[b.rd] == PB_START && b.data[b.rd + 1] < 0x80
  {
    FrameLayout(m);
    var f, c := Frame(m), b.Contents();
    hide Frame;
    assert c == f[..|c|];
    assert c[1] == f[1..5][0];
    assert c[0] == b.data[b.rd] && c[1] == b.data[b.rd + 1];
  }

  /** When the first byte of such a tail stops the search, but not as an empty frame. */
  lemma FirstIsFalse(b: Buf)
    requires b.Tidy() && 2 <= b.Readable() <= 4 && b.data[b.rd] == PB_START && b.data[b.rd + 1] < 0x80
    ensures StopsAt(b, b.rd) && !EmptyFrameAt(b, b.rd) <==>
      !(b.rd + 5 <= |b.data| && (b.rd > 0 || exists k :: b.rd < k < b.wr && b.data[k] != 0))
    ensures EmptyFrameAt(b, b.rd) ==> forall k :: b.rd < k < b.wr ==> b.data[k] == 0
  {
    if b.rd + 5 <= |b.data| {
      var bytes := b.data[b.rd + 1..b.rd + 5];
      hide FromNet;
      assert forall k :: 0 <= k < 4 ==> bytes[k] == b.data[b.rd + 1 + k];
      assert bytes[3] == 0;
      ZeroPadded(bytes);
      assert FromNet(bytes) == 0 <==> !exists k :: b.rd < k < b.wr && b.data[k] != 0 by {
        if FromNet(bytes) != 0 {
          var k := if bytes[0] != 0 then 0 else if bytes[1] != 0 then 1 else 2;
          assert b.data[b.rd + 1 + k] != 0 && b.rd + 1 + k < b.wr;
        }
      }
    }
  }

  /** And when one of the next two does. */
  lemma LaterIsFalse(b: Buf, k: nat)
    requires b.Tidy() && 2 <= b.Readable() <= 4 && b.rd < k <= b.rd + 2
    ensures StopsAt(b, k) && !EmptyFrameAt(b, k) <==> !NoneAt(b, k)
  {
    if k + 1 < b.wr && b.data[k] == PB_START && InRange(b.data, k + 1, 4) {
      var bytes := b.data[k + 1..k + 5];
      assert bytes[0] == b.data[k + 1] && bytes[2] == b.data[k + 3] == 0 && bytes[3] == b.data[k + 4] == 0;
      FrontHeavy(bytes);
      hide FromNet;
    }
  }

  lemma FrontHeavy(bytes: seq<Byte>)
    requires |bytes| == 4 && bytes[2] == 0 && bytes[3] == 0
    ensures if bytes[0] >= 0x80 then FromNet(bytes) < 0 else FromNet(bytes) == 0 || FromNet(bytes) >= 0x1_0000
  {
  }

  lemma NotEmptyBehind(b: Buf)
    requires b.Valid() && 2 <= b.Readable() && b.data[b.rd] == PB_START
    ensures !EmptyFrameAt(b, b.rd + 1)
  {
    hide Int32At;
  }

  lemma ShortQuiet(b: Buf)
    requires b.Valid() && 2 <= b.Readable() <= 4 && !EmptyFrameAt(b, b.rd + 1)
    requires EmptyFrameAt(b, b.rd) ==> forall k :: b.rd < k < b.wr ==> b.data[k] == 0
    ensures Quiet(b) <==>
      forall k: nat :: b.rd <= k <= b.rd + 2 && StopsAt(b, k) ==> EmptyFrameAt(b, k)
  {
    hide EmptyFrameAt, Int32At;
    if Quiet(b) {
      forall k: nat | b.rd <= k <= b.rd + 2 && StopsAt(b, k) ensures EmptyFrameAt(b, k) {
        var z: nat :| b.rd <= z <= k && EmptyFrameAt(b, z);
      }
    }
  }

  lemma ZeroPadded(bytes: seq<Byte>)
    requires |bytes| == 4 && bytes[0] < 0x80 && bytes[3] == 0
    ensures FromNet(bytes) == 0 <==> bytes[0] == 0 && bytes[1] == 0 && bytes[2] == 0
    ensures FromNet(bytes) == 0 || FromNet(bytes) >= 0x100
  {
  }

  // --- Whole connections ---

  ghost function AllBytes(rounds: seq<seq<seq<Byte>>>): seq<Byte> {
    if rounds == [] then [] else Concat(rounds[0]) + AllBytes(rounds[1..])
  }

  lemma {:induction false} ExecuteKeeps(b: Buf)
    requires b.Tidy()
    ensures Execute(b).buf.Tidy()
    decreases b.Readable()
  {
    if b.Readable() != 0 {
      DecodeKeeps(b);
      if Decode(b).outcome.Decoded? { ExecuteKeeps(Decode(b).buf); }
    }
  }

  /** The last read found the peer gone. */
  predicate Closes(chunks: seq<seq<Byte>>) {
    chunks != [] && chunks[|chunks| - 1] == []
  }

  /** An empty read ends the connection: input clears it and gives the thread away for good. */
  ghost predicate FeasibleRounds(b: Buf, rounds: seq<seq<seq<Byte>>>)
    requires b.Tidy()
    decreases |rounds|
  {
    rounds == [] || (
      && Feasible(b, rounds[0])
      && if Closes(rounds[0]) then |rounds| == 1
         else
           InputAppends(b, rounds[0]);
           ExecuteKeeps(AfterInput(b, rounds[0]));
           FeasibleRounds(Execute(AfterInput(b, rounds[0])).buf, rounds[1..]))
  }

  /** Alternating input and execute. An input that closes the connection is not followed by an execute. */
  ghost function RunRounds(b: Buf, rounds: seq<seq<seq<Byte>>>): Exec
    requires b.Tidy() && FeasibleRounds(b, rounds)
    decreases |rounds|
  {
    if rounds == [] then Exec([], b, false)
    else
      InputAppends(b, rounds[0]);
      if Closes(rounds[0]) then Exec([], AfterInput(b, rounds[0]), false)
      else
        ExecuteKeeps(AfterInput(b, rounds[0]));
        var e := Execute(AfterInput(b, rounds[0]));
        var rest := RunRounds(e.buf, rounds[1..]);
        Exec(e.msgs + rest.msgs, rest.buf, e.overrun || rest.overrun)
  }

  lemma OneRound(b: Buf, chunks: seq<seq<Byte>>)
    requires b.Tidy() && Feasible(b, chunks)
    ensures AfterInput(b, chunks).Tidy() && FeasibleRounds(b, [chunks])
    ensures RunRounds(b, [chunks]) ==
      if Closes(chunks) then Exec([], AfterInput(b, chunks), false) else Execute(AfterInput(b, chunks))
  {
    hide Execute, Feasible, AfterInput, Buf.Tidy, Closes;
    InputAppends(b, chunks);
    ExecuteKeeps(AfterInput(b, chunks));
    var e := Execute(AfterInput(b, chunks));
    assert [chunks][1..] == [] && e.msgs + [] == e.msgs;
  }

  /** How many bytes are read before the input that closes the connection, or in all. */
  ghost function Served(rounds: seq<seq<seq<Byte>>>): nat {
    if rounds == [] || Closes(rounds[0]) then 0 else |Concat(rounds[0])| + Served(rounds[1..])
  }

  lemma {:induction false} FramesSplit(ms: seq<Msg>, k: nat)
    requires AllSendable(ms) && k <= |ms|
    ensures Frames(ms) == Frames(ms[..k]) + Frames(ms[k..])
  {
    hide *;
    SendableParts(ms, k);
    if k == 0 {
      assert ms[0..] == ms;
      FramesOfNone(ms[..0]);
    } else {
      FramesStep(ms);
      FramesStep(ms[..k]);
      FramesSplit(ms[1..], k - 1);
      assert ms[..k][1..] == ms[1..][..k - 1];
      assert ms[1..][k - 1..] == ms[k..];
      Assoc(Frame(ms[0]), Frames(ms[..k][1..]), Frames(ms[k..]));
    }
  }

  lemma FramesOfNone(ms: seq<Msg>)
    requires |ms| == 0
    ensures AllSendable(ms) && Frames(ms) == []
  {
  }

  lemma SendableParts(ms: seq<Msg>, k: nat)
    requires AllSendable(ms) && k <= |ms|
    ensures AllSendable(ms[..k]) && AllSendable(ms[k..])
  {
    hide Sendable;
  }

  lemma Assoc<T>(a: seq<T>, b: seq<T>, c: seq<T>)
    ensures a + (b + c) == (a + b) + c
  {
  }

  /** c is the frames of ms[..k] followed by a proper part of the next frame. */
  ghost predicate CutAt(ms: seq<Msg>, c: seq<Byte>, k: nat)
    requires AllSendable(ms) && k <= |ms|
  {
    var head := Frames(ms[..k]);
    && head <= c
    && if k == |ms| then c == head else c[|head|..] < Frame(ms[k])
  }

  lemma CutLater(ms: seq<Msg>, c: seq<Byte>, k: nat)
    requires AllSendable(ms) && ms != [] && k <= |ms| - 1
    requires Frame(ms[0]) <= c && CutAt(ms[1..], c[|Frame(ms[0])|..], k)
    ensures CutAt(ms, c, k + 1)
  {
    hide Frame;
    var f, head := Frame(ms[0]), Frames(ms[1..][..k]);
    assert ms[..k + 1][1..] == ms[1..][..k];
    assert Frames(ms[..k + 1]) == f + head;
    assert c == f + c[|f|..];
    assert c[|f|..][..|head|] == head;
    assert c[..|f + head|] == f + head;
    assert c[|f|..][|head|..] == c[|f + head|..];
  }

  /** A prefix of the stream is cut right after its complete messages. */
  lemma {:induction false} CompletePrefix(ms: seq<Msg>, c: seq<Byte>)
    requires AllSendable(ms) && c <= Frames(ms)
    ensures CutAt(ms, c, Complete(ms, |c|))
  {
    hide *;
    if |ms| == 0 {
      NoneCut(ms, c);
    } else {
      FramesStep(ms);
      CompleteOf(ms, |c|);
      var f, rest := Frame(ms[0]), Frames(ms[1..]);
      CutParts(f, rest, c);
      if |c| < |f| {
        FirstCut(ms, c);
      } else {
        CompletePrefix(ms[1..], c[|f|..]);
        CutLater(ms, c, Complete(ms[1..], |c| - |f|));
      }
    }
  }

  lemma NoneCut(ms: seq<Msg>, c: seq<Byte>)
    requires |ms| == 0 && AllSendable(ms) && c <= Frames(ms)
    ensures CutAt(ms, c, Complete(ms, |c|))
  {
  }

  lemma CompleteOf(ms: seq<Msg>, n: int)
    requires ms != []
    ensures Complete(ms, n) == if n < PkLen(ms[0]) then 0 else 1 + Complete(ms[1..], n - PkLen(ms[0]))
  {
    hide PkLen;
  }

  lemma CutParts<T>(f: seq<T>, rest: seq<T>, c: seq<T>)
    requires c <= f + rest
    ensures if |c| < |f| then c < f else f <= c && c[|f|..] <= rest
  {
    if |c| < |f| {
      assert c == f[..|c|];
    } else {
      assert c[..|f|] == f && c[|f|..] == rest[..|c| - |f|];
    }
  }

  lemma FirstCut(ms: seq<Msg>, c: seq<Byte>)
    requires AllSendable(ms) && ms != [] && c < Frame(ms[0])
    ensures CutAt(ms, c, 0)
  {
    assert ms[..0] == [];
    hide Frame;
    assert c[0..] == c;
  }

  function TotalLen(ms: seq<Msg>): nat {
    if ms == [] then 0 else PkLen(ms[0]) + TotalLen(ms[1..])
  }

  lemma {:induction false} FramesLength(ms: seq<Msg>)
    requires AllSendable(ms)
    ensures |Frames(ms)| == TotalLen(ms)
  {
    if ms != [] {
      FrameLayout(ms[0]);
      FramesLength(ms[1..]);
    }
  }

  /** Counting in two steps. */
  lemma {:induction false} CompleteAdds(ms: seq<Msg>, n: int, d: nat)
    ensures
      var k := Complete(ms, n);
      Complete(ms, n + d) == k + Complete(ms[k..], n - TotalLen(ms[..k]) + d)
  {
    if ms == [] || n < PkLen(ms[0]) {
      assert ms[0..] == ms && ms[..0] == [];
    } else {
      var k := Complete(ms[1..], n - PkLen(ms[0]));
      CompleteAdds(ms[1..], n - PkLen(ms[0]), d);
      assert ms[k + 1..] == ms[1..][k..];
      assert ms[..k + 1][1..] == ms[1..][..k];
    }
  }

  /** A buffer that holds the start of a stream, the rest of which is still to come. */
  lemma StreamCut(b: Buf, ms: seq<Msg>, rest: seq<Byte>)
    requires b.Tidy() && AllSendable(ms) && b.Contents() + rest <= Frames(ms)
    ensures
      var k := Complete(ms, |b.Contents()|);
      && Frames(ms[..k]) <= b.Contents() && CutAt(ms, b.Contents(), k)
      && var t := AfterFrames(b, ms[..k]);
      && t.Tidy() && t.Contents() == b.Contents()[|Frames(ms[..k])|..]
      && t.Contents() + rest <= Frames(ms[k..])
  {
    var c := b.Contents();
    var k := Complete(ms, |c|);
    PrefixParts(c, rest, Frames(ms));
    CompletePrefix(ms, c);
    assert Frames(ms[..k]) <= c;
    FramesSplit(ms, k);
    ExecuteDelivers(b, ms[..k]);
    AfterHead(c, rest, Frames(ms[..k]), Frames(ms[k..]));
    hide Execute, AfterFrames, Frames, CutAt, Complete, Buf.Contents, Buf.Tidy, Frame;
  }

  /** The input of the first round. */
  lemma RoundInput(b: Buf, rounds: seq<seq<seq<Byte>>>)
    requires b.Tidy() && rounds != [] && Feasible(b, rounds[0])
    ensures AfterInput(b, rounds[0]).Tidy()
    ensures b.Contents() + AllBytes(rounds) == AfterInput(b, rounds[0]).Contents() + AllBytes(rounds[1..])
  {
    InputAppends(b, rounds[0]);
    var c, r, rest := b.Contents(), Concat(rounds[0]), AllBytes(rounds[1..]);
    assert AllBytes(rounds) == r + rest;
    hide Buf.Tidy, Buf.Contents, Feasible, AfterInput, Concat;
    Assoc(c, r, rest);
  }

  /** One round's input, and the cut it makes. */
  lemma RoundCut(b: Buf, ms: seq<Msg>, rounds: seq<seq<seq<Byte>>>)
    requires b.Tidy() && AllSendable(ms) && b.Contents() + AllBytes(rounds) <= Frames(ms)
    requires rounds != [] && Feasible(b, rounds[0])
    ensures
      var b1 := AfterInput(b, rounds[0]);
      && b1.Tidy()
      && var k := Complete(ms, |b1.Contents()|);
      && AllSendable(ms[..k]) && AllSendable(ms[k..]) && Frames(ms[..k]) <= b1.Contents()
      && var t := AfterFrames(b1, ms[..k]);
      && t.Tidy() && t.Contents() + AllBytes(rounds[1..]) <= Frames(ms[k..])
  {
    hide *;
    RoundInput(b, rounds);
    var b1 := AfterInput(b, rounds[0]);
    TidyIsValid(b1);
    SendableParts(ms, Complete(ms, |b1.Contents()|));
    StreamCut(b1, ms, AllBytes(rounds[1..]));
  }

  lemma AfterHead<T>(c: seq<T>, rest: seq<T>, head: seq<T>, others: seq<T>)
    requires c + rest <= head + others && head <= c
    ensures c[|head|..] + rest <= others
  {
    assert c[|head|..] + rest == (c + rest)[|head|..];
    assert others == (head + others)[|head|..];
    assert (c + rest)[|head|..] == (head + others)[..|c + rest|][|head|..];
  }

  /** At the end of every round that execute follows, what is left of the buffer once its complete frames
      are gone is empty or quiet. */
  ghost predicate QuietCuts(b: Buf, ms: seq<Msg>, rounds: seq<seq<seq<Byte>>>)
    requires b.Tidy() && AllSendable(ms) && b.Contents() + AllBytes(rounds) <= Frames(ms)
    decreases |rounds|
  {
    rounds == [] || (
      && Feasible(b, rounds[0])
      && if Closes(rounds[0]) then |rounds| == 1
         else
           RoundCut(b, ms, rounds);
           var b1 := AfterInput(b, rounds[0]);
           var k := Complete(ms, |b1.Contents()|);
           var t := AfterFrames(b1, ms[..k]);
           (t.Readable() == 0 || Quiet(t)) && QuietCuts(t, ms[k..], rounds[1..]))
  }

  /** Exactly the messages wholly in the first n bytes of `stream` came out, in order, and exactly the
      other bytes are left. */
  ghost predicate Delivers(e: Exec, ms: seq<Msg>, n: int, stream: seq<Byte>)
    requires AllSendable(ms)
  {
    var k := Complete(ms, n);
    && e.msgs == ms[..k] && !e.overrun
    && Frames(ms[..k]) <= stream
    && e.buf.Tidy() && e.buf.Contents() == stream[|Frames(ms[..k])|..]
  }

  /** However a stream of frames is cut into reads, input and execute together deliver exactly the
      messages that have fully arrived, in order, and keep exactly the bytes of the one that has not,
      as long as no round ends on a tail that is not quiet. When the connection is closed, that is said of
      the bytes read before the input that closes it; what that one reads is only kept. */
  lemma {:induction false} ChunkIndependence(b: Buf, ms: seq<Msg>, rounds: seq<seq<seq<Byte>>>)
    requires b.Tidy() && AllSendable(ms) && FeasibleRounds(b, rounds)
    requires b.Contents() + AllBytes(rounds) <= Frames(ms)
    requires Complete(ms, |b.Contents()|) == 0
    requires QuietCuts(b, ms, rounds)
    ensures
      Delivers(RunRounds(b, rounds), ms, |b.Contents()| + Served(rounds), b.Contents() + AllBytes(rounds))
    decreases |rounds|
  {
    hide *;
    TidyIsValid(b);
    if |rounds| == 0 {
      NothingDelivered(b, ms, rounds);
    } else if Closes(rounds[0]) {
      ClosedAtOnce(b, ms, rounds);
    } else {
      QuietCutsUnfold(b, ms, rounds);
      RoundCut(b, ms, rounds);
      RoundInput(b, rounds);
      ServedStep(b, rounds);
      var b1, rest := AfterInput(b, rounds[0]), AllBytes(rounds[1..]);
      TidyIsValid(b1);
      StreamCut(b1, ms, rest);
      var k := Complete(ms, |b1.Contents()|);
      var t := AfterFrames(b1, ms[..k]);
      TidyIsValid(t);
      ExecuteExactIff(b1, ms[..k]);
      RunRoundsUnfold(b, rounds);
      TailIsIncomplete(ms, b1.Contents(), k);
      ChunkIndependence(t, ms[k..], rounds[1..]);
      DeliversJoin(ms, b1.Contents(), rest, k, Served(rounds[1..]), RunRounds(t, rounds[1..]));
    }
  }

  lemma ServedStep(b: Buf, rounds: seq<seq<seq<Byte>>>)
    requires b.Tidy() && rounds != [] && Feasible(b, rounds[0]) && !Closes(rounds[0])
    ensures
      AfterInput(b, rounds[0]).Tidy() &&
      |b.Contents()| + Served(rounds) == |AfterInput(b, rounds[0]).Contents()| + Served(rounds[1..])
  {
    hide Feasible, AfterInput, Buf.Tidy, Buf.Contents, Concat, Closes;
    TidyIsValid(b);
    InputAppends(b, rounds[0]);
  }

  /** Every complete message is delivered if and only if the input that closes the connection, if one does,
      completes none. */
  lemma AllDeliveredIff(b: Buf, ms: seq<Msg>, rounds: seq<seq<seq<Byte>>>)
    requires b.Tidy() && AllSendable(ms) && FeasibleRounds(b, rounds)
    requires b.Contents() + AllBytes(rounds) <= Frames(ms)
    requires Complete(ms, |b.Contents()|) == 0 && QuietCuts(b, ms, rounds)
    ensures
      var all := |b.Contents() + AllBytes(rounds)|;
      RunRounds(b, rounds).msgs == ms[..Complete(ms, all)] <==>
      Complete(ms, |b.Contents()| + Served(rounds)) == Complete(ms, all)
  {
    hide *;
    TidyIsValid(b);
    var stream, n := b.Contents() + AllBytes(rounds), |b.Contents()| + Served(rounds);
    ChunkIndependence(b, ms, rounds);
    DeliveredMsgs(RunRounds(b, rounds), ms, n, stream);
    SameTakes(ms, Complete(ms, n), Complete(ms, |stream|));
  }

  lemma DeliveredMsgs(e: Exec, ms: seq<Msg>, n: int, stream: seq<Byte>)
    requires AllSendable(ms) && Delivers(e, ms, n, stream)
    ensures e.msgs == ms[..Complete(ms, n)]
  {
    hide Complete, Frames, AllSendable, Buf.Contents, Buf.Tidy;
  }

  lemma SameTakes<T>(s: seq<T>, i: nat, j: nat)
    requires i <= |s| && j <= |s|
    ensures s[..i] == s[..j] <==> i == j
  {
    assert |s[..i]| == i && |s[..j]| == j;
  }

  lemma NothingDelivered(b: Buf, ms: seq<Msg>, rounds: seq<seq<seq<Byte>>>)
    requires b.Tidy() && AllSendable(ms) && |rounds| == 0 && FeasibleRounds(b, rounds)
    requires Complete(ms, |b.Contents()|) == 0
    ensures
      Delivers(RunRounds(b, rounds), ms, |b.Contents()| + Served(rounds), b.Contents() + AllBytes(rounds))
  {
    hide Complete, Frame, Buf.Tidy;
    TidyIsValid(b);
    FramesOfNone(ms[..0]);
    assert b.Contents() + AllBytes(rounds) == b.Contents();
  }

  lemma ClosedAtOnce(b: Buf, ms: seq<Msg>, rounds: seq<seq<seq<Byte>>>)
    requires b.Tidy() && AllSendable(ms) && rounds != [] && Closes(rounds[0]) && FeasibleRounds(b, rounds)
    requires Complete(ms, |b.Contents()|) == 0
    ensures
      Delivers(RunRounds(b, rounds), ms, |b.Contents()| + Served(rounds), b.Contents() + AllBytes(rounds))
  {
    hide Complete, Frame, Buf.Tidy, Buf.Contents, Feasible, AfterInput, Concat, Execute, Closes;
    TidyIsValid(b);
    InputAppends(b, rounds[0]);
    FramesOfNone(ms[..0]);
    assert AllBytes(rounds[1..]) == [];
    assert AllBytes(rounds) == Concat(rounds[0]);
  }

  lemma QuietCutsUnfold(b: Buf, ms: seq<Msg>, rounds: seq<seq<seq<Byte>>>)
    requires b.Tidy() && AllSendable(ms) && b.Contents() + AllBytes(rounds) <= Frames(ms)
    requires rounds != [] && !Closes(rounds[0]) && QuietCuts(b, ms, rounds)
    ensures Feasible(b, rounds[0])
    ensures
      (RoundCut(b, ms, rounds);
       var b1 := AfterInput(b, rounds[0]);
       var k := Complete(ms, |b1.Contents()|);
       var t := AfterFrames(b1, ms[..k]);
       (t.Readable() == 0 || Quiet(t)) && QuietCuts(t, ms[k..], rounds[1..]))
  {
    hide Feasible, AfterInput, AfterFrames, Complete, Quiet, Frames, AllBytes, Buf.Tidy, Buf.Contents, AllSendable;
  }

  lemma RunRoundsUnfold(b: Buf, rounds: seq<seq<seq<Byte>>>)
    requires b.Tidy() && rounds != [] && !Closes(rounds[0]) && FeasibleRounds(b, rounds)
    ensures Feasible(b, rounds[0]) && AfterInput(b, rounds[0]).Tidy()
    ensures
      var e := Execute(AfterInput(b, rounds[0]));
      && e.buf.Tidy() && FeasibleRounds(e.buf, rounds[1..])
      && var rest := RunRounds(e.buf, rounds[1..]);
      RunRounds(b, rounds) == Exec(e.msgs + rest.msgs, rest.buf, e.overrun || rest.overrun)
  {
    hide Execute, Feasible, AfterInput, Buf.Tidy;
    InputAppends(b, rounds[0]);
    ExecuteKeeps(AfterInput(b, rounds[0]));
  }

  lemma DeliversJoin(ms: seq<Msg>, c: seq<Byte>, rest: seq<Byte>, k: nat, d: nat, e: Exec)
    requires AllSendable(ms) && k == Complete(ms, |c|) && Frames(ms[..k]) <= c
    requires
      var left := c[|Frames(ms[..k])|..];
      Delivers(e, ms[k..], |left| + d, left + rest)
    ensures Delivers(e.(msgs := ms[..k] + e.msgs), ms, |c| + d, c + rest)
  {
    hide Frames, Complete, CutAt, Buf.Contents;
    var left := c[|Frames(ms[..k])|..];
    var k' := Complete(ms[k..], |left| + d);
    assert e.msgs == ms[k..][..k'] && e.buf.Contents() == (left + rest)[|Frames(ms[k..][..k'])|..];
    assert !e.overrun && e.buf.Tidy();
    CompleteJoins(ms, c, d, k);
    RoundJoins(ms, c, rest, k, k');
  }

  lemma CompleteJoins(ms: seq<Msg>, c: seq<Byte>, d: nat, k: nat)
    requires AllSendable(ms) && k == Complete(ms, |c|) && Frames(ms[..k]) <= c
    ensures Complete(ms, |c| + d) == k + Complete(ms[k..], |c[|Frames(ms[..k])|..]| + d)
  {
    hide Frames, Complete, TotalLen;
    FramesLength(ms[..k]);
    CompleteAdds(ms, |c|, d);
  }

  lemma TailIsIncomplete(ms: seq<Msg>, c: seq<Byte>, k: nat)
    requires AllSendable(ms) && k <= |ms| && CutAt(ms, c, k)
    ensures Complete(ms[k..], |c[|Frames(ms[..k])|..]|) == 0
  {
    if k < |ms| { FrameLayout(ms[k]); }
  }

  /** Two consecutive stretches of messages, and the bytes after them. */
  lemma RoundJoins(ms: seq<Msg>, c: seq<Byte>, rest: seq<Byte>, k: nat, k': nat)
    requires AllSendable(ms) && k + k' <= |ms| && Frames(ms[..k]) <= c
    requires Frames(ms[k..][..k']) <= c[|Frames(ms[..k])|..] + rest
    ensures ms[..k] + ms[k..][..k'] == ms[..k + k']
    ensures Frames(ms[..k + k']) <= c + rest
    ensures (c[|Frames(ms[..k])|..] + rest)[|Frames(ms[k..][..k'])|..] == (c + rest)[|Frames(ms[..k + k'])|..]
  {
    hide Frame;
    var both := ms[..k + k'];
    assert both[..k] == ms[..k] && both[k..] == ms[k..][..k'];
    FramesSplit(both, k);
    HeadJoins(c, rest, Frames(ms[..k]), Frames(ms[k..][..k']));
    hide Frames;
  }

  lemma HeadJoins<T>(c: seq<T>, rest: seq<T>, head: seq<T>, next: seq<T>)
    requires head <= c && next <= c[|head|..] + rest
    ensures head + next <= c + rest
    ensures (c[|head|..] + rest)[|next|..] == (c + rest)[|head + next|..]
  {
    assert c + rest == head + (c[|head|..] + rest);
    assert (c + rest)[|head|..] == c[|head|..] + rest;
    DropTwice(c + rest, |head|, |next|);
  }

  /** What each execute of alternating input and execute does, round by round. */
  ghost predicate ExactRounds(b: Buf, ms: seq<Msg>, rounds: seq<seq<seq<Byte>>>)
    requires b.Tidy() && AllSendable(ms) && b.Contents() + AllBytes(rounds) <= Frames(ms)
    decreases |rounds|
  {
    rounds == [] || (
      && Feasible(b, rounds[0])
      && if Closes(rounds[0]) then |rounds| == 1
         else
           RoundCut(b, ms, rounds);
           var b1 := AfterInput(b, rounds[0]);
           var k := Complete(ms, |b1.Contents()|);
           var t := AfterFrames(b1, ms[..k]);
           Execute(b1) == Exec(ms[..k], t, false) && ExactRounds(t, ms[k..], rounds[1..]))
  }

  /** Every round delivers exactly the messages complete by then, and leaves exactly the rest, if and only
      if every tail left is empty or quiet. */
  lemma {:induction false} ExactRoundsIff(b: Buf, ms: seq<Msg>, rounds: seq<seq<seq<Byte>>>)
    requires b.Tidy() && AllSendable(ms) && b.Contents() + AllBytes(rounds) <= Frames(ms)
    ensures ExactRounds(b, ms, rounds) <==> QuietCuts(b, ms, rounds)
    decreases |rounds|
  {
    if rounds != [] && Feasible(b, rounds[0]) && !Closes(rounds[0]) {
      RoundInput(b, rounds);
      var b1 := AfterInput(b, rounds[0]);
      StreamCut(b1, ms, AllBytes(rounds[1..]));
      var k := Complete(ms, |b1.Contents()|);
      var t := AfterFrames(b1, ms[..k]);
      hide Execute, Feasible, AfterInput, Concat, AllBytes, Buf.Tidy, Buf.Contents, Frame, Frames, Quiet;
      ExecuteExactIff(b1, ms[..k]);
      ExactRoundsIff(t, ms[k..], rounds[1..]);
    }
  }

  // --- A message lost at the close ---

  lemma OnlyEmptyRead(b: Buf)
    requires b.Tidy()
    ensures Feasible(b, [[]])
  {
    RoomKeeps(b);
    hide Room, Buf.Tidy;
    TidyIsValid(Room(b));
  }

  /** A read that fills the buffer makes input read again, and finding the peer gone then it gives up. */
  lemma FullThenEmpty(b: Buf, r: seq<Byte>)
    requires b.Tidy() && 0 < |r| == b.Writable()
    ensures Feasible(b, [r, []]) && Concat([r, []]) == r
  {
    var chunks := [r, []];
    assert chunks[1..] == [[]];
    FillIsFifo(b, r);
    OnlyEmptyRead(b.Fill(r));
    RoomKeeps(b);
    hide Buf.Tidy, Buf.Fill, Buf.Contents;
    assert Concat([[]]) == [];
    assert r + [] == r;
  }

  /** A whole message that exactly fills a new connection's buffer, after which the peer closes: it has
      arrived, and is never executed. */
  lemma LostAtClose(m: Msg)
    requires Sendable(m)
    ensures
      var b, rounds := New(PkLen(m)), [[Frame(m), []]];
      && b.Tidy() && FeasibleRounds(b, rounds) && AllBytes(rounds) == Frame(m) && Complete([m], PkLen(m)) == 1
      && RunRounds(b, rounds).msgs == [] && RunRounds(b, rounds).buf.Tidy()
      && RunRounds(b, rounds).buf.Contents() == Frame(m)
  {
    hide Frame, Feasible, AfterInput, Concat, Execute;
    FrameLayout(m);
    var b, f := New(PkLen(m)), Frame(m);
    FullThenEmpty(b, f);
    InputAppends(b, [f, []]);
    assert b.Contents() == [];
    assert [] + f == f && f + [] == f;
    assert [m][1..] == [] && [[f, []]][1..] == [];
  }

  /** There is such a message for the server's buffers of 128 bytes. */
  lemma LostInDefaultBuffer()
    ensures
      var m := Msg([49], [83], 0, [], Zeros(100));
      && Sendable(m) && PkLen(m) == 128 && FeasibleRounds(New(128), [[Frame(m), []]])
      && RunRounds(New(128), [[Frame(m), []]]).msgs == []
  {
    hide Frame, Feasible, AfterInput, Concat, Execute, RunRounds, FeasibleRounds;
    LostAtClose(Msg([49], [83], 0, [], Zeros(100)));
  }

  // --- A condition on the bytes of each tail alone ---

  /** The byte at k could be taken for the start of a frame: its length is cut off, or points at an end byte
      of the tail or in front of it. */
  predicate FalseFrameAt(c: seq<Byte>, k: nat) {
    && k + 1 < |c| && c[k] == PB_START
    && (k + 5 <= |c| ==>
          var j := k + FromNet(c[k + 1..k + 5]) - 1;
          j < |c| && (j < 0 || c[j] == PB_END))
  }

  ghost predicate NoFalseFrame(c: seq<Byte>) {
    forall k: nat :: 1 <= k ==> !FalseFrameAt(c, k)
  }

  ghost predicate SafeTail(c: seq<Byte>) {
    !(2 <= |c| <= 4) && NoFalseFrame(c)
  }

  lemma SafeTailQuiet(b: Buf, m: Msg)
    requires b.Tidy() && Fits32(m) && Tail(b, m) && SafeTail(b.Contents())
    ensures b.Readable() == 0 || Quiet(b)
  {
    if b.Readable() > 0 {
      var c := b.Contents();
      forall k: nat | b.rd < k < b.wr ensures !StopsAt(b, k) {
        NoStop(b, k);
      }
      TailStart(b, m);
      hide StopsAt, Frame;
    }
  }

  lemma NoStop(b: Buf, k: nat)
    requires b.Tidy() && NoFalseFrame(b.Contents()) && b.rd < k < b.wr
    ensures !StopsAt(b, k)
  {
    if StopsAt(b, k) { StopIsFalseFrame(b, k); }
    hide FalseFrameAt, StopsAt;
  }

  /** What stops the search in a buffer is a false frame of its readable bytes. */
  lemma StopIsFalseFrame(b: Buf, k: nat)
    requires b.Valid() && b.rd <= k < b.wr && StopsAt(b, k)
    ensures FalseFrameAt(b.Contents(), k - b.rd)
  {
    var c, i := b.Contents(), k - b.rd;
    assert |c| == b.wr - b.rd && c[i] == b.data[k];
    if i + 5 <= |c| {
      SameBytes(b, k);
      assert Int32At(b.data, k + 1) == FromNet(c[i + 1..i + 5]);
      hide Int32At, FromNet;
      var j := i + FromNet(c[i + 1..i + 5]) - 1;
      if j >= 0 { assert c[j] == b.data[b.rd + j]; }
    }
  }

  lemma SameBytes(b: Buf, k: nat)
    requires b.Valid() && b.rd <= k && k + 5 <= b.wr
    ensures b.Contents()[k - b.rd + 1..k - b.rd + 5] == b.data[k + 1..k + 5]
  {
  }

  /** Every round that execute follows leaves a safe tail; c is there before the first. */
  ghost predicate SafeCuts(ms: seq<Msg>, c: seq<Byte>, rounds: seq<seq<seq<Byte>>>)
    decreases |rounds|
  {
    rounds == [] || Closes(rounds[0]) || (
      var c1 := c + Concat(rounds[0]);
      var k := Complete(ms, |c1|);
      TotalLen(ms[..k]) <= |c1| &&
      var left := c1[TotalLen(ms[..k])..];
      SafeTail(left) && SafeCuts(ms[k..], left, rounds[1..]))
  }

  lemma SafeCutsUnfold(ms: seq<Msg>, c: seq<Byte>, rounds: seq<seq<seq<Byte>>>, c1: seq<Byte>, k: nat, left: seq<Byte>)
    requires rounds != [] && !Closes(rounds[0]) && SafeCuts(ms, c, rounds) && c1 == c + Concat(rounds[0]) && k == Complete(ms, |c1|)
    requires TotalLen(ms[..k]) <= |c1| && left == c1[TotalLen(ms[..k])..]
    ensures SafeTail(left) && SafeCuts(ms[k..], left, rounds[1..])
  {
    hide Complete, TotalLen, Concat, SafeTail;
  }

  /** The tail that a cut leaves is the start of the next frame. */
  lemma CutLeavesTail(ms: seq<Msg>, c: seq<Byte>, k: nat, t: Buf)
    requires t.Tidy() && AllSendable(ms) && k <= |ms| && CutAt(ms, c, k)
    requires t.Contents() == c[|Frames(ms[..k])|..]
    ensures t.Readable() == 0 || (k < |ms| && Tail(t, ms[k]))
  {
    ReadableIsLength(t);
    hide Frame, Frames;
  }

  /** One safe round leaves a safe tail of the stream. */
  lemma SafeRound(b: Buf, b1: Buf, ms: seq<Msg>, rounds: seq<seq<seq<Byte>>>, k: nat, t: Buf)
    requires b.Valid() && b1.Tidy() && t.Tidy() && AllSendable(ms)
    requires rounds != [] && !Closes(rounds[0]) && SafeCuts(ms, b.Contents(), rounds)
    requires b1.Contents() == b.Contents() + Concat(rounds[0]) && k == Complete(ms, |b1.Contents()|)
    requires Frames(ms[..k]) <= b1.Contents() && CutAt(ms, b1.Contents(), k)
    requires t.Contents() == b1.Contents()[|Frames(ms[..k])|..]
    ensures (t.Readable() == 0 || Quiet(t)) && SafeCuts(ms[k..], t.Contents(), rounds[1..])
  {
    FramesLength(ms[..k]);
    CutLeavesTail(ms, b1.Contents(), k, t);
    hide Quiet, CutAt, Concat, Complete, TotalLen, Frames, Frame, SafeCuts, SafeTail, Tail;
    SafeCutsUnfold(ms, b.Contents(), rounds, b1.Contents(), k, t.Contents());
    if t.Readable() != 0 { SafeTailQuiet(t, ms[k]); }
  }

  /** Cuts that leave only safe tails leave only quiet ones; so ChunkIndependence applies to them. */
  lemma {:induction false} SafeCutsAreQuiet(b: Buf, ms: seq<Msg>, rounds: seq<seq<seq<Byte>>>)
    requires b.Tidy() && AllSendable(ms) && FeasibleRounds(b, rounds)
    requires b.Contents() + AllBytes(rounds) <= Frames(ms)
    requires SafeCuts(ms, b.Contents(), rounds)
    ensures QuietCuts(b, ms, rounds)
    decreases |rounds|
  {
    hide Execute, Feasible, AfterInput, Concat, AllBytes, Buf.Tidy, Buf.Contents, Frame, Frames, Quiet, CutAt,
      Complete, TotalLen, SafeCuts, FeasibleRounds, Closes;
    if rounds != [] && Closes(rounds[0]) {
      ClosesLast(b, rounds);
    } else if rounds != [] {
      FeasibleNext(b, rounds);
      RoundInput(b, rounds);
      InputAppends(b, rounds[0]);
      var b1 := AfterInput(b, rounds[0]);
      TidyIsValid(b);
      TidyIsValid(b1);
      StreamCut(b1, ms, AllBytes(rounds[1..]));
      var k := Complete(ms, |b1.Contents()|);
      var t := AfterFrames(b1, ms[..k]);
      TidyIsValid(t);
      SafeRound(b, b1, ms, rounds, k, t);
      ExecuteExactIff(b1, ms[..k]);
      SafeCutsAreQuiet(t, ms[k..], rounds[1..]);
    }
  }

  lemma ClosesLast(b: Buf, rounds: seq<seq<seq<Byte>>>)
    requires b.Tidy() && rounds != [] && Closes(rounds[0]) && FeasibleRounds(b, rounds)
    ensures Feasible(b, rounds[0]) && |rounds| == 1
  {
    hide Feasible, AfterInput, Execute, Closes;
  }

  lemma FeasibleNext(b: Buf, rounds: seq<seq<seq<Byte>>>)
    requires b.Tidy() && rounds != [] && !Closes(rounds[0]) && FeasibleRounds(b, rounds)
    ensures Feasible(b, rounds[0]) && AfterInput(b, rounds[0]).Tidy()
    ensures var e := Execute(AfterInput(b, rounds[0])); e.buf.Tidy() && FeasibleRounds(e.buf, rounds[1..])
  {
    InputAppends(b, rounds[0]);
    ExecuteKeeps(AfterInput(b, rounds[0]));
    hide Execute, Feasible, AfterInput, Buf.Tidy;
  }

  // --- A condition on messages and cuts ---

  /** No start byte in the frame after its first. */
  ghost predicate MarkerFree(m: Msg)
    requires Fits32(m)
  {
    forall i :: 1 <= i < |Frame(m)| ==> Frame(m)[i] != PB_START
  }

  ghost predicate AllMarkerFree(ms: seq<Msg>)
    requires AllSendable(ms)
  {
    forall i :: 0 <= i < |ms| ==> MarkerFree(ms[i])
  }

  /** No round that execute follows ends two to four bytes into a frame; n bytes are there before the first. */
  ghost predicate AwayFromLengths(ms: seq<Msg>, n: int, rounds: seq<seq<seq<Byte>>>)
    decreases |rounds|
  {
    rounds == [] || Closes(rounds[0]) || (
      var n1 := n + |Concat(rounds[0])|;
      var k := Complete(ms, n1);
      var left := n1 - TotalLen(ms[..k]);
      !(2 <= left <= 4) && AwayFromLengths(ms[k..], left, rounds[1..]))
  }

  lemma MarkerFreeTail(ms: seq<Msg>, c: seq<Byte>, k: nat)
    requires AllSendable(ms) && AllMarkerFree(ms) && k <= |ms| && CutAt(ms, c, k)
    ensures NoFalseFrame(c[|Frames(ms[..k])|..])
  {
    var left := c[|Frames(ms[..k])|..];
    hide Frames, Frame;
    if k < |ms| {
      assert forall i :: 1 <= i < |left| ==> left[i] == Frame(ms[k])[i];
      hide FromNet, CutAt;
    }
  }

  lemma CompleteStep(ms: seq<Msg>, c1: seq<Byte>, rest: seq<Byte>)
    requires AllSendable(ms) && c1 + rest <= Frames(ms)
    ensures
      var k := Complete(ms, |c1|);
      && CutAt(ms, c1, k) && AllSendable(ms[..k]) && TotalLen(ms[..k]) == |Frames(ms[..k])| <= |c1|
      && AllSendable(ms[k..]) && c1[TotalLen(ms[..k])..] + rest <= Frames(ms[k..])
  {
    var k := Complete(ms, |c1|);
    PrefixParts(c1, rest, Frames(ms));
    CompletePrefix(ms, c1);
    FramesLength(ms[..k]);
    FramesSplit(ms, k);
    hide Frame, Frames, Complete, TotalLen;
    AfterHead(c1, rest, Frames(ms[..k]), Frames(ms[k..]));
  }

  lemma AwayUnfold(ms: seq<Msg>, n: int, rounds: seq<seq<seq<Byte>>>, k: nat)
    requires rounds != [] && !Closes(rounds[0]) && AwayFromLengths(ms, n, rounds) && k == Complete(ms, n + |Concat(rounds[0])|)
    ensures
      var left := n + |Concat(rounds[0])| - TotalLen(ms[..k]);
      !(2 <= left <= 4) && AwayFromLengths(ms[k..], left, rounds[1..])
  {
    hide Complete, TotalLen, Concat;
  }

  lemma SafeCutsFold(ms: seq<Msg>, c: seq<Byte>, rounds: seq<seq<seq<Byte>>>, k: nat, left: seq<Byte>)
    requires rounds != [] && k == Complete(ms, |c + Concat(rounds[0])|)
    requires TotalLen(ms[..k]) <= |c + Concat(rounds[0])| && left == (c + Concat(rounds[0]))[TotalLen(ms[..k])..]
    requires !(2 <= |left| <= 4) && NoFalseFrame(left) && SafeCuts(ms[k..], left, rounds[1..])
    ensures SafeCuts(ms, c, rounds)
  {
    hide Complete, TotalLen, Concat, NoFalseFrame;
  }

  /** Messages whose frames hold no second start byte, cut anywhere but two to four bytes into a frame,
      leave only safe tails. */
  lemma {:induction false} MarkerFreeIsSafe(ms: seq<Msg>, c: seq<Byte>, rounds: seq<seq<seq<Byte>>>)
    requires AllSendable(ms) && AllMarkerFree(ms) && c + AllBytes(rounds) <= Frames(ms)
    requires AwayFromLengths(ms, |c|, rounds)
    ensures SafeCuts(ms, c, rounds)
    decreases |rounds|
  {
    hide *;
    if |rounds| == 0 || Closes(rounds[0]) {
      NoCuts(ms, c, rounds);
    } else {
      var c1, rest := c + Concat(rounds[0]), AllBytes(rounds[1..]);
      AllBytesStep(rounds);
      Assoc(c, Concat(rounds[0]), rest);
      CompleteStep(ms, c1, rest);
      var k := Complete(ms, |c1|);
      var left := c1[TotalLen(ms[..k])..];
      LaterMessages(ms, k);
      AwayUnfold(ms, |c|, rounds, k);
      MarkerFreeTail(ms, c1, k);
      MarkerFreeIsSafe(ms[k..], left, rounds[1..]);
      SafeCutsFold(ms, c, rounds, k, left);
    }
  }

  lemma NoCuts(ms: seq<Msg>, c: seq<Byte>, rounds: seq<seq<seq<Byte>>>)
    requires |rounds| == 0 || Closes(rounds[0])
    ensures SafeCuts(ms, c, rounds)
  {
  }

  lemma AllBytesStep(rounds: seq<seq<seq<Byte>>>)
    requires rounds != []
    ensures AllBytes(rounds) == Concat(rounds[0]) + AllBytes(rounds[1..])
  {
    hide Concat;
  }

  lemma LaterMessages(ms: seq<Msg>, k: nat)
    requires AllSendable(ms) && AllMarkerFree(ms) && k <= |ms|
    ensures AllSendable(ms[k..]) && AllMarkerFree(ms[k..])
  {
    hide Frame;
  }

  /** A sendable message whose protobuf data holds the bytes of a six-byte frame. */
  function FalseFrame(): Msg {
    Msg([49], [83], 0, [], [2, 0, 0, 0, 6, 3])
  }

  lemma NoStart(f: seq<Byte>, x: nat, part: seq<Byte>)
    requires x + |part| <= |f| && f[x..x + |part|] == part && PB_START !in part
    ensures forall k :: x <= k < x + |part| ==> f[k] != PB_START
  {
    forall k | x <= k < x + |part| ensures f[k] != PB_START {
      assert f[k] == part[k - x];
    }
  }

  lemma SmallNets()
    ensures ToNet(34) == [0, 0, 0, 34] && ToNet(1) == [0, 0, 0, 1] && ToNet(0) == [0, 0, 0, 0]
  {
  }

  lemma FalseFrameLayout()
    ensures
      var f := Frame(FalseFrame());
      && |f| == 34 && f[0] == PB_START && f[1..5] == ToNet(34) && f[5..9] == ToNet(1) && f[9..10] == [49]
      && f[10..14] == ToNet(1) && f[14..15] == [83] && f[15..19] == ToNet(0) && f[19..23] == ToNet(0)
      && f[23..29] == [2, 0, 0, 0, 6, 3]
  {
    hide Frame, ToNet;
    FrameLayout(FalseFrame());
  }

  lemma FalseFrameBytes()
    ensures
      var f := Frame(FalseFrame());
      && |f| == 34 && f[0] == PB_START && f[1..5] == [0, 0, 0, 34] && f[23..29] == [2, 0, 0, 0, 6, 3]
      && forall k :: 1 <= k < 23 ==> f[k] != PB_START
  {
    hide Frame, ToNet;
    FalseFrameLayout();
    SmallNets();
    var f := Frame(FalseFrame());
    NoStart(f, 1, [0, 0, 0, 34]);
    NoStart(f, 5, [0, 0, 0, 1]);
    NoStart(f, 9, [49]);
    NoStart(f, 10, [0, 0, 0, 1]);
    NoStart(f, 14, [83]);
    NoStart(f, 15, [0, 0, 0, 0]);
    NoStart(f, 19, [0, 0, 0, 0]);
  }

  /** The first 29 bytes of that frame, in a new connection's buffer of 128. */
  function FalseBuf(): Buf {
    Buf(Frame(FalseFrame())[..29] + Zeros(99), 0, 29)
  }

  /** The search finds the inner frame in a tail that is still incomplete, fails to parse it, and execute
      drops the first six bytes of the message on its way. */
  lemma FalseFrameDropsBytes()
    ensures
      var b := FalseBuf();
      && Sendable(FalseFrame()) && b.Tidy() && b.Contents() < Frame(FalseFrame())
      && !Quiet(b) && Execute(b) == Exec([], b.RecycleRead(6), false)
  {
    hide Frame, Quiet, Execute, Buf.RecycleRead, Buf.Tidy, Buf.Contents;
    FalseFrameBytes();
    InBuffer(Frame(FalseFrame()));
    FalseScan(FalseBuf());
  }

  lemma InBuffer(f: seq<Byte>)
    requires |f| == 34 && f[1..5] == [0, 0, 0, 34] && f[23..29] == [2, 0, 0, 0, 6, 3]
    ensures
      var b := Buf(f[..29] + Zeros(99), 0, 29);
      && b.Tidy() && b.Contents() < f && |b.data| == 128
      && (forall k :: 0 <= k < 23 ==> b.data[k] == f[k])
      && b.data[23] == 2 && b.data[28] == 3
      && b.data[1..5] == [0, 0, 0, 34] && b.data[24..28] == [0, 0, 0, 6]
  {
    var b := Buf(f[..29] + Zeros(99), 0, 29);
    assert b.data[1..5] == f[1..5];
    assert b.Contents() == f[..29];
    forall k | 23 <= k < 29 ensures b.data[k] == [2, 0, 0, 0, 6, 3][k - 23] {
      assert f[k] == f[23..29][k - 23];
    }
  }

  lemma FalseScan(b: Buf)
    requires b.Tidy() && b.rd == 0 && b.wr == 29 && |b.data| == 128
    requires b.data[0] == b.data[23] == PB_START && b.data[28] == PB_END
    requires b.data[1..5] == [0, 0, 0, 34] && b.data[24..28] == [0, 0, 0, 6]
    requires forall k :: 1 <= k < 23 ==> b.data[k] != PB_START
    ensures !Quiet(b) && Execute(b) == Exec([], b.RecycleRead(6), false)
  {
    assert Int32At(b.data, 1) == 34 && Int32At(b.data, 24) == 6;
    hide Int32At;
    SkipTo(b, 0, 23);
    assert ScanFrom(b, 23) == Found(23, 28, 6);
    QuietScan(b);
    hide ScanFrom, Quiet;
    assert Decode(b) == Result(BadFrame, b.RecycleRead(6));
  }
}
