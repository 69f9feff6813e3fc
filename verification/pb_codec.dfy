/** The FlconcPb codec: length-prefixed frames between a 0x02 and a 0x03 byte. */
module PbCodec {
  import opened Bytes
  import opened TcpBuffers

  const PB_START: Byte := 2
  const PB_END: Byte := 3
  const CHECKSUM: Int32 := 1
  const FIXED_LEN := 26           // two marker bytes and six 32-bit fields
  const MSG_REQ_CAP := 50         // char msg_req[50]
  const NAME_CAP := 512           // char service_name[512] and char err_info[512]

  datatype Msg = Msg(msgReq: seq<Byte>, service: seq<Byte>, errCode: Int32, errInfo: seq<Byte>, pbData: seq<Byte>)

  function PkLen(m: Msg): nat {
    FIXED_LEN + |m.msgReq| + |m.service| + |m.errInfo| + |m.pbData|
  }

  /** Every length the frame carries fits in 32 bits. */
  predicate Fits32(m: Msg) {
    PkLen(m) < 0x8000_0000
  }

  function Frame(m: Msg): (f: seq<Byte>)
    requires Fits32(m)
  {
    [PB_START] + ToNet(PkLen(m)) + ToNet(|m.msgReq|) + m.msgReq + ToNet(|m.service|) + m.service +
    ToNet(m.errCode) + ToNet(|m.errInfo|) + m.errInfo + m.pbData + ToNet(CHECKSUM) + [PB_END]
  }

  // --- Decoding ---

  /** Overrun: the C++ code would read or copy outside an array, which has no defined result. */
  datatype Outcome = NoFrame | BadFrame | Overrun | Decoded(msg: Msg)

  datatype Scan = NotFound | Found(start: nat, end: nat, pkLen: int) | OutOfRange

  predicate InRange(data: seq<Byte>, i: int, n: int) {
    0 <= i && 0 <= n && i + n <= |data|
  }

  function Int32At(data: seq<Byte>, i: int): Int32
    requires InRange(data, i, 4)
  {
    FromNet(data[i..i + 4])
  }

  /** The search from index i for a start byte whose frame is all there and ends in an end byte. */
  function ScanFrom(b: Buf, i: nat): Scan
    requires b.Valid()
    decreases b.wr - i
  {
    if i >= b.wr then NotFound
    else if b.data[i] == PB_START && i + 1 < b.wr then
      if !InRange(b.data, i + 1, 4) then OutOfRange
      else
        var pkLen := Int32At(b.data, i + 1);
        var j := i + pkLen - 1;
        if j >= b.wr then ScanFrom(b, i + 1)
        else if j < 0 then OutOfRange
        else if b.data[j] == PB_END then Found(i, j, pkLen)
        else ScanFrom(b, i + 1)
    else ScanFrom(b, i + 1)
  }

  /** std::string(const char*): the bytes before the first NUL. */
  function CStr(bytes: seq<Byte>): (s: seq<Byte>)
  {
    if bytes == [] || bytes[0] == 0 then [] else [bytes[0]] + CStr(bytes[1..])
  }

  /** `n` bytes of data at i can be copied into a zeroed array of `cap` bytes and read back as a C
      string. */
  predicate CopiesInto(data: seq<Byte>, i: int, n: int, cap: nat) {
    InRange(data, i, n) && (n < cap || (n == cap && |CStr(data[i..i + n])| < n))
  }

  /** The fields of the frame from start to end. */
  function ParseFields(data: seq<Byte>, start: nat, end: nat, pkLen: int): Outcome
    requires end < |data|
  {
    var p1 := start + 5;
    if p1 >= end then BadFrame else
    if !InRange(data, p1, 4) then Overrun else
    var msgReqLen := Int32At(data, p1);
    if msgReqLen == 0 then BadFrame else
    var p2 := p1 + 4;
    if !CopiesInto(data, p2, msgReqLen, MSG_REQ_CAP) then Overrun else
    var p3 := p2 + msgReqLen;
    if p3 >= end || p3 + 4 >= end then BadFrame else
    var serviceLen := Int32At(data, p3);
    if serviceLen > pkLen then BadFrame else
    var p4 := p3 + 4;
    if !CopiesInto(data, p4, serviceLen, NAME_CAP) then Overrun else
    var p5 := p4 + serviceLen;
    if !InRange(data, p5, 4) then Overrun else
    if p5 + 4 >= end then BadFrame else
    if !InRange(data, p5 + 4, 4) then Overrun else
    var errInfoLen := Int32At(data, p5 + 4);
    var p7 := p5 + 8;
    if !CopiesInto(data, p7, errInfoLen, NAME_CAP) then Overrun else
    var p8 := p7 + errInfoLen;
    var pbLen := pkLen - serviceLen - msgReqLen - errInfoLen - FIXED_LEN;
    if p8 >= end then BadFrame else
    if !InRange(data, p8, pbLen) then Overrun else
    Decoded(Msg(CStr(data[p2..p3]), CStr(data[p4..p5]), Int32At(data, p5), CStr(data[p7..p8]),
                data[p8..p8 + pbLen]))
  }

  datatype Result = Result(outcome: Outcome, buf: Buf)

  /** decode. The frame is recycled before its fields are looked at. */
  function Decode(b: Buf): Result
    requires b.Valid()
  {
    var scan := ScanFrom(b, b.rd);
    ScanInRange(b, b.rd);
    match scan
    case NotFound => Result(NoFrame, b)
    case OutOfRange => Result(Overrun, b)
    case Found(start, end, pkLen) =>
      if b.rd + pkLen < 0 then Result(Overrun, b)
      else Result(ParseFields(b.data, start, end, pkLen), b.RecycleRead(pkLen))
  }

  lemma {:induction false} ScanInRange(b: Buf, i: nat)
    requires b.Valid() && b.rd <= i
    ensures
      var s := ScanFrom(b, i);
      s.Found? ==> i <= s.start < b.wr && s.end < b.wr && s.pkLen == s.end + 1 - s.start
    decreases b.wr - i
  {
    if i < b.wr { ScanInRange(b, i + 1); }
  }

  // --- Decoding undoes encoding ---

  /** Where each field lies in a frame. */
  lemma FrameLayout(m: Msg)
    requires Fits32(m)
    ensures
      var f := Frame(m);
      var p3 := 9 + |m.msgReq|;
      var p5 := p3 + 4 + |m.service|;
      var p8 := p5 + 8 + |m.errInfo|;
      && |f| == 26 + |m.msgReq| + |m.service| + |m.errInfo| + |m.pbData| == PkLen(m)
      && f[0] == 2 && f[|f| - 1] == 3 && f[|f| - 5..|f| - 1] == [0, 0, 0, 1]
      && f[1..5] == ToNet(PkLen(m)) && f[5..9] == ToNet(|m.msgReq|) && f[9..9 + |m.msgReq|] == m.msgReq
      && f[p3..p3 + 4] == ToNet(|m.service|) && f[p3 + 4..p3 + 4 + |m.service|] == m.service
      && f[p5..p5 + 4] == ToNet(m.errCode)
      && f[p5 + 4..p5 + 4 + 4] == ToNet(|m.errInfo|) && f[p5 + 8..p5 + 8 + |m.errInfo|] == m.errInfo
      && f[p8..p8 + |m.pbData|] == m.pbData
  {
    hide ToNet;
    var f := Frame(m);
    var g1 := [PB_START] + ToNet(PkLen(m));
    var g2 := g1 + ToNet(|m.msgReq|);
    var g3 := g2 + m.msgReq;
    var g4 := g3 + ToNet(|m.service|);
    var g5 := g4 + m.service;
    var g6 := g5 + ToNet(m.errCode);
    var g7 := g6 + ToNet(|m.errInfo|);
    var g8 := g7 + m.errInfo;
    var g9 := g8 + m.pbData;
    assert f == g9 + ToNet(CHECKSUM) + [PB_END];
    LastPart(f, g9 + ToNet(CHECKSUM), [PB_END]);
    LastPart(f, g9, ToNet(CHECKSUM));
    OneInNetOrder();
    LastPart(f, g8, m.pbData);
    LastPart(f, g7, m.errInfo);
    LastPart(f, g6, ToNet(|m.errInfo|));
    LastPart(f, g5, ToNet(m.errCode));
    LastPart(f, g4, m.service);
    LastPart(f, g3, ToNet(|m.service|));
    LastPart(f, g2, m.msgReq);
    LastPart(f, g1, ToNet(|m.msgReq|));
    LastPart(f, [PB_START], ToNet(PkLen(m)));
    hide Frame;
  }

  lemma OneInNetOrder()
    ensures ToNet(CHECKSUM) == [0, 0, 0, 1]
  {
  }

  /** The last part of a concatenation that f starts with. */
  lemma LastPart<T>(f: seq<T>, g: seq<T>, x: seq<T>)
    requires g + x <= f
    ensures g <= f && f[|g|..|g| + |x|] == x
  {
    assert f[..|g + x|] == g + x;
  }

  /** What fits in the decoder's fixed arrays. */
  predicate WithinCaps(m: Msg) {
    && Fits32(m)
    && 1 <= |m.msgReq| < MSG_REQ_CAP && 1 <= |m.service| < NAME_CAP && |m.errInfo| < NAME_CAP
  }

  /** A message as the decoder's C strings see it. */
  function AsCStrings(m: Msg): Msg {
    m.(msgReq := CStr(m.msgReq), service := CStr(m.service), errInfo := CStr(m.errInfo))
  }

  lemma Within(data: seq<Byte>, at: nat, f: seq<Byte>, x: nat, y: nat)
    requires at + |f| <= |data| && data[at..at + |f|] == f && x <= y <= |f|
    ensures data[at + x..at + y] == f[x..y]
  {
    forall k | 0 <= k < y - x ensures data[at + x..at + y][k] == f[x..y][k] {
      assert data[at..at + |f|][x + k] == f[x + k];
    }
  }

  lemma IntField(data: seq<Byte>, at: nat, f: seq<Byte>, x: nat, v: Int32)
    requires at + |f| <= |data| && data[at..at + |f|] == f && x + 4 <= |f| && f[x..x + 4] == ToNet(v)
    ensures Int32At(data, at + x) == v
  {
    Within(data, at, f, x, x + 4);
    NetRoundTrip(v);
  }

  lemma BytesField(data: seq<Byte>, at: nat, f: seq<Byte>, x: nat, bytes: seq<Byte>)
    requires at + |f| <= |data| && data[at..at + |f|] == f && x + |bytes| <= |f| && f[x..x + |bytes|] == bytes
    ensures data[at + x..at + x + |bytes|] == bytes
  {
    Within(data, at, f, x, x + |bytes|);
  }

  /** What the decoder reads from a frame that starts at `at`. */
  ghost predicate FieldsAt(data: seq<Byte>, at: nat, m: Msg) {
    && Fits32(m) && at + PkLen(m) <= |data|
    && NamesAt(data, at, m) && RestAt(data, at, m, 13 + |m.msgReq| + |m.service|)
  }

  ghost predicate NamesAt(data: seq<Byte>, at: nat, m: Msg)
    requires Fits32(m) && at + PkLen(m) <= |data|
  {
    var a, s := |m.msgReq|, |m.service|;
    && Int32At(data, at + 5) == a && data[at + 9..at + 9 + a] == m.msgReq
    && Int32At(data, at + (9 + a)) == s && data[at + (13 + a)..at + (13 + a) + s] == m.service
  }

  ghost predicate RestAt(data: seq<Byte>, at: nat, m: Msg, p5: nat)
    requires Fits32(m) && at + PkLen(m) <= |data| && p5 == 13 + |m.msgReq| + |m.service|
  {
    var e, d := |m.errInfo|, |m.pbData|;
    && Int32At(data, at + p5) == m.errCode && Int32At(data, at + (p5 + 4)) == e
    && data[at + (p5 + 8)..at + (p5 + 8) + e] == m.errInfo
    && data[at + (p5 + 8 + e)..at + (p5 + 8 + e) + d] == m.pbData
  }

  lemma FrameHasNames(data: seq<Byte>, at: nat, m: Msg)
    requires Fits32(m) && at + PkLen(m) <= |data| && data[at..at + PkLen(m)] == Frame(m)
    ensures NamesAt(data, at, m)
  {
    hide Frame, ToNet, Int32At;
    var f := Frame(m);
    var a, s := |m.msgReq|, |m.service|;
    assert |f| == PkLen(m) by { FrameLayout(m); }
    assert Int32At(data, at + 5) == a by { FrameLayout(m); IntField(data, at, f, 5, a); }
    assert data[at + 9..at + 9 + a] == m.msgReq by { FrameLayout(m); BytesField(data, at, f, 9, m.msgReq); }
    assert Int32At(data, at + (9 + a)) == s by { FrameLayout(m); IntField(data, at, f, 9 + a, s); }
    assert data[at + (13 + a)..at + (13 + a) + s] == m.service by {
      FrameLayout(m);
      BytesField(data, at, f, 13 + a, m.service);
    }
  }

  lemma FrameHasRest(data: seq<Byte>, at: nat, m: Msg, p5: nat)
    requires Fits32(m) && at + PkLen(m) <= |data| && data[at..at + PkLen(m)] == Frame(m)
    requires p5 == 13 + |m.msgReq| + |m.service|
    ensures RestAt(data, at, m, p5)
  {
    hide Frame, ToNet, Int32At;
    var f := Frame(m);
    var e, d := |m.errInfo|, |m.pbData|;
    assert |f| == PkLen(m) by { FrameLayout(m); }
    assert Int32At(data, at + p5) == m.errCode by { FrameLayout(m); IntField(data, at, f, p5, m.errCode); }
    assert Int32At(data, at + (p5 + 4)) == e by { FrameLayout(m); IntField(data, at, f, p5 + 4, e); }
    assert data[at + (p5 + 8)..at + (p5 + 8) + e] == m.errInfo by {
      FrameLayout(m);
      BytesField(data, at, f, p5 + 8, m.errInfo);
    }
    assert data[at + (p5 + 8 + e)..at + (p5 + 8 + e) + d] == m.pbData by {
      FrameLayout(m);
      BytesField(data, at, f, p5 + 8 + e, m.pbData);
    }
  }

  lemma FrameHasFields(data: seq<Byte>, at: nat, m: Msg)
    requires Fits32(m) && at + PkLen(m) <= |data| && data[at..at + PkLen(m)] == Frame(m)
    ensures FieldsAt(data, at, m)
  {
    hide NamesAt, RestAt, Frame;
    FrameHasNames(data, at, m);
    FrameHasRest(data, at, m, 13 + |m.msgReq| + |m.service|);
  }

  lemma ParseInverts(data: seq<Byte>, at: nat, m: Msg)
    requires WithinCaps(m) && FieldsAt(data, at, m)
    ensures ParseFields(data, at, at + PkLen(m) - 1, PkLen(m)) == Decoded(AsCStrings(m))
  {
    hide Int32At, CStr;
  }

  /** If the readable bytes start with the frame of m, then whatever follows, decoding yields m's fields
      as C strings and consumes exactly that frame. */
  lemma DecodeInvertsFrame(b: Buf, m: Msg)
    requires b.Valid() && WithinCaps(m) && Frame(m) <= b.Contents()
    ensures Decode(b) == Result(Decoded(AsCStrings(m)), b.RecycleRead(PkLen(m)))
  {
    hide ToNet, FromNet, ScanFrom, ParseFields, CStr, Frame;
    FrameLayout(m);
    var f := Frame(m);
    assert b.data[b.rd..b.rd + |f|] == f by { Within(b.data, b.rd, b.Contents(), 0, |f|); }
    FrameHasFields(b.data, b.rd, m);
    ParseInverts(b.data, b.rd, m);
    ScanFindsFrame(b, m);
  }

  lemma ScanFindsFrame(b: Buf, m: Msg)
    requires b.Valid() && Fits32(m) && b.rd + PkLen(m) <= b.wr && b.data[b.rd..b.rd + PkLen(m)] == Frame(m)
    ensures ScanFrom(b, b.rd) == Found(b.rd, b.rd + PkLen(m) - 1, PkLen(m))
  {
    hide Frame, ToNet, FromNet;
    FrameLayout(m);
    var f := Frame(m);
    assert b.data[b.rd] == f[0] && b.data[b.rd + |f| - 1] == f[|f| - 1];
    Within(b.data, b.rd, f, 1, 5);
    NetRoundTrip(PkLen(m));
  }

  lemma {:induction false} CStrIsWhole(bytes: seq<Byte>)
    ensures CStr(bytes) == bytes <==> 0 !in bytes
    ensures |CStr(bytes)| <= |bytes|
  {
    if bytes != [] {
      CStrIsWhole(bytes[1..]);
      assert bytes == [bytes[0]] + bytes[1..];
      if bytes[0] != 0 && CStr(bytes) == bytes {
        assert CStr(bytes)[1..] == CStr(bytes[1..]);
      }
    }
  }

  /** A C string ends before its first NUL. */
  lemma {:induction false} CStrCuts(text: seq<Byte>, more: seq<Byte>)
    requires 0 !in text
    ensures CStr(text + [0] + more) == text
  {
    var s := text + [0] + more;
    if text != [] {
      assert s[0] == text[0] && s[1..] == text[1..] + [0] + more;
      CStrCuts(text[1..], more);
    }
  }

  /** The lengths a, s and e that the bytes from start to end give for the texts, and what has to hold of them. */
  ghost predicate FieldsFit(data: seq<Byte>, start: nat, end: nat, pkLen: int, a: int, s: int, e: int) {
    && start + 5 < end && InRange(data, start + 5, 4) && Int32At(data, start + 5) == a
    && a > 0 && CopiesInto(data, start + 9, a, 50)
    && start + 13 + a < end && InRange(data, start + 9 + a, 4) && Int32At(data, start + 9 + a) == s
    && s <= pkLen && CopiesInto(data, start + 13 + a, s, 512)
    && start + 17 + a + s < end && InRange(data, start + 17 + a + s, 4) && Int32At(data, start + 17 + a + s) == e
    && CopiesInto(data, start + 21 + a + s, e, 512)
    && start + 21 + a + s + e < end && InRange(data, start + 21 + a + s + e, pkLen - 26 - a - s - e)
  }

  /** What decode reads from any bytes at all, corrupt ones included: if the lengths fit, each field from its
      place. */
  lemma DecodedFields(data: seq<Byte>, start: nat, end: nat, pkLen: int, a: int, s: int, e: int)
    requires end < |data| && FieldsFit(data, start, end, pkLen, a, s, e)
    ensures
      ParseFields(data, start, end, pkLen) ==
      Decoded(Msg(
        CStr(data[start + 9..start + 9 + a]), CStr(data[start + 13 + a..start + 13 + a + s]),
        Int32At(data, start + 13 + a + s), CStr(data[start + 21 + a + s..start + 21 + a + s + e]),
        data[start + 21 + a + s + e..start + pkLen - 5]))
  {
    hide Int32At, CStr;
  }

  /** Nothing is decoded from bytes whose lengths do not fit. */
  lemma DecodedIff(data: seq<Byte>, start: nat, end: nat, pkLen: int)
    requires end < |data|
    ensures
      ParseFields(data, start, end, pkLen).Decoded? <==> exists a, s, e :: FieldsFit(data, start, end, pkLen, a, s, e)
  {
    hide Int32At, CStr, CopiesInto;
    if ParseFields(data, start, end, pkLen).Decoded? {
      LengthsFit(data, start, end, pkLen);
    }
    forall a, s, e | FieldsFit(data, start, end, pkLen, a, s, e)
      ensures ParseFields(data, start, end, pkLen).Decoded?
    {
      DecodedFields(data, start, end, pkLen, a, s, e);
    }
  }

  lemma LengthsFit(data: seq<Byte>, start: nat, end: nat, pkLen: int)
    requires end < |data| && ParseFields(data, start, end, pkLen).Decoded?
    ensures exists a, s, e :: FieldsFit(data, start, end, pkLen, a, s, e)
  {
    hide Int32At, CStr;
    var a: int := Int32At(data, start + 5);
    var s: int := Int32At(data, start + 9 + a);
    var e: int := Int32At(data, start + 17 + a + s);
    assert FieldsFit(data, start, end, pkLen, a, s, e);
  }

  /** The msg_req, of a bytes, has been read. */
  ghost predicate MsgReqRead(data: seq<Byte>, start: nat, end: nat, a: int) {
    && start + 5 < end && InRange(data, start + 5, 4) && Int32At(data, start + 5) == a
    && a != 0 && CopiesInto(data, start + 9, a, 50)
  }

  /** And the service name, of s bytes. */
  ghost predicate ServiceRead(data: seq<Byte>, start: nat, end: nat, pkLen: int, a: int, s: int) {
    && MsgReqRead(data, start, end, a)
    && start + 13 + a < end && InRange(data, start + 9 + a, 4) && Int32At(data, start + 9 + a) == s
    && s <= pkLen && CopiesInto(data, start + 13 + a, s, 512) && InRange(data, start + 13 + a + s, 4)
  }

  /** And the error text, of e bytes. */
  ghost predicate ErrInfoRead(data: seq<Byte>, start: nat, end: nat, pkLen: int, a: int, s: int, e: int) {
    && ServiceRead(data, start, end, pkLen, a, s)
    && start + 17 + a + s < end && InRange(data, start + 17 + a + s, 4) && Int32At(data, start + 17 + a + s) == e
    && CopiesInto(data, start + 21 + a + s, e, 512)
  }

  /** Why bytes are refused: a length that would have to be read at the end byte or behind it, a msg_req that is empty,
      a service name longer than the whole, or a text that reaches the end byte. */
  ghost predicate Refused(data: seq<Byte>, start: nat, end: nat, pkLen: int) {
    || start + 5 >= end
    || (InRange(data, start + 5, 4) && Int32At(data, start + 5) == 0)
    || (exists a :: MsgReqRead(data, start, end, a) &&
          (start + 13 + a >= end || (InRange(data, start + 9 + a, 4) && Int32At(data, start + 9 + a) > pkLen)))
    || (exists a, s :: ServiceRead(data, start, end, pkLen, a, s) && start + 17 + a + s >= end)
    || (exists a, s, e :: ErrInfoRead(data, start, end, pkLen, a, s, e) && start + 21 + a + s + e >= end)
  }

  /** Bytes are refused, before anything is read or copied out of range, exactly for one of these reasons. */
  lemma BadFrameIff(data: seq<Byte>, start: nat, end: nat, pkLen: int)
    requires end < |data|
    ensures ParseFields(data, start, end, pkLen).BadFrame? <==> Refused(data, start, end, pkLen)
  {
    hide Int32At, CStr, CopiesInto;
    if ParseFields(data, start, end, pkLen).BadFrame? {
      BadIsRefused(data, start, end, pkLen);
    } else if Refused(data, start, end, pkLen) {
      RefusedIsBad(data, start, end, pkLen);
    }
  }

  lemma BadIsRefused(data: seq<Byte>, start: nat, end: nat, pkLen: int)
    requires end < |data| && ParseFields(data, start, end, pkLen).BadFrame?
    ensures Refused(data, start, end, pkLen)
  {
    hide Int32At, CStr;
    if start + 5 < end && Int32At(data, start + 5) != 0 {
      var a: int := Int32At(data, start + 5);
      assert MsgReqRead(data, start, end, a);
      if start + 13 + a < end && Int32At(data, start + 9 + a) <= pkLen {
        var s: int := Int32At(data, start + 9 + a);
        assert ServiceRead(data, start, end, pkLen, a, s);
        if start + 17 + a + s < end {
          assert ErrInfoRead(data, start, end, pkLen, a, s, Int32At(data, start + 17 + a + s));
        }
      }
    }
  }

  lemma RefusedIsBad(data: seq<Byte>, start: nat, end: nat, pkLen: int)
    requires end < |data| && Refused(data, start, end, pkLen)
    ensures ParseFields(data, start, end, pkLen).BadFrame?
  {
    hide Int32At, CStr;
  }

  /** The round trip gives back m itself exactly when none of its strings contains a NUL. */
  lemma RoundTripIffNulFree(b: Buf, m: Msg)
    requires b.Valid() && WithinCaps(m) && Frame(m) <= b.Contents()
    ensures Decode(b).outcome == Decoded(m) <==> 0 !in m.msgReq && 0 !in m.service && 0 !in m.errInfo
  {
    DecodeInvertsFrame(b, m);
    CStrIsWhole(m.msgReq);
    CStrIsWhole(m.service);
    CStrIsWhole(m.errInfo);
  }

  // --- The objects the code works on ---

  class FlconcPbStruct {
    var pkLen: int
    var msgReqLen: int
    var msgReq: seq<Byte>
    var serviceNameLen: int
    var serviceFullName: seq<Byte>
    var errCode: Int32
    var errInfoLen: int
    var errInfo: seq<Byte>
    var pbData: seq<Byte>
    var checkNum: Int32
    var encodeSucc: bool
    var decodeSucc: bool

    constructor ()
      ensures View() == Msg([], [], 0, [], []) && !encodeSucc && !decodeSucc
    {
      pkLen, msgReqLen, serviceNameLen, errInfoLen := 0, 0, 0, 0;
      msgReq, serviceFullName, errCode, errInfo, pbData := [], [], 0, [], [];
      checkNum, encodeSucc, decodeSucc := -1, false, false;
    }

    function View(): Msg
      reads this
    {
      Msg(msgReq, serviceFullName, errCode, errInfo, pbData)
    }
  }

  /** memcpy of bytes to tmp, and the advance of tmp; `done` is what was written before. */
  method PutBytes(buf: array<Byte>, tmp: nat, bytes: seq<Byte>, ghost done: seq<Byte>) returns (next: nat)
    requires tmp + |bytes| <= buf.Length && buf[..tmp] == done
    modifies buf
    ensures next == tmp + |bytes| && buf[..next] == done + bytes
  {
    forall i | 0 <= i < |bytes| {
      buf[tmp + i] := bytes[i];
    }
    next := tmp + |bytes|;
  }

  method PutUnlessEmpty(buf: array<Byte>, tmp: nat, bytes: seq<Byte>, ghost done: seq<Byte>) returns (next: nat)
    requires tmp + |bytes| <= buf.Length && buf[..tmp] == done
    modifies buf
    ensures next == tmp + |bytes| && buf[..next] == done + bytes
  {
    next := tmp;
    if |bytes| != 0 {
      next := PutBytes(buf, tmp, bytes, done);
    }
  }

  /** Writes the frame front to back, tmp advancing over the buffer. */
  method WriteFrame(buf: array<Byte>, m: Msg)
    requires Fits32(m) && buf.Length == PkLen(m)
    modifies buf
    ensures buf[..] == Frame(m)
  {
    hide ToNet;
    ghost var f1 := [PB_START] + ToNet(PkLen(m)) + ToNet(|m.msgReq|) + m.msgReq;
    ghost var f2 := f1 + ToNet(|m.service|) + m.service + ToNet(m.errCode) + ToNet(|m.errInfo|);
    var tmp := WriteNames(buf, m, f1);
    tmp := PutBytes(buf, tmp, ToNet(|m.service|), f1);
    tmp := PutUnlessEmpty(buf, tmp, m.service, f1 + ToNet(|m.service|));
    tmp := PutBytes(buf, tmp, ToNet(m.errCode), f1 + ToNet(|m.service|) + m.service);
    tmp := PutBytes(buf, tmp, ToNet(|m.errInfo|), f1 + ToNet(|m.service|) + m.service + ToNet(m.errCode));
    tmp := PutUnlessEmpty(buf, tmp, m.errInfo, f2);
    tmp := PutBytes(buf, tmp, m.pbData, f2 + m.errInfo);
    tmp := PutBytes(buf, tmp, ToNet(CHECKSUM), f2 + m.errInfo + m.pbData);
    tmp := PutBytes(buf, tmp, [PB_END], f2 + m.errInfo + m.pbData + ToNet(CHECKSUM));
    assert buf[..tmp] == buf[..];
  }

  method WriteNames(buf: array<Byte>, m: Msg, ghost f1: seq<Byte>) returns (tmp: nat)
    requires Fits32(m) && buf.Length == PkLen(m)
    requires f1 == [PB_START] + ToNet(PkLen(m)) + ToNet(|m.msgReq|) + m.msgReq
    modifies buf
    ensures tmp == 9 + |m.msgReq| && buf[..tmp] == f1
  {
    hide ToNet;
    tmp := PutBytes(buf, 0, [PB_START], []);
    tmp := PutBytes(buf, tmp, ToNet(PkLen(m)), [PB_START]);
    tmp := PutBytes(buf, tmp, ToNet(|m.msgReq|), [PB_START] + ToNet(PkLen(m)));
    tmp := PutUnlessEmpty(buf, tmp, m.msgReq, [PB_START] + ToNet(PkLen(m)) + ToNet(|m.msgReq|));
  }

  /** encodePbData. An empty msg_req is replaced by a generated one. */
  method EncodePbData(data: FlconcPbStruct, generated: seq<Byte>) returns (buf: array?<Byte>)
    requires
      var m := data.View();
      Fits32(if m.msgReq == [] then m.(msgReq := generated) else m)
    modifies data
    ensures data.encodeSucc <==> old(data.serviceFullName) != []
    ensures buf == null <==> !data.encodeSucc
    ensures !data.encodeSucc ==> data.View() == old(data.View())
    ensures data.encodeSucc ==>
      && data.View() == old(data.View()).(msgReq := if old(data.msgReq) == [] then generated else old(data.msgReq))
      && buf[..] == Frame(data.View())
      && data.pkLen == buf.Length && data.msgReqLen == |data.msgReq|
      && data.serviceNameLen == |data.serviceFullName| && data.errInfoLen == |data.errInfo|
      && data.checkNum == CHECKSUM
    ensures buf == null || fresh(buf)
  {
    if data.serviceFullName == [] {
      data.encodeSucc := false;
      return null;
    }
    if data.msgReq == [] {
      data.msgReq := generated;
      data.msgReqLen := |data.msgReq|;
    }
    var m := data.View();
    var pkLen := FIXED_LEN + |data.pbData| + |data.serviceFullName| + |data.msgReq| + |data.errInfo|;
    buf := new Byte[pkLen];
    WriteFrame(buf, m);

    data.pkLen, data.msgReqLen := pkLen, |data.msgReq|;
    data.serviceNameLen, data.errInfoLen := |data.serviceFullName|, |data.errInfo|;
    data.checkNum, data.encodeSucc := CHECKSUM, true;
  }

  /** encode: the frame goes to the end of the buffer, or nothing does. */
  method EncodeTo(buf: TcpBuffer, data: FlconcPbStruct, generated: seq<Byte>)
    requires buf.Valid()
    requires
      var m := data.View();
      Fits32(if m.msgReq == [] then m.(msgReq := generated) else m)
    modifies buf, buf.buffer, data
    ensures buf.Valid()
    ensures data.encodeSucc <==> old(data.serviceFullName) != []
    ensures data.encodeSucc ==> Fits32(data.View()) && buf.View() == old(buf.View()).Write(Frame(data.View()))
    ensures !data.encodeSucc ==> buf.View() == old(buf.View())
  {
    var re := EncodePbData(data, generated);
    if re != null {
      buf.WriteToBuffer(re);
    }
  }

  /** The search loop of decode. */
  method FindFrame(buf: TcpBuffer) returns (scan: Scan)
    requires buf.Valid()
    ensures scan == ScanFrom(buf.View(), buf.readIndex)
  {
    var i := buf.readIndex;
    while i < buf.writeIndex
      invariant buf.readIndex <= i <= buf.writeIndex
      invariant ScanFrom(buf.View(), i) == ScanFrom(buf.View(), buf.readIndex)
    {
      if buf.buffer[i] == PB_START && i + 1 < buf.writeIndex {
        if i + 5 > buf.buffer.Length {
          return OutOfRange;
        }
        var pkLen := FromNet(buf.buffer[i + 1..i + 5]);
        assert buf.buffer[i + 1..i + 5] == buf.View().data[i + 1..i + 5];
        var j := i + pkLen - 1;
        if j < buf.writeIndex {
          if j < 0 {
            return OutOfRange;
          }
          if buf.buffer[j] == PB_END {
            return Found(i, j, pkLen);
          }
        }
      }
      i := i + 1;
    }
    return NotFound;
  }

  /** decode: the struct is filled in field by field, and decode_succ is set last. */
  method DecodeFrom(buf: TcpBuffer, data: FlconcPbStruct) returns (outcome: Outcome)
    requires buf.Valid() && !data.decodeSucc
    modifies buf, data
    ensures Result(outcome, buf.View()) == Decode(old(buf.View()))
    ensures buf.Valid()
    ensures data.decodeSucc <==> outcome.Decoded?
    ensures outcome.Decoded? ==> data.View() == outcome.msg
    ensures fresh(buf.buffer) || buf.buffer == old(buf.buffer)
  {
    hide ScanFrom, ParseFields, Buf.RecycleRead;
    var tmp := buf.buffer[..];
    var scan := FindFrame(buf);
    ScanInRange(buf.View(), buf.readIndex);
    if scan.NotFound? {
      return NoFrame;
    }
    if scan.OutOfRange? || buf.readIndex + scan.pkLen < 0 {
      return Overrun;
    }
    buf.RecycleRead(scan.end + 1 - scan.start);
    outcome := FillFields(data, tmp, scan.start, scan.end, scan.pkLen);
  }

  method FillFields(data: FlconcPbStruct, tmp: seq<Byte>, start: nat, end: nat, pkLen: int) returns (outcome: Outcome)
    requires end < |tmp| && !data.decodeSucc
    modifies data
    ensures outcome == ParseFields(tmp, start, end, pkLen)
    ensures data.decodeSucc <==> outcome.Decoded?
    ensures outcome.Decoded? ==> data.View() == outcome.msg
  {
    hide Int32At, CStr;
    data.pkLen := pkLen;
    data.decodeSucc := false;
    var msgReqLenIndex := start + 5;
    if msgReqLenIndex >= end { return BadFrame; }
    if !InRange(tmp, msgReqLenIndex, 4) { return Overrun; }
    data.msgReqLen := Int32At(tmp, msgReqLenIndex);
    if data.msgReqLen == 0 { return BadFrame; }
    var msgReqIndex := msgReqLenIndex + 4;
    if !CopiesInto(tmp, msgReqIndex, data.msgReqLen, MSG_REQ_CAP) { return Overrun; }
    var serviceNameLenIndex := msgReqIndex + data.msgReqLen;
    data.msgReq := CStr(tmp[msgReqIndex..serviceNameLenIndex]);
    if serviceNameLenIndex >= end { return BadFrame; }
    var serviceNameIndex := serviceNameLenIndex + 4;
    if serviceNameIndex >= end { return BadFrame; }
    data.serviceNameLen := Int32At(tmp, serviceNameLenIndex);
    if data.serviceNameLen > pkLen { return BadFrame; }
    if !CopiesInto(tmp, serviceNameIndex, data.serviceNameLen, NAME_CAP) { return Overrun; }
    var errCodeIndex := serviceNameIndex + data.serviceNameLen;
    data.serviceFullName := CStr(tmp[serviceNameIndex..errCodeIndex]);
    if !InRange(tmp, errCodeIndex, 4) { return Overrun; }
    data.errCode := Int32At(tmp, errCodeIndex);
    var errInfoLenIndex := errCodeIndex + 4;
    if errInfoLenIndex >= end { return BadFrame; }
    if !InRange(tmp, errInfoLenIndex, 4) { return Overrun; }
    data.errInfoLen := Int32At(tmp, errInfoLenIndex);
    var errInfoIndex := errInfoLenIndex + 4;
    if !CopiesInto(tmp, errInfoIndex, data.errInfoLen, NAME_CAP) { return Overrun; }
    var pbDataIndex := errInfoIndex + data.errInfoLen;
    data.errInfo := CStr(tmp[errInfoIndex..pbDataIndex]);
    var pbDataLen := data.pkLen - data.serviceNameLen - data.msgReqLen - data.errInfoLen - FIXED_LEN;
    if pbDataIndex >= end { return BadFrame; }
    if !InRange(tmp, pbDataIndex, pbDataLen) { return Overrun; }
    data.pbData := tmp[pbDataIndex..pbDataIndex + pbDataLen];
    data.decodeSucc := true;
    return Decoded(data.View());
  }
}
