/** TcpConnection's input and execute, as methods on the connection's buffer, and the reply map of a
    client connection. What they do is the value-level pipeline. */
module TcpConnections {
  import opened Bytes
  import opened TcpBuffers
  import opened PbCodec
  import opened Pipeline

  /** std::map::insert, message after message: the first reply for a msg_req stays. */
  function InsertAll(replies: map<seq<Byte>, Msg>, msgs: seq<Msg>): map<seq<Byte>, Msg>
    decreases |msgs|
  {
    if msgs == [] then replies
    else
      var m := msgs[0];
      InsertAll(if m.msgReq in replies then replies else replies[m.msgReq := m], msgs[1..])
  }

  lemma {:induction false} InsertAllAppend(replies: map<seq<Byte>, Msg>, msgs: seq<Msg>, m: Msg)
    ensures InsertAll(replies, msgs + [m]) == InsertAll(InsertAll(replies, msgs), [m])
    decreases |msgs|
  {
    if msgs == [] {
      assert [] + [m] == [m];
    } else {
      assert (msgs + [m])[1..] == msgs[1..] + [m];
      var m0 := msgs[0];
      InsertAllAppend(if m0.msgReq in replies then replies else replies[m0.msgReq := m0], msgs[1..], m);
    }
  }

  lemma InsertNone(replies: map<seq<Byte>, Msg>)
    ensures InsertAll(replies, []) == replies
  {
  }

  lemma ExecuteEmpty(b: Buf)
    requires b.Tidy() && b.Readable() == 0
    ensures Execute(b) == Exec([], b, false)
  {
  }

  /** One turn of execute's loop. */
  lemma ExecuteUnfolds(b: Buf)
    requires b.Tidy() && b.Readable() > 0
    ensures
      var r := Decode(b);
      && r.buf.Tidy()
      && (r.outcome.Decoded? ==>
            && r.buf.Readable() < b.Readable()
            && Execute(b) == Execute(r.buf).(msgs := [r.outcome.msg] + Execute(r.buf).msgs))
      && (!r.outcome.Decoded? ==> Execute(b) == Exec([], r.buf, r.outcome.Overrun?))
  {
    DecodeKeeps(b);
    hide Decode;
  }

  /** e is what execute does in all, when it has delivered `done` and buffer b is left. */
  ghost predicate Rest(e: Exec, b: Buf, done: seq<Msg>) {
    b.Tidy() && e == Execute(b).(msgs := done + Execute(b).msgs)
  }

  lemma RestStep(e: Exec, b: Buf, done: seq<Msg>)
    requires Rest(e, b, done) && b.Readable() > 0
    ensures
      var r := Decode(b);
      && (r.outcome.Decoded? ==> r.buf.Readable() < b.Readable() && Rest(e, r.buf, done + [r.outcome.msg]))
      && (!r.outcome.Decoded? ==> e == Exec(done, r.buf, r.outcome.Overrun?))
  {
    ExecuteUnfolds(b);
    hide Decode, Execute;
    var r := Decode(b);
    if r.outcome.Decoded? {
      Assoc(done, [r.outcome.msg], Execute(r.buf).msgs);
    } else {
      assert done + [] == done;
    }
  }

  lemma RestEnd(e: Exec, b: Buf, done: seq<Msg>)
    requires Rest(e, b, done) && b.Readable() == 0
    ensures e == Exec(done, b, false)
  {
    ExecuteEmpty(b);
    assert done + [] == done;
  }

  /** msgs[i] is the first message with this msg_req. */
  ghost predicate FirstWith(msgs: seq<Msg>, key: seq<Byte>, i: nat) {
    i < |msgs| && msgs[i].msgReq == key && forall j :: 0 <= j < i ==> msgs[j].msgReq != key
  }

  /** The reply stored for a msg_req is the one that was there, or else the first that came in. */
  lemma {:induction false} FirstReplyWins(replies: map<seq<Byte>, Msg>, msgs: seq<Msg>, key: seq<Byte>, i: nat)
    requires key in replies || FirstWith(msgs, key, i)
    ensures key in InsertAll(replies, msgs)
    ensures InsertAll(replies, msgs)[key] == if key in replies then replies[key] else msgs[i]
    decreases |msgs|
  {
    if msgs != [] {
      var m := msgs[0];
      var replies' := if m.msgReq in replies then replies else replies[m.msgReq := m];
      if key in replies' {
        FirstReplyWins(replies', msgs[1..], key, 0);
      } else {
        FirstReplyWins(replies', msgs[1..], key, i - 1);
      }
    }
  }

  class TcpConnection {
    const readBuffer: TcpBuffer
    const isServer: bool
    var dispatched: seq<Msg>                // calls of the dispatcher, in order
    var replies: map<seq<Byte>, Msg>        // m_reply_datas

    ghost predicate Valid()
      reads this, readBuffer, readBuffer.buffer
    {
      readBuffer.Valid()
    }

    constructor (isServer: bool, size: nat)
      ensures Valid() && this.isServer == isServer && readBuffer.View() == New(size)
      ensures dispatched == [] && replies == map[]
      ensures fresh(readBuffer) && fresh(readBuffer.buffer)
    {
      this.isServer := isServer;
      dispatched, replies := [], map[];
      var buffer := new TcpBuffer(size);
      readBuffer := buffer;
    }

    /** The read loop of input. `results` is what read_hook returns, call by call. */
    method Input(results: seq<seq<Byte>>) returns (closeFlag: bool)
      requires Valid() && Feasible(readBuffer.View(), results)
      modifies readBuffer, readBuffer.buffer
      ensures Valid()
      ensures readBuffer.View() == AfterInput(old(readBuffer.View()), results)
      ensures closeFlag <==> Closes(results)
      ensures fresh(readBuffer.buffer) || readBuffer.buffer == old(readBuffer.buffer)
    {
      hide Feasible, AfterInput, Buf.Fill, Buf.Resize;
      ghost var target := AfterInput(readBuffer.View(), results);
      var readAll := false;
      closeFlag := false;
      var n := 0;
      OneRead(readBuffer.View(), results);
      assert results[0..] == results;
      while !readAll && !closeFlag
        invariant Valid() && n <= |results|
        invariant fresh(readBuffer.buffer) || readBuffer.buffer == old(readBuffer.buffer)
        invariant !readAll && !closeFlag ==>
          && n < |results| && Feasible(readBuffer.View(), results[n..])
          && AfterInput(readBuffer.View(), results[n..]) == target
        invariant readAll || closeFlag ==> n == |results| > 0 && readBuffer.View() == target
        invariant closeFlag ==> results[|results| - 1] == []
        invariant readAll ==> results[|results| - 1] != []
        decreases |results| - n
      {
        OneRead(readBuffer.View(), results[n..]);
        if readBuffer.buffer.Length - readBuffer.writeIndex == 0 {
          readBuffer.ResizeBuffer(2 * readBuffer.buffer.Length);
        }
        var readCount := readBuffer.buffer.Length - readBuffer.writeIndex;
        var rt := results[n];
        assert results[n..][0] == rt && results[n..][1..] == results[n + 1..];
        if |rt| > 0 {
          Receive(rt);
        }
        n := n + 1;
        if |rt| <= 0 {
          closeFlag := true;
        } else if |rt| < readCount {
          readAll := true;
        }
      }
    }

    /** The system call and recycleWrite. */
    method Receive(rt: seq<Byte>)
      requires Valid() && |rt| <= readBuffer.buffer.Length - readBuffer.writeIndex
      modifies readBuffer, readBuffer.buffer
      ensures Valid() && readBuffer.View() == old(readBuffer.View()).Fill(rt)
      ensures fresh(readBuffer.buffer) || readBuffer.buffer == old(readBuffer.buffer)
    {
      StoreIsFifo(readBuffer.View(), rt);
      readBuffer.ReceiveInto(rt);
      readBuffer.RecycleWrite(|rt|);
    }

    /** `done` has been delivered since the dispatched calls and replies were as given. */
    ghost predicate HasDelivered(dispatched0: seq<Msg>, replies0: map<seq<Byte>, Msg>, done: seq<Msg>)
      reads this
    {
      && dispatched == (if isServer then dispatched0 + done else dispatched0)
      && replies == (if isServer then replies0 else InsertAll(replies0, done))
    }

    /** One turn of execute's loop: decode, and deliver what came out. */
    method DecodeAndDeliver(ghost dispatched0: seq<Msg>, ghost replies0: map<seq<Byte>, Msg>, ghost done: seq<Msg>)
      returns (outcome: Outcome)
      requires Valid() && HasDelivered(dispatched0, replies0, done)
      modifies this`dispatched, this`replies, readBuffer
      ensures Valid() && Result(outcome, readBuffer.View()) == Decode(old(readBuffer.View()))
      ensures HasDelivered(dispatched0, replies0, if outcome.Decoded? then done + [outcome.msg] else done)
      ensures fresh(readBuffer.buffer) || readBuffer.buffer == old(readBuffer.buffer)
    {
      hide Decode, InsertAll;
      var data := new FlconcPbStruct();
      outcome := DecodeFrom(readBuffer, data);
      if data.decodeSucc {
        Assoc(dispatched0, done, [outcome.msg]);
        InsertAllAppend(replies0, done, outcome.msg);
        Deliver(data.View());
      }
    }

    /** The decode loop of execute over the FlconcPb codec. There it stops by itself: every decoded message uses
        up bytes. */
    method ExecuteAll() returns (overrun: bool)
      requires Valid()
      modifies this`dispatched, this`replies, readBuffer, readBuffer.buffer
      ensures Valid()
      ensures
        var e := Execute(old(readBuffer.View()));
        && readBuffer.View() == e.buf && overrun == e.overrun
        && HasDelivered(old(dispatched), old(replies), e.msgs)
    {
      ghost var e := Execute(readBuffer.View());
      ghost var dispatched0, replies0, done := dispatched, replies, [];
      overrun := false;
      InsertNone(replies);
      assert dispatched + [] == dispatched && [] + e.msgs == e.msgs;
      assert Rest(e, readBuffer.View(), done) && HasDelivered(dispatched0, replies0, done);
      hide Execute, Decode, InsertAll, Rest, HasDelivered;
      while readBuffer.writeIndex - readBuffer.readIndex > 0
        invariant Valid() && !overrun
        invariant fresh(readBuffer.buffer) || readBuffer.buffer == old(readBuffer.buffer)
        invariant Rest(e, readBuffer.View(), done)
        invariant HasDelivered(dispatched0, replies0, done)
        decreases readBuffer.writeIndex - readBuffer.readIndex
      {
        RestStep(e, readBuffer.View(), done);
        var outcome := DecodeAndDeliver(dispatched0, replies0, done);
        if !outcome.Decoded? {
          overrun := outcome.Overrun?;
          return;
        }
        done := done + [outcome.msg];
      }
      RestEnd(e, readBuffer.View(), done);
    }

    /** One turn of the server's loop, up to its output. An empty read gives the thread away for good, so what
        follows it never runs. */
    method ServeRound(results: seq<seq<Byte>>) returns (closed: bool, overrun: bool)
      requires Valid() && Feasible(readBuffer.View(), results)
      modifies this`dispatched, this`replies, readBuffer, readBuffer.buffer
      ensures Valid() && FeasibleRounds(old(readBuffer.View()), [results])
      ensures closed <==> Closes(results)
      ensures
        var e := RunRounds(old(readBuffer.View()), [results]);
        && readBuffer.View() == e.buf && overrun == e.overrun
        && HasDelivered(old(dispatched), old(replies), e.msgs)
    {
      hide Feasible, FeasibleRounds, RunRounds, AfterInput, Execute, Closes;
      OneRound(readBuffer.View(), results);
      overrun := false;
      closed := Input(results);
      if closed {
        InsertNone(replies);
        assert dispatched + [] == dispatched;
        return;
      }
      overrun := ExecuteAll();
    }

    method Deliver(m: Msg)
      modifies this`dispatched, this`replies
      ensures dispatched == if isServer then old(dispatched) + [m] else old(dispatched)
      ensures replies == if isServer then old(replies) else InsertAll(old(replies), [m])
    {
      if isServer {
        dispatched := dispatched + [m];
      } else if m.msgReq !in replies {
        replies := replies[m.msgReq := m];
      }
    }

    /** A reply is handed out once. */
    method GetResPackageData(msgReq: seq<Byte>) returns (found: bool, m: Msg)
      modifies this`replies
      ensures found == (msgReq in old(replies)) && msgReq !in replies
      ensures found ==> m == old(replies)[msgReq] && replies == old(replies) - {msgReq}
      ensures !found ==> replies == old(replies)
    {
      found, m := false, Msg([], [], 0, [], []);
      if msgReq in replies {
        found, m := true, replies[msgReq];
        replies := replies - {msgReq};
      }
    }
  }

  /** One turn of output's loop: the connection's state at its head, what write_hook returned, and the
      over-time flag at its end. */
  datatype Turn = Turn(connected: bool, rt: int, overTime: bool)

  /** Written, and the buffer. Overrun: a failed write moved the read index to before the buffer. */
  datatype Sent = Sent(bytes: seq<Byte>, buf: Buf, overrun: bool)

  predicate Writes(b: Buf, turn: Turn) {
    turn.connected && b.Readable() != 0
  }

  /** The count of a failed write is recycled like any other, so the read index moves back. */
  lemma TurnFits(b: Buf, rt: int)
    requires b.Tidy() && rt <= b.Readable() && 0 <= b.rd + rt
    ensures b.Valid() && b.rd + rt <= b.wr && b.RecycleRead(rt).Tidy()
    ensures rt >= 0 ==> b.RecycleRead(rt).Contents() == b.Contents()[rt..]
    ensures rt < 0 ==> b.RecycleRead(rt).Contents() == b.data[b.rd + rt..b.rd] + b.Contents()
  {
    var b1 := b.(rd := b.rd + rt);
    AdjustIsFifo(b1);
    if rt >= 0 {
      assert b1.Contents() == b.Contents()[rt..];
    } else {
      assert b1.Contents() == b.data[b.rd + rt..b.rd] + b.Contents();
    }
  }

  /** The turns are those of one call: the last one, and only it, leaves the loop. */
  ghost predicate FeasibleOutput(b: Buf, turns: seq<Turn>)
    requires b.Tidy()
    decreases |turns|
  {
    && turns != []
    && var turn := turns[0];
    if !Writes(b, turn) then |turns| == 1
    else
      && turn.rt <= b.Readable()
      && if b.rd + turn.rt < 0 then |turns| == 1
         else
           TurnFits(b, turn.rt);
           var b1 := b.RecycleRead(turn.rt);
           if b1.Readable() <= 0 || turn.overTime then |turns| == 1 else FeasibleOutput(b1, turns[1..])
  }

  /** A turn that finds the connection unconnected, or nothing to write, is the last one and writes nothing. */
  lemma {:induction false} UnconnectedIsLast(b: Buf, turns: seq<Turn>, i: nat)
    requires b.Tidy() && FeasibleOutput(b, turns) && i < |turns|
    ensures !turns[i].connected ==> i == |turns| - 1
    ensures !turns[0].connected || b.Readable() == 0 ==> AfterOutput(b, turns) == Sent([], b, false)
    decreases |turns|
  {
    if i > 0 && Writes(b, turns[0]) && b.rd + turns[0].rt >= 0 {
      TurnFits(b, turns[0].rt);
      hide Buf.Tidy, Buf.Contents, Buf.RecycleRead;
      UnconnectedIsLast(b.RecycleRead(turns[0].rt), turns[1..], i - 1);
    }
  }

  function Front(b: Buf, rt: int): seq<Byte>
    requires b.Valid() && rt <= b.Readable()
  {
    if rt < 0 then [] else b.Contents()[..rt]
  }

  ghost function AfterOutput(b: Buf, turns: seq<Turn>): Sent
    requires b.Tidy() && FeasibleOutput(b, turns)
    decreases |turns|
  {
    var turn := turns[0];
    if !Writes(b, turn) then Sent([], b, false)
    else if b.rd + turn.rt < 0 then Sent([], b, true)
    else
      TurnFits(b, turn.rt);
      var b1 := b.RecycleRead(turn.rt);
      if |turns| == 1 then Sent(Front(b, turn.rt), b1, false)
      else
        var rest := AfterOutput(b1, turns[1..]);
        rest.(bytes := Front(b, turn.rt) + rest.bytes)
  }

  /** No write of the call fails. */
  ghost predicate NoneFails(b: Buf, turns: seq<Turn>)
    requires b.Tidy() && FeasibleOutput(b, turns)
    decreases |turns|
  {
    Writes(b, turns[0]) ==>
      && turns[0].rt >= 0
      && (TurnFits(b, turns[0].rt);
          |turns| > 1 ==> NoneFails(b.RecycleRead(turns[0].rt), turns[1..]))
  }

  lemma {:induction false} OutputGrows(b: Buf, turns: seq<Turn>)
    requires b.Tidy() && FeasibleOutput(b, turns)
    ensures AfterOutput(b, turns).buf.Tidy()
    ensures !AfterOutput(b, turns).overrun ==>
      var e := AfterOutput(b, turns);
      |e.bytes| + |e.buf.Contents()| >= |b.Contents()|
      && (|e.bytes| + |e.buf.Contents()| == |b.Contents()| <==> NoneFails(b, turns))
    decreases |turns|
  {
    var turn := turns[0];
    TidyIsValid(b);
    ReadableIsLength(b);
    if Writes(b, turn) && b.rd + turn.rt >= 0 {
      TurnFits(b, turn.rt);
      hide Buf.Tidy, Buf.Contents, Buf.RecycleRead;
      if |turns| > 1 { OutputGrows(b.RecycleRead(turn.rt), turns[1..]); }
    }
  }

  lemma {:induction false} OutputConserves(b: Buf, turns: seq<Turn>)
    requires b.Tidy() && FeasibleOutput(b, turns) && NoneFails(b, turns)
    ensures
      var e := AfterOutput(b, turns);
      !e.overrun && e.buf.Tidy() && e.bytes + e.buf.Contents() == b.Contents()
    decreases |turns|
  {
    var turn := turns[0];
    TidyIsValid(b);
    ReadableIsLength(b);
    if Writes(b, turn) {
      TurnFits(b, turn.rt);
      var b1, front := b.RecycleRead(turn.rt), Front(b, turn.rt);
      hide Buf.Tidy, Buf.Contents, Buf.RecycleRead;
      TidyIsValid(b1);
      Halves(b.Contents(), turn.rt);
      if |turns| > 1 {
        OutputConserves(b1, turns[1..]);
        var rest := AfterOutput(b1, turns[1..]);
        Assoc(front, rest.bytes, rest.buf.Contents());
      }
    } else {
      assert [] + b.Contents() == b.Contents();
    }
  }

  /** What output writes is, in order, what leaves the buffer, if and only if no write fails; a failed one puts
      bytes that were sent before back into it, or moves the read index to before the buffer. */
  lemma OutputConservesIff(b: Buf, turns: seq<Turn>)
    requires b.Tidy() && FeasibleOutput(b, turns)
    ensures
      var e := AfterOutput(b, turns);
      && e.buf.Tidy()
      && (!e.overrun && e.bytes + e.buf.Contents() == b.Contents() <==> NoneFails(b, turns))
  {
    hide AfterOutput, NoneFails, FeasibleOutput, Buf.Contents, Buf.Tidy;
    OutputGrows(b, turns);
    TidyIsValid(b);
    TidyIsValid(AfterOutput(b, turns).buf);
    if NoneFails(b, turns) { OutputConserves(b, turns); }
  }

  lemma LastWrite(b: Buf, turn: Turn)
    requires b.Tidy() && Writes(b, turn) && turn.rt <= b.Readable() && b.rd + turn.rt >= 0 && turn.overTime
    ensures FeasibleOutput(b, [turn])
    ensures AfterOutput(b, [turn]) == Sent(Front(b, turn.rt), b.RecycleRead(turn.rt), false)
  {
    hide Buf.Tidy, Buf.Contents, Buf.RecycleRead;
    TidyIsValid(b);
    TurnFits(b, turn.rt);
  }

  /** A failed write after at least one byte: that byte will be sent again. */
  lemma FailedWriteRepeats(b: Buf)
    requires b.Tidy() && b.Readable() > 0 && b.rd > 0
    ensures
      var turns := [Turn(true, -1, true)];
      && FeasibleOutput(b, turns) && AfterOutput(b, turns).bytes == [] && AfterOutput(b, turns).buf.Tidy()
      && AfterOutput(b, turns).buf.Contents() == [b.data[b.rd - 1]] + b.Contents()
  {
    hide Buf.Tidy, Buf.Contents, Buf.RecycleRead, FeasibleOutput, AfterOutput;
    TurnFits(b, -1);
    LastWrite(b, Turn(true, -1, true));
    assert b.data[b.rd - 1..b.rd] == [b.data[b.rd - 1]];
  }

  /** The system call and recycleRead. */
  method Send(writeBuffer: TcpBuffer, rt: int) returns (bytes: seq<Byte>, overrun: bool)
    requires writeBuffer.Valid() && rt <= writeBuffer.View().Readable()
    modifies writeBuffer
    ensures writeBuffer.Valid() && overrun == (old(writeBuffer.readIndex) + rt < 0)
    ensures if overrun then bytes == [] && writeBuffer.View() == old(writeBuffer.View())
            else bytes == Front(old(writeBuffer.View()), rt) && writeBuffer.View() == old(writeBuffer.View()).RecycleRead(rt)
    ensures fresh(writeBuffer.buffer) || writeBuffer.buffer == old(writeBuffer.buffer)
  {
    hide Buf.RecycleRead;
    bytes, overrun := [], writeBuffer.readIndex + rt < 0;
    if overrun {
      return;
    }
    if rt > 0 {
      bytes := writeBuffer.buffer[writeBuffer.readIndex..writeBuffer.readIndex + rt];
    }
    assert bytes == Front(writeBuffer.View(), rt);
    writeBuffer.RecycleRead(rt);
  }

  /** output in place. */
  method Output(writeBuffer: TcpBuffer, turns: seq<Turn>) returns (sent: seq<Byte>, overrun: bool)
    requires writeBuffer.Valid() && FeasibleOutput(writeBuffer.View(), turns)
    modifies writeBuffer
    ensures writeBuffer.Valid()
    ensures Sent(sent, writeBuffer.View(), overrun) == AfterOutput(old(writeBuffer.View()), turns)
    ensures
      overrun || writeBuffer.View().Readable() == 0 || !turns[|turns| - 1].connected || turns[|turns| - 1].overTime
  {
    hide FeasibleOutput, AfterOutput, Buf.RecycleRead, Buf.Contents, Front;
    sent, overrun := [], false;
    ghost var e := AfterOutput(writeBuffer.View(), turns);
    var n := 0;
    assert turns[0..] == turns && [] + e.bytes == e.bytes;
    OutputTurn(writeBuffer.View(), turns);
    while true
      invariant 0 <= n < |turns| && writeBuffer.Valid() && !overrun
      invariant fresh(writeBuffer.buffer) || writeBuffer.buffer == old(writeBuffer.buffer)
      invariant FeasibleOutput(writeBuffer.View(), turns[n..])
      invariant
        var rest := AfterOutput(writeBuffer.View(), turns[n..]);
        e == rest.(bytes := sent + rest.bytes)
      decreases |turns| - n
    {
      var turn := turns[n];
      ghost var b, more := writeBuffer.View(), turns[n..];
      assert more[0] == turn && more[1..] == turns[n + 1..];
      OutputTurn(b, more);
      assert sent + [] == sent;
      if !turn.connected || writeBuffer.writeIndex - writeBuffer.readIndex == 0 {
        break;
      }
      var bytes, off := Send(writeBuffer, turn.rt);
      if off {
        overrun := true;
        break;
      }
      sent := sent + bytes;
      if writeBuffer.writeIndex - writeBuffer.readIndex <= 0 || turn.overTime {
        break;
      }
      Assoc(sent[..|sent| - |bytes|], bytes, AfterOutput(writeBuffer.View(), turns[n + 1..]).bytes);
      n := n + 1;
    }
  }

  /** One turn of the loop. */
  lemma OutputTurn(b: Buf, turns: seq<Turn>)
    requires b.Tidy() && FeasibleOutput(b, turns)
    ensures turns != []
    ensures !Writes(b, turns[0]) ==> |turns| == 1 && AfterOutput(b, turns) == Sent([], b, false)
    ensures Writes(b, turns[0]) ==> turns[0].rt <= b.Readable()
    ensures Writes(b, turns[0]) && b.rd + turns[0].rt < 0 ==>
      |turns| == 1 && AfterOutput(b, turns) == Sent([], b, true)
    ensures Writes(b, turns[0]) && b.rd + turns[0].rt >= 0 ==>
      (TurnFits(b, turns[0].rt);
       var b1 := b.RecycleRead(turns[0].rt);
       if b1.Readable() <= 0 || turns[0].overTime then
         |turns| == 1 && AfterOutput(b, turns) == Sent(Front(b, turns[0].rt), b1, false)
       else
         && |turns| > 1 && FeasibleOutput(b1, turns[1..])
         && var rest := AfterOutput(b1, turns[1..]);
         AfterOutput(b, turns) == rest.(bytes := Front(b, turns[0].rt) + rest.bytes))
  {
    hide Front, Buf.RecycleRead, Buf.Tidy, Buf.Contents;
    TidyIsValid(b);
    if Writes(b, turns[0]) && b.rd + turns[0].rt >= 0 {
      TurnFits(b, turns[0].rt);
      var b1 := b.RecycleRead(turns[0].rt);
      if |turns| > 1 { NotEmptyTurns(b1, turns[1..]); }
    }
  }

  lemma NotEmptyTurns(b: Buf, turns: seq<Turn>)
    requires b.Tidy() && FeasibleOutput(b, turns)
    ensures turns != []
  {
  }
}
