/** TcpConnection::execute over the HTTP codec. The loop runs as long as decode succeeds, and it can succeed
    without consuming anything; so the loop is a sequence of turns, which may not end. */
module HttpPipelines {
  import opened Bytes
  import opened StringSplit
  import opened TcpBuffers
  import opened HttpDefine
  import opened HttpCodec
  import opened HttpRequests

  /** What has been dispatched, and the buffer. Aborted: an exception out of decode, or a recycleRead to
      before the buffer. */
  datatype Progress =
    | Running(requests: seq<Request>, buf: Buf)
    | Stopped(requests: seq<Request>, buf: Buf)
    | Aborted(requests: seq<Request>)

  /** One turn of the loop. */
  function Turn(s: Progress): Progress
    requires s.Running? && s.buf.Tidy()
  {
    var b := s.buf;
    if b.Readable() == 0 then Stopped(s.requests, b)
    else
      var strs := Text(b.Contents());
      ConsumedInRange(BLANK, strs);
      match Decode(BLANK, strs)
      case Failed(_) => Stopped(s.requests, b)
      case Escaped => Aborted(s.requests)
      case Accepted(n, r) => if b.rd + n < 0 then Aborted(s.requests) else Running(s.requests + [r], b.RecycleRead(n))
  }

  /** Recycling, also backwards, keeps the buffer tidy. */
  lemma RecycleKeeps(b: Buf, n: int)
    requires b.Tidy() && 0 <= b.rd + n <= b.wr
    ensures b.RecycleRead(n).Tidy()
  {
    AdjustIsFifo(b.(rd := b.rd + n));
  }

  lemma TurnKeeps(s: Progress)
    requires s.Running? && s.buf.Tidy()
    ensures Turn(s).Running? ==> Turn(s).buf.Tidy()
  {
    var b := s.buf;
    var strs := Text(b.Contents());
    hide Decode, Buf.Tidy, Buf.RecycleRead;
    TidyIsValid(b);
    ConsumedInRange(BLANK, strs);
    var d := Decode(BLANK, strs);
    if d.Accepted? && b.rd + d.consumed >= 0 { RecycleKeeps(b, d.consumed); }
  }

  ghost predicate Sound(s: Progress) {
    s.Running? ==> s.buf.Tidy()
  }

  /** n turns, or as many as there are. */
  ghost function Turns(s: Progress, n: nat): (t: Progress)
    requires Sound(s)
    ensures Sound(t)
    decreases n
  {
    if n == 0 || !s.Running? then s
    else
      TurnKeeps(s);
      Turns(Turn(s), n - 1)
  }

  ghost predicate Ends(s: Progress)
    requires Sound(s)
  {
    exists n: nat :: !Turns(s, n).Running?
  }

  lemma {:induction false} TurnsAdd(s: Progress, i: nat, j: nat)
    requires Sound(s)
    ensures Turns(s, i + j) == Turns(Turns(s, i), j)
    decreases i
  {
    hide Turn, Buf.Tidy;
    if i > 0 && s.Running? {
      TurnKeeps(s);
      TurnsAdd(Turn(s), i - 1, j);
    }
  }

  lemma OneTurn(s: Progress)
    requires s.Running? && s.buf.Tidy()
    ensures Sound(Turn(s)) && Turns(s, 1) == Turn(s)
  {
    hide Turn, Buf.Tidy;
    TurnKeeps(s);
    assert Turns(Turn(s), 0) == Turn(s);
  }

  // --- Turns that consume nothing ---

  /** decode succeeds and consumes nothing. */
  ghost predicate Stuck(s: Progress)
    requires Sound(s)
  {
    && s.Running? && s.buf.Readable() > 0
    && var d := Decode(BLANK, Text(s.buf.Contents()));
    d.Accepted? && d.consumed == 0
  }

  lemma StuckTurn(s: Progress)
    requires Sound(s) && Stuck(s)
    ensures Turn(s) == Running(s.requests + [Decode(BLANK, Text(s.buf.Contents())).request], s.buf)
  {
    hide Decode;
  }

  function Repeated<T>(x: T, n: nat): seq<T> {
    seq(n, _ => x)
  }

  /** From there on every turn dispatches the same again. */
  lemma {:induction false} StuckForEver(s: Progress, n: nat)
    requires Sound(s) && Stuck(s)
    ensures Turns(s, n) ==
      Running(s.requests + Repeated(Decode(BLANK, Text(s.buf.Contents())).request, n), s.buf)
    decreases n
  {
    hide Turn, Decode, Buf.Tidy;
    TidyIsValid(s.buf);
    var r := Decode(BLANK, Text(s.buf.Contents())).request;
    if n == 0 {
      assert s.requests + Repeated(r, 0) == s.requests;
    } else {
      StuckTurn(s);
      StuckForEver(Turn(s), n - 1);
      assert s.requests + [r] + Repeated(r, n - 1) == s.requests + Repeated(r, n);
    }
  }

  /** decode consumes no negative count, as it can for a negative Content-Length. */
  ghost predicate Forward(s: Progress)
    requires Sound(s)
  {
    s.Running? ==>
      var d := Decode(BLANK, Text(s.buf.Contents()));
      d.Accepted? ==> d.consumed >= 0
  }

  lemma TurnShrinks(s: Progress)
    requires Sound(s) && s.Running? && Forward(s) && !Stuck(s)
    ensures Turn(s).Running? ==> Turn(s).buf.Readable() < s.buf.Readable()
  {
    hide Decode;
    ConsumedInRange(BLANK, Text(s.buf.Contents()));
  }

  lemma {:induction false} EndsUnlessStuck(s: Progress)
    requires Sound(s) && forall n: nat :: Forward(Turns(s, n)) && !Stuck(Turns(s, n))
    ensures Ends(s)
    decreases if s.Running? then s.buf.wr - s.buf.rd else 0
  {
    hide Turn, Decode, Buf.Tidy, Stuck, Forward;
    assert Turns(s, 0) == s;
    if s.Running? {
      OneTurn(s);
      TurnShrinks(s);
      var s' := Turn(s);
      if s'.Running? {
        TidyIsValid(s'.buf);
        forall n: nat ensures Forward(Turns(s', n)) && !Stuck(Turns(s', n)) {
          TurnsAdd(s, 1, n);
        }
        EndsUnlessStuck(s');
        var n: nat :| !Turns(s', n).Running?;
        TurnsAdd(s, 1, n);
        assert !Turns(s, 1 + n).Running?;
      } else {
        assert !Turns(s, 1).Running?;
      }
    }
  }

  lemma NeverEnds(s: Progress, i: nat)
    requires Sound(s) && Stuck(Turns(s, i))
    ensures !Ends(s)
  {
    hide Turn, Decode, Buf.Tidy, Stuck;
    forall n: nat ensures Turns(s, n).Running? {
      if n <= i {
        TurnsAdd(s, n, i - n);
        StuckRuns(Turns(s, i));
      } else {
        TurnsAdd(s, i, n - i);
        StuckForEver(Turns(s, i), n - i);
      }
    }
  }

  lemma StuckRuns(s: Progress)
    requires Sound(s) && Stuck(s)
    ensures s.Running?
  {
  }

  /** As long as no count is negative, the loop ends if and only if no turn is stuck. */
  lemma EndsIffNeverStuck(s: Progress)
    requires Sound(s) && forall n: nat :: Forward(Turns(s, n))
    ensures Ends(s) <==> forall n: nat :: !Stuck(Turns(s, n))
  {
    hide Turn, Decode, Buf.Tidy, Stuck, Forward, Turns, Ends;
    if n: nat :| Stuck(Turns(s, n)) {
      NeverEnds(s, n);
    } else {
      EndsUnlessStuck(s);
    }
  }

  // --- Printed requests ---

  ghost predicate Sendable(m: Message) {
    m.Printable() && m.headers != map[]
  }

  ghost predicate AllSendable(ms: seq<Message>) {
    forall i :: 0 <= i < |ms| ==> Sendable(ms[i])
  }

  lemma SendableFacts(m: Message)
    requires Sendable(m)
    ensures m.Printable() && m.headers != map[]
    ensures forall k :: k in m.queryOrder ==> k in m.query
    ensures forall k :: k in m.order ==> k in m.headers
  {
    EnumeratesOrders(m);
    hide Message.Printable;
  }

  ghost function Prints(ms: seq<Message>): string
    requires AllSendable(ms)
  {
    if ms == [] then "" else ms[0].Print() + Prints(ms[1..])
  }

  /** The requests as decode gives them back. */
  ghost function Recovereds(ms: seq<Message>): seq<Request>
    requires AllSendable(ms)
  {
    if ms == [] then [] else [ms[0].Recovered()] + Recovereds(ms[1..])
  }

  lemma TextDrop(bytes: seq<Byte>, n: nat)
    requires n <= |bytes|
    ensures Text(bytes[n..]) == Text(bytes)[n..]
  {
  }

  lemma TextLength(b: Buf)
    requires b.Valid()
    ensures |Text(b.Contents())| == b.Readable() == |b.Contents()|
  {
  }

  lemma InsideReadable(b: Buf, n: nat)
    requires n <= b.Readable()
    ensures b.rd + n <= b.wr
  {
  }

  lemma AcceptedTurn(s: Progress, n: nat, r: Request)
    requires s.Running? && s.buf.Tidy() && s.buf.Readable() > 0 && n <= s.buf.Readable()
    requires Decode(BLANK, Text(s.buf.Contents())) == Accepted(n, r)
    ensures Turn(s) == Running(s.requests + [r], s.buf.RecycleRead(n))
  {
    hide Decode, Buf.RecycleRead, Text;
  }

  lemma PrintNotEmpty(m: Message)
    requires Sendable(m)
    ensures |m.Print()| > 0
  {
    hide Message.RequestLine, Block;
  }

  /** A request at the front of the buffer is dispatched, and what follows it is left. */
  lemma TurnDelivers(s: Progress, m: Message, rest: string)
    requires s.Running? && s.buf.Tidy() && Sendable(m) && Text(s.buf.Contents()) == m.Print() + rest
    ensures
      var t := Turn(s);
      t.Running? && t.requests == s.requests + [m.Recovered()] && t.buf.Tidy() && Text(t.buf.Contents()) == rest
  {
    hide *;
    SendableFacts(m);
    TidyIsValid(s.buf);
    TextLength(s.buf);
    PrintNotEmpty(m);
    DecodeInvertsPrint(m, rest);
    var n := |m.Print()|;
    AcceptedTurn(s, n, m.Recovered());
    ConsumeIsFifo(s.buf, n);
    InsideReadable(s.buf, n);
    TidyIsValid(s.buf.RecycleRead(n));
    TextDrop(s.buf.Contents(), n);
    BehindFront(m.Print(), rest);
  }

  lemma BehindFront<T>(a: seq<T>, b: seq<T>)
    ensures (a + b)[|a|..] == b
  {
  }

  lemma PrintsStep(ms: seq<Message>, cut: string)
    requires AllSendable(ms) && |ms| > 0
    ensures Sendable(ms[0]) && AllSendable(ms[1..])
    ensures Prints(ms) + cut == ms[0].Print() + (Prints(ms[1..]) + cut)
    ensures Recovereds(ms) == [ms[0].Recovered()] + Recovereds(ms[1..])
  {
    hide *;
    PrintsUnfold(ms);
    SendableFacts(ms[0]);
    Regrouped(ms[0].Print(), Prints(ms[1..]), cut);
  }

  lemma PrintsUnfold(ms: seq<Message>)
    requires AllSendable(ms) && |ms| > 0
    ensures Sendable(ms[0]) && AllSendable(ms[1..])
    ensures Prints(ms) == ms[0].Print() + Prints(ms[1..])
    ensures Recovereds(ms) == [ms[0].Recovered()] + Recovereds(ms[1..])
  {
    hide Message.Print, Message.Recovered, Sendable;
  }

  lemma Regrouped<T>(a: seq<T>, b: seq<T>, c: seq<T>)
    ensures a + b + c == a + (b + c)
  {
  }

  lemma NoPrints(ms: seq<Message>, cut: string)
    requires |ms| == 0
    ensures AllSendable(ms) && Prints(ms) + cut == cut && Recovereds(ms) == []
  {
  }

  lemma FirstTurn(s: Progress, n: nat)
    requires s.Running? && s.buf.Tidy() && n > 0
    ensures Sound(s) && Sound(Turn(s)) && Turns(s, n) == Turns(Turn(s), n - 1)
  {
    hide Turn, Buf.Tidy;
    TurnKeeps(s);
  }

  /** The complete requests are dispatched in order, one a turn. */
  lemma {:induction false} RequestsFirst(s: Progress, ms: seq<Message>, cut: string)
    requires s.Running? && s.buf.Tidy() && AllSendable(ms) && Text(s.buf.Contents()) == Prints(ms) + cut
    ensures
      var t := Turns(s, |ms|);
      t.Running? && t.requests == s.requests + Recovereds(ms) && t.buf.Tidy() && Text(t.buf.Contents()) == cut
    decreases |ms|
  {
    hide *;
    TidyIsValid(s.buf);
    if |ms| == 0 {
      NoPrints(ms, cut);
      FewTurns(s);
    } else {
      PrintsStep(ms, cut);
      SendableFacts(ms[0]);
      TurnDelivers(s, ms[0], Prints(ms[1..]) + cut);
      FirstTurn(s, |ms|);
      RequestsFirst(Turn(s), ms[1..], cut);
      Regrouped(s.requests, [ms[0].Recovered()], Recovereds(ms[1..]));
    }
  }

  lemma FewTurns(s: Progress)
    requires s.Running? && s.buf.Tidy()
    ensures Sound(s) && Turns(s, 0) == s && s.requests + [] == s.requests
  {
  }

  /** What a proper prefix of a request does at the front of the buffer: the one that ends with the request
      line's CRLF is dispatched as an empty request, over and over; any other ends the loop. */
  lemma CutTurn(s: Progress, m: Message, cut: string)
    requires s.Running? && s.buf.Tidy() && Sendable(m) && cut < m.Print() && Text(s.buf.Contents()) == cut
    ensures
      if cut == m.RequestLine() + CRLF then
        Stuck(s) && Decode(BLANK, Text(s.buf.Contents())).request == BLANK
      else Turn(s) == Stopped(s.requests, s.buf)
  {
    SendableFacts(m);
    TextLength(s.buf);
    PrintShape(m, "");
    var line := m.RequestLine();
    assert m.Print() + "" == m.Print();
    hide Decode, Message.Print, Message.RequestLine, Message.Printable, Sendable, Text, Buf.Contents, Block;
    assert cut == m.Print()[..|cut|];
    PrefixFailsUnlessLine(m, |cut|);
    assert cut == line + CRLF <==> |cut| == |line| + 2;
  }

  /** execute over printed requests that have arrived up to any point: the complete ones are dispatched in
      order. Then the loop ends, with the rest kept, if and only if that rest is not exactly a request line
      with its CRLF; such a line is dispatched as an empty request for ever. */
  lemma ExecuteEndsIff(b: Buf, ms: seq<Message>, m: Message, cut: string)
    requires b.Tidy() && AllSendable(ms) && Sendable(m) && cut < m.Print()
    requires Text(b.Contents()) == Prints(ms) + cut
    ensures
      var s, t := Running([], b), Turns(Running([], b), |ms|);
      && Sound(s) && t.Running? && t.buf.Tidy() && Text(t.buf.Contents()) == cut
      && (Ends(s) <==> cut != m.RequestLine() + CRLF)
      && (cut != m.RequestLine() + CRLF ==> Turns(s, |ms| + 1) == Stopped(Recovereds(ms), t.buf))
      && (cut == m.RequestLine() + CRLF ==>
            forall n: nat :: Turns(s, |ms| + n) == Running(Recovereds(ms) + Repeated(BLANK, n), t.buf))
  {
    var s := Running([], b);
    hide *;
    Begins(b);
    RequestsFirst(s, ms, cut);
    SendableFacts(m);
    var t := Turns(s, |ms|);
    TidyIsValid(t.buf);
    CutTurn(t, m, cut);
    NothingBefore(Recovereds(ms));
    if cut == m.RequestLine() + CRLF {
      NeverEnds(s, |ms|);
      forall n: nat ensures Turns(s, |ms| + n) == Running(Recovereds(ms) + Repeated(BLANK, n), t.buf) {
        TurnsAdd(s, |ms|, n);
        StuckForEver(t, n);
      }
    } else {
      OneTurn(t);
      TurnsAdd(s, |ms|, 1);
      EndsAt(s, |ms| + 1);
    }
  }

  lemma Begins(b: Buf)
    requires b.Tidy()
    ensures Sound(Running([], b))
  {
  }

  lemma NothingBefore<T>(a: seq<T>)
    ensures [] + a == a
  {
  }

  lemma EndsAt(s: Progress, n: nat)
    requires Sound(s) && !Turns(s, n).Running?
    ensures Ends(s)
  {
  }

  /** So any line without a CR, arriving with its CRLF and nothing behind it, is never done with. */
  lemma LineAloneNeverEnds(b: Buf, line: string)
    requires b.Tidy() && Clean(line, "\r") && Text(b.Contents()) == line + CRLF
    ensures Sound(Running([], b)) && !Ends(Running([], b))
  {
    var s := Running([], b);
    hide Decode, Text, Buf.Contents, Ends;
    TextLength(b);
    LinePrefix(line, |line| + 2);
    assert (line + CRLF)[..|line| + 2] == line + CRLF;
    assert Turns(s, 0) == s;
    NeverEnds(s, 0);
  }

  /** The connection of an HTTP server. */
  class HttpConnection {
    const readBuffer: TcpBuffer
    var dispatched: seq<Request>

    constructor (size: nat)
      ensures readBuffer.Valid() && readBuffer.View() == New(size) && dispatched == []
      ensures fresh(readBuffer) && fresh(readBuffer.buffer)
    {
      dispatched := [];
      var buffer := new TcpBuffer(size);
      readBuffer := buffer;
    }

    ghost function View(): Progress
      reads this, readBuffer, readBuffer.buffer
    {
      Running(dispatched, readBuffer.View())
    }

    /** The decode loop of execute, for at most so many turns. */
    method ExecuteTurns(turns: nat) returns (running: bool, aborted: bool)
      requires readBuffer.Valid()
      modifies this`dispatched, readBuffer
      ensures readBuffer.Valid() && Sound(old(View()))
      ensures
        var t := Turns(old(View()), turns);
        && (running <==> t.Running?) && (aborted <==> t.Aborted?)
        && dispatched == t.requests && (!aborted ==> readBuffer.View() == t.buf)
    {
      hide Turn, Turns;
      running, aborted := true, false;
      ghost var s := View();
      var n := 0;
      while running && n < turns
        invariant 0 <= n <= turns && readBuffer.Valid() && Sound(s) && Sound(old(View()))
        invariant fresh(readBuffer.buffer) || readBuffer.buffer == old(readBuffer.buffer)
        invariant (running <==> s.Running?) && (aborted <==> s.Aborted?)
        invariant dispatched == s.requests && (!aborted ==> readBuffer.View() == s.buf)
        invariant Turns(s, turns - n) == Turns(old(View()), turns)
        decreases turns - n
      {
        FirstTurn(s, turns - n);
        running, aborted := OneExecuteTurn();
        s := Turn(s);
        n := n + 1;
      }
      LastTurn(s, turns - n);
    }

    /** One turn of it. */
    method OneExecuteTurn() returns (running: bool, aborted: bool)
      requires readBuffer.Valid()
      modifies this`dispatched, readBuffer
      ensures readBuffer.Valid() && old(View()).buf.Tidy()
      ensures fresh(readBuffer.buffer) || readBuffer.buffer == old(readBuffer.buffer)
      ensures
        var t := Turn(old(View()));
        && (running <==> t.Running?) && (aborted <==> t.Aborted?)
        && dispatched == t.requests && (!aborted ==> readBuffer.View() == t.buf)
    {
      hide Decode, Buf.RecycleRead, Buf.Contents;
      running, aborted := false, false;
      if readBuffer.writeIndex - readBuffer.readIndex == 0 {
        return;
      }
      var request := new HttpRequest();
      var threw, overrun := DecodeFrom(readBuffer, request);
      if threw || overrun {
        aborted := true;
        return;
      }
      if !request.decodeSucc {
        return;
      }
      dispatched := dispatched + [Request(request.verb, request.path, request.query, request.version,
                                          request.headers, request.body, request.queryMaps)];
      running := true;
    }
  }

  lemma LastTurn(s: Progress, n: nat)
    requires Sound(s) && (!s.Running? || n == 0)
    ensures Turns(s, n) == s
  {
    hide Turn;
  }
}
