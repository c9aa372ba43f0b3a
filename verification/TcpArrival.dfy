/**
 * What an arriving segment does to a connection, aspect by aspect: the state
 * it leads to, what is answered, and what the socket is told. In particular,
 * exactly when a reset or anything else closes the connection.
 */
module TcpArrival {
  import opened Words
  import opened TcpModel
  import opened TcpLifecycle
  import opened TcpDelivery
  import opened TcpSends

  /** A reset that the connection obeys. In the other states the flag is not looked at. */
  predicate ResetBy(c: Conn, t: Segment) {
    t.flags.rst && (|| c.state == Established
                    || (c.state == SynSent && !(t.flags.syn && t.flags.ack))
                    || (c.state == SynRcvd && !t.flags.ack))
  }

  /** The answer to the own SYN. */
  predicate Connects(c: Conn, t: Segment) {
    c.state == SynSent && t.flags.syn && t.flags.ack && t.ackNo == c.sendNxt
  }

  /** An answer to something that was never sent. */
  predicate WrongAnswer(c: Conn, t: Segment) {
    c.state == SynSent && t.flags.syn && t.flags.ack && t.ackNo != c.sendNxt
  }

  /** A socket that does not stay half-open closes its own side when its stream ends. */
  predicate ClosesToo(c: Conn) {
    c.socket.Socket? && !c.socket.ended && !c.socket.allowHalfOpen
  }

  /** Each state that an arrival can lead to, and exactly what leads to it. */
  predicate StateAfter(c: Conn, t: Segment, s: State) {
    && (s == Closed <==> c.state == Closed || ResetBy(c, t) || WrongAnswer(c, t) || (c.state == LastAck && t.flags.ack))
    && (s == Established <==>
          || Connects(c, t) || (c.state == SynRcvd && t.flags.ack)
          || (c.state == Established && !t.flags.rst && !t.flags.fin))
    && (s == SynSent <==> c.state == SynSent && !t.flags.rst && !(t.flags.syn && t.flags.ack))
    && (s == SynRcvd <==> c.state == SynRcvd && !t.flags.rst && !t.flags.ack)
    && (s == CloseWait <==> c.state == CloseWait || (c.state == Established && TakesFin(c, t) && !ClosesToo(c)))
    && (s == LastAck <==> (c.state == LastAck && !t.flags.ack) || (c.state == Established && TakesFin(c, t) && ClosesToo(c)))
    && (s == FinWait1 <==> c.state == FinWait1 && !t.flags.fin && !t.flags.ack)
    && (s == FinWait2 <==> (c.state == FinWait1 && !t.flags.fin && t.flags.ack) || (c.state == FinWait2 && !t.flags.fin))
    && (s == Closing <==> (c.state == FinWait1 && t.flags.fin && !t.flags.ack) || (c.state == Closing && !t.flags.ack))
    && (s == TimeWait <==>
          || c.state == TimeWait || (c.state == FinWait1 && t.flags.fin && t.flags.ack)
          || (c.state == FinWait2 && t.flags.fin) || (c.state == Closing && t.flags.ack))
  }

  function Ack(seqNo: uint32, ackNo: uint32): Segment {
    Segment(seqNo, ackNo, NO_FLAGS.(ack := true), WIN, [])
  }

  /** What is answered: an acknowledgement of payload taken, one of a FIN taken, the own FIN, and in TIME_WAIT one of a repeated FIN. */
  function Replies(c: Conn, t: Segment): seq<Segment> {
    (if Takes(c, t) then [Ack(c.sendNxt, Mid(c, t))] else [])
    + (if TakesFin(c, t) then [Ack(c.sendNxt, PointAfter(c, t))] else [])
    + (if c.state == Established && TakesFin(c, t) && ClosesToo(c)
       then [Segment(c.sendNxt, PointAfter(c, t), NO_FLAGS.(fin := true, ack := true), WIN, [])] else [])
    + (if c.state == TimeWait && t.flags.fin then [Ack(c.sendNxt, c.recvNxt)] else [])
  }

  /** What goes out, oldest first. What was buffered follows the acknowledgement that connects. */
  predicate WireAfter(c: Conn, t: Segment, w: seq<Segment>) {
    if Connects(c, t) then c.wire + [Ack(c.sendNxt, ToUint32(t.seqNo + 1))] <= w
    else if WrongAnswer(c, t) then w == c.wire + [Segment(c.sendNxt, c.recvNxt, NO_FLAGS.(rst := true, ack := true), 0, [])]
    else w == c.wire + Replies(c, t)
  }

  /** What the socket has been told. */
  predicate SocketAfter(c: Conn, t: Segment, listening: bool, s: Socket) {
    match c.socket
    case NoSocket =>
      s == if c.state == SynRcvd && t.flags.ack && listening then Socket(false, false, [], false, 0) else NoSocket
    case Socket(allowHalfOpen, connected, received, ended, errors) =>
      (c.state != SynRcvd ==>
         s == Socket(allowHalfOpen, connected || Connects(c, t),
                     if Takes(c, t) && !ended then received + t.payload else received,
                     ended || TakesFin(c, t),
                     if ResetBy(c, t) then errors + 1 else errors))
  }

  /** The highest acknowledgement seen, whatever its number. */
  predicate AckAfter(c: Conn, t: Segment, n: uint32) {
    n == if Connects(c, t) || (t.flags.ack && (c.state in {SynRcvd, FinWait1, CloseWait} || (c.state == Established && !t.flags.rst)))
         then t.ackNo else c.sendUna
  }

  /** Every aspect of one arrival. */
  predicate Arrival(c: Conn, t: Segment, listening: bool, d: Conn) {
    && StateAfter(c, t, d.state) && WireAfter(c, t, d.wire) && SocketAfter(c, t, listening, d.socket)
    && AckAfter(c, t, d.sendUna)
    && d.timeWaits == (if d.state == TimeWait && c.state != TimeWait then c.timeWaits + 1 else c.timeWaits)
    && (d.state == c.state || (c.state == FinWait1 && d.state == Closing) ==> d.rtx == c.rtx)
  }

  // ---------- state by state ----------

  /** From `c` to `d` a FIN was taken: acknowledged, the stream ended, and the own side closed if it does not stay open. */
  predicate TookFin(c: Conn, n: uint32, s: State, d: Conn) {
    && d.state == (if s == CloseWait && ClosesToo(c) then LastAck else s)
    && d.wire == c.wire + [Ack(c.sendNxt, n)]
                 + (if s == CloseWait && ClosesToo(c)
                    then [Segment(c.sendNxt, n, NO_FLAGS.(fin := true, ack := true), WIN, [])] else [])
    && d.socket == (if c.socket.Socket? then c.socket.(ended := true) else c.socket)
    && d.sendUna == c.sendUna && d.timeWaits == c.timeWaits && (s != CloseWait ==> d.rtx == c.rtx)
  }

  lemma RecvFinIs(c: Conn, n: uint32, s: State)
    requires s in {CloseWait, TimeWait, Closing}
    ensures TookFin(c, n, s, RecvFin(c, n, s))
  {
    hide ToUint32;
  }

  /** `d` took the payload of `t` if it was due; nothing else has changed. */
  predicate Took(c: Conn, t: Segment, d: Conn) {
    && d.state == c.state && d.sendNxt == c.sendNxt && d.rtx == c.rtx && d.timeWaits == c.timeWaits
    && d.sendUna == (if t.flags.ack && c.state != FinWait2 then t.ackNo else c.sendUna)
    && d.recvNxt == (if InOrder(c, t) then ToUint32(c.recvNxt + |t.payload|) else c.recvNxt)
    && d.wire == c.wire + (if InOrder(c, t) then [Ack(c.sendNxt, d.recvNxt)] else [])
    && d.socket == (if InOrder(c, t) && c.socket.Socket? && !c.socket.ended
                    then c.socket.(received := c.socket.received + t.payload) else c.socket)
  }

  lemma TookBefore(c: Conn, t: Segment)
    requires c.state == Established
    ensures var c1 := AckUpdate(c, t);
            Took(c, t, if InOrder(c1, t) then OnData(TxAck(Consume(c1, t)), t.payload) else c1)
  {
    hide ToUint32;
    assert c.wire + [] == c.wire;
  }

  lemma TookAfter(c: Conn, t: Segment)
    requires c.state in {FinWait1, FinWait2}
    ensures var c1 := if c.state == FinWait1 then AckUpdate(c, t) else c;
            Took(c, t, if InOrder(c1, t) then TxAck(OnData(Consume(c1, t), t.payload)) else c1)
  {
    hide ToUint32;
    assert c.wire + [] == c.wire;
  }

  /** Payload alone. */
  lemma PayloadArrival(c: Conn, t: Segment, listening: bool, d: Conn)
    requires c.state in {Established, FinWait1, FinWait2} && !TakesFin(c, t) && !(c.state == Established && t.flags.rst)
    requires c.state == FinWait1 ==> !t.flags.ack
    requires Took(c, t, d)
    ensures Arrival(c, t, listening, d)
  {
    hide ToUint32, Ack;
    WireSum(c.wire, if Takes(c, t) then [Ack(c.sendNxt, Mid(c, t))] else [], [], []);
  }

  lemma WireSum(w: seq<Segment>, a: seq<Segment>, b: seq<Segment>, e: seq<Segment>)
    ensures w + (a + b + e + []) == w + a + b + e
    ensures a + [] + [] + [] == a
  {
  }

  /** Payload, then the FIN. */
  lemma FinArrival(c: Conn, t: Segment, listening: bool, c2: Conn, n: uint32, s: State, d: Conn)
    requires c.state in {Established, FinWait1, FinWait2} && TakesFin(c, t)
    requires s == if c.state == Established then CloseWait else if c.state == FinWait1 && !t.flags.ack then Closing else TimeWait
    requires Took(c, t, c2) && TookFin(c2, n, s, d.(timeWaits := c2.timeWaits, rtx := c2.rtx)) && n == PointAfter(c, t)
    requires d.timeWaits == (if s == TimeWait then c2.timeWaits + 1 else c2.timeWaits) && (s == Closing ==> d.rtx == c2.rtx)
    ensures Arrival(c, t, listening, d)
  {
    FinState(c, t, c2, n, s, d);
    FinWire(c, t, c2, n, s, d);
    FinSocket(c, t, listening, c2, n, s, d);
    hide StateAfter, WireAfter, SocketAfter, Ack, ToUint32, PointAfter;
  }

  lemma FinState(c: Conn, t: Segment, c2: Conn, n: uint32, s: State, d: Conn)
    requires c.state in {Established, FinWait1, FinWait2} && TakesFin(c, t)
    requires s == if c.state == Established then CloseWait else if c.state == FinWait1 && !t.flags.ack then Closing else TimeWait
    requires Took(c, t, c2) && TookFin(c2, n, s, d.(timeWaits := c2.timeWaits, rtx := c2.rtx))
    ensures StateAfter(c, t, d.state) && d.state in {CloseWait, LastAck, Closing, TimeWait} && (d.state == TimeWait <==> s == TimeWait)
    ensures AckAfter(c, t, d.sendUna) && (d.state == Closing <==> s == Closing)
  {
    hide ToUint32, Ack;
  }

  lemma FinWire(c: Conn, t: Segment, c2: Conn, n: uint32, s: State, d: Conn)
    requires c.state in {Established, FinWait1, FinWait2} && TakesFin(c, t) && (s == CloseWait <==> c.state == Established)
    requires Took(c, t, c2) && TookFin(c2, n, s, d.(timeWaits := c2.timeWaits, rtx := c2.rtx)) && n == PointAfter(c, t)
    ensures WireAfter(c, t, d.wire)
  {
    hide ToUint32, Ack;
    WireSum(c.wire, if Takes(c, t) then [Ack(c.sendNxt, Mid(c, t))] else [], [Ack(c.sendNxt, n)],
            if s == CloseWait && ClosesToo(c) then [Segment(c.sendNxt, n, NO_FLAGS.(fin := true, ack := true), WIN, [])] else []);
  }

  lemma FinSocket(c: Conn, t: Segment, listening: bool, c2: Conn, n: uint32, s: State, d: Conn)
    requires c.state in {Established, FinWait1, FinWait2} && TakesFin(c, t)
    requires Took(c, t, c2) && TookFin(c2, n, s, d.(timeWaits := c2.timeWaits, rtx := c2.rtx))
    ensures SocketAfter(c, t, listening, d.socket)
  {
    hide ToUint32, Ack;
  }

  lemma ResetArrival(c: Conn, t: Segment, listening: bool)
    requires c.state == Established && t.flags.rst
    ensures Arrival(c, t, listening, OnEstablished(c, t))
  {
    hide ToUint32, Ack;
    assert Replies(c, t) == [] && c.wire + [] == c.wire;
  }

  lemma EstablishedArrival(c: Conn, t: Segment, listening: bool)
    requires c.state == Established
    ensures Arrival(c, t, listening, OnEstablished(c, t))
  {
    hide ToUint32, RecvFin, OnData, TxAck, Consume, Arrival, TookFin;
    if t.flags.rst {
      ResetArrival(c, t, listening);
    } else {
      TookBefore(c, t);
      var c1 := AckUpdate(c, t);
      var c2 := if InOrder(c1, t) then OnData(TxAck(Consume(c1, t)), t.payload) else c1;
      var n := ToUint32(c2.recvNxt + 1);
      RecvFinIs(c2, n, CloseWait);
      var d := RecvFin(c2, n, CloseWait);
      if t.flags.fin {
        FinRelabel(c2, n, CloseWait, d);
        FinKeepsTimers(c2, n, CloseWait, d);
        FinArrival(c, t, listening, c2, n, CloseWait, d);
      } else {
        PayloadArrival(c, t, listening, c2);
      }
    }
  }

  lemma FinRelabel(c: Conn, n: uint32, s: State, d: Conn)
    requires TookFin(c, n, s, d)
    ensures TookFin(c, n, s, d.(timeWaits := c.timeWaits, rtx := c.rtx))
  {
  }

  lemma FinKeepsTimers(c: Conn, n: uint32, s: State, d: Conn)
    requires TookFin(c, n, s, d)
    ensures d.timeWaits == c.timeWaits && (s != CloseWait ==> d.rtx == c.rtx)
  {
  }

  lemma FinWait1Arrival(c: Conn, t: Segment, listening: bool)
    requires c.state == FinWait1
    ensures Arrival(c, t, listening, OnFinWait1(c, t))
  {
    hide ToUint32, RecvFin, OnData, TxAck, Consume, Arrival, TookFin;
    TookAfter(c, t);
    var c1 := AckUpdate(c, t);
    var c2 := if InOrder(c1, t) then TxAck(OnData(Consume(c1, t), t.payload)) else c1;
    var n := ToUint32(c2.recvNxt + 1);
    if t.flags.fin {
      var s, c3 := if t.flags.ack then TimeWait else Closing, if t.flags.ack then ClearRtx(c2) else c2;
      RecvFinIs(c3, n, s);
      var d := RecvFin(c3, n, s);
      FinRelabel(c3, n, s, d);
      FinKeepsTimers(c3, n, s, d);
      FinClear(c2, c3, n, s, d);
      FinArrival(c, t, listening, c2, n, s, OnFinWait1(c, t));
    } else if t.flags.ack {
      AckArrival(c, t, listening, c2);
    } else {
      PayloadArrival(c, t, listening, c2);
    }
  }

  lemma FinClear(c: Conn, c1: Conn, n: uint32, s: State, d: Conn)
    requires (c1 == c || c1 == ClearRtx(c)) && TookFin(c1, n, s, d)
    ensures TookFin(c, n, s, d.(timeWaits := c.timeWaits, rtx := c.rtx))
  {
  }

  /** An ACK without a FIN in FIN_WAIT1. */
  lemma AckArrival(c: Conn, t: Segment, listening: bool, c2: Conn)
    requires c.state == FinWait1 && t.flags.ack && !t.flags.fin && Took(c, t, c2)
    ensures Arrival(c, t, listening, ClearRtx(c2).(state := FinWait2))
  {
    hide ToUint32, Ack;
    WireSum(c.wire, if Takes(c, t) then [Ack(c.sendNxt, Mid(c, t))] else [], [], []);
  }

  lemma FinWait2Arrival(c: Conn, t: Segment, listening: bool)
    requires c.state == FinWait2
    ensures Arrival(c, t, listening, OnFinWait2(c, t))
  {
    hide ToUint32, RecvFin, OnData, TxAck, Consume, Arrival, TookFin;
    TookAfter(c, t);
    var c2 := if InOrder(c, t) then TxAck(OnData(Consume(c, t), t.payload)) else c;
    if t.flags.fin {
      var n := ToUint32(t.seqNo + |t.payload| + 1);
      RecvFinIs(c2, n, TimeWait);
      var d := RecvFin(c2, n, TimeWait);
      FinRelabel(c2, n, TimeWait, d);
      FinKeepsTimers(c2, n, TimeWait, d);
      FinArrival(c, t, listening, c2, n, TimeWait, StartTimeWait(d));
    } else {
      PayloadArrival(c, t, listening, c2);
    }
  }

  lemma SynSentArrival(c: Conn, t: Segment, listening: bool)
    requires c.state == SynSent
    ensures Arrival(c, t, listening, OnSynSent(c, t))
  {
    if Connects(c, t) {
      ConnectArrival(c, t, listening);
    } else {
      hide ToUint32, Flush, Ack;
      assert Replies(c, t) == [] && c.wire + [] == c.wire;
    }
  }

  lemma ConnectArrival(c: Conn, t: Segment, listening: bool)
    requires Connects(c, t)
    ensures Arrival(c, t, listening, OnSynSent(c, t))
  {
    hide ToUint32, Flush;
    var c1 := c.(recvNxt := ToUint32(t.seqNo + 1), sendUna := t.ackNo, state := Established);
    FlushKeeps(OnConnect(TxAck(ClearRtx(c1))));
  }

  lemma {:induction false} FlushKeeps(c: Conn)
    ensures var d := Flush(c);
            d == c.(sendNxt := d.sendNxt, wire := d.wire, sendBuf := d.sendBuf) && c.wire <= d.wire
    decreases |c.sendBuf|
  {
    if c.sendBuf != [] && c.state == Established {
      var c1 := c.(sendBuf := c.sendBuf[1..]);
      ChunksKeep(c1, c.sendBuf[0]);
      FlushKeeps(TxData(c1, c.sendBuf[0]));
    }
  }

  lemma {:induction false} ChunksKeep(c: Conn, data: seq<byte>)
    ensures var d := TxChunks(c, data); d == c.(sendNxt := d.sendNxt, wire := d.wire) && c.wire <= d.wire
    decreases |data|
  {
    if data != [] {
      var k := if |data| < MSS then |data| else MSS;
      var seg := Outgoing(c, NO_FLAGS.(ack := true, psh := |data| <= MSS), WIN, data[..k]);
      ChunksKeep(TxSeg(c.(sendNxt := ToUint32(c.sendNxt + k)), seg), data[k..]);
    }
  }

  lemma OtherWire(c: Conn, t: Segment, listening: bool)
    requires c.state !in {SynSent, Established, FinWait1, FinWait2, Listen}
    ensures WireAfter(c, t, HandleSeg(c, t, listening).wire)
  {
    hide ToUint32, OnSynSent, OnEstablished, OnFinWait1, OnFinWait2;
    assert Replies(c, t) == if c.state == TimeWait && t.flags.fin then [Ack(c.sendNxt, c.recvNxt)] else [];
    hide Replies;
    assert c.wire + [] == c.wire;
  }

  lemma OtherArrival(c: Conn, t: Segment, listening: bool)
    requires c.state !in {SynSent, Established, FinWait1, FinWait2, Listen} && (c.state == SynRcvd ==> c.socket == NoSocket)
    ensures Arrival(c, t, listening, HandleSeg(c, t, listening))
  {
    hide ToUint32, OnSynSent, OnEstablished, OnFinWait1, OnFinWait2, WireAfter;
    OtherWire(c, t, listening);
  }

  /** Every arrival, in every state a connection can be in, is as said above. */
  lemma ArrivalIs(c: Conn, t: Segment, listening: bool)
    requires Inv(c)
    ensures Arrival(c, t, listening, HandleSeg(c, t, listening))
  {
    hide Arrival, OnSynSent, OnEstablished, OnFinWait1, OnFinWait2, ToUint32, CountSyn, CountFin, Pow2;
    match c.state
    case SynSent => SynSentArrival(c, t, listening);
    case Established => EstablishedArrival(c, t, listening);
    case FinWait1 => FinWait1Arrival(c, t, listening);
    case FinWait2 => FinWait2Arrival(c, t, listening);
    case _ => OtherArrival(c, t, listening);
  }

  /** A reset that is obeyed ends everything at once, without an answer; a socket is told of an error, nothing else. */
  lemma ResetObeyed(c: Conn, t: Segment, listening: bool)
    requires Inv(c) && ResetBy(c, t)
    ensures var d := HandleSeg(c, t, listening);
            && d.state == Closed && !d.registered && d.rtx.timer == Idle && d.wire == c.wire
            && d.socket == (if c.socket.Socket? then c.socket.(errors := c.socket.errors + 1) else NoSocket)
  {
    hide HandleSeg, CountSyn, CountFin, Pow2, ToUint32;
    ArrivalIs(c, t, listening);
    ArriveStep(c, t, listening);
    assert Replies(c, t) == [] && c.wire + [] == c.wire;
    assert c.state == SynRcvd ==> c.socket == NoSocket;
  }

  /** Whether a segment with the reset flag closes a connection: only some states look at the flag. */
  lemma ResetClosesIff(c: Conn, t: Segment, listening: bool)
    requires Inv(c) && c.state != Closed && t.flags.rst
    ensures HandleSeg(c, t, listening).state == Closed <==>
            match c.state
            case Established => true
            case SynSent => !(t.flags.syn && t.flags.ack && t.ackNo == c.sendNxt)
            case SynRcvd => !t.flags.ack
            case LastAck => t.flags.ack
            case _ => false
  {
    hide HandleSeg, CountSyn, CountFin, Pow2;
    ArrivalIs(c, t, listening);
  }
}
