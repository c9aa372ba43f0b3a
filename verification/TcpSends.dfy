/** What one step of a connection puts on the wire, and where it leaves the receive point. */
module TcpSends {
  import opened Words
  import opened TcpModel
  import opened TcpLifecycle
  import opened TcpDelivery

  /** The states after the own FIN has been sent, CLOSED aside. */
  predicate HasClosed(s: State) {
    s in {FinWait1, FinWait2, Closing, TimeWait, LastAck}
  }

  /** The states in which bytes are accepted. */
  predicate Open(s: State) {
    s in {SynSent, SynRcvd, Established}
  }

  /** A segment that acknowledges; a reset may carry the number of something never taken. */
  predicate Acks(s: Segment) {
    s.flags.ack && !s.flags.rst
  }

  /** A segment that is new in a step from `c` to `d`. */
  predicate New(c: Conn, d: Conn, mid: uint32, s: Segment) {
    && (Acks(s) ==> d.state !in {SynSent, SynRcvd, Closed} && (s.ackNo == mid || s.ackNo == d.recvNxt))
    && (s.flags.fin ==>
          && s == Segment(c.sendNxt, d.recvNxt, NO_FLAGS.(fin := true, ack := true), WIN, [])
          && c.state in {Established, CloseWait} && HasClosed(d.state))
  }

  /**
   * From `c` to `d` only new segments and the guarded one went out. `mid` is
   * the receive point between taking the payload and taking the FIN.
   */
  ghost predicate Sends(c: Conn, d: Conn, mid: uint32) {
    && (forall s :: s in d.wire ==> s in c.wire || c.rtx.seg == Some(s) || New(c, d, mid, s))
    && (d.rtx.seg.Some? ==> d.rtx.seg == c.rtx.seg || New(c, d, mid, d.rtx.seg.value))
    && (HasClosed(d.state) ==>
          if HasClosed(c.state) then d.sendNxt == c.sendNxt
          else c.state in {Established, CloseWait} && d.sendNxt == ToUint32(c.sendNxt + 1))
    && ((Open(c.state) && Open(d.state)) || (d.sendBuf == c.sendBuf && d.book.accepted == c.book.accepted))
    && (Open(d.state) ==> Open(c.state)) && (d.state == CloseWait ==> c.state in {Established, CloseWait})
  }

  lemma {:induction false} ChunkAcks(c: Conn, data: seq<byte>)
    ensures var d := TxChunks(c, data);
            && d == c.(sendNxt := d.sendNxt, wire := d.wire)
            && forall s :: s in d.wire ==> s in c.wire || (s.ackNo == c.recvNxt && !s.flags.fin)
    decreases |data|
  {
    if data != [] {
      var k := if |data| < MSS then |data| else MSS;
      var seg := Outgoing(c, NO_FLAGS.(ack := true, psh := |data| <= MSS), WIN, data[..k]);
      ChunkAcks(TxSeg(c.(sendNxt := ToUint32(c.sendNxt + k)), seg), data[k..]);
    }
  }

  lemma {:induction false} FlushAcks(c: Conn)
    ensures var d := Flush(c);
            && d == c.(sendNxt := d.sendNxt, wire := d.wire, sendBuf := d.sendBuf)
            && forall s :: s in d.wire ==> s in c.wire || (s.ackNo == c.recvNxt && !s.flags.fin)
    decreases |c.sendBuf|
  {
    if c.sendBuf != [] && c.state == Established {
      var c1 := c.(sendBuf := c.sendBuf[1..]);
      ChunkAcks(c1, c.sendBuf[0]);
      FlushAcks(TxData(c1, c.sendBuf[0]));
    }
  }

  /** The receive point after the payload of `t`, before its FIN. */
  function Mid(c: Conn, t: Segment): uint32 {
    if Takes(c, t) then ToUint32(c.recvNxt + |t.payload|) else c.recvNxt
  }

  lemma SynSentSends(c: Conn, t: Segment)
    requires c.state == SynSent
    ensures Sends(c, OnSynSent(c, t), OnSynSent(c, t).recvNxt)
    ensures !t.flags.syn ==> OnSynSent(c, t).state in {SynSent, Closed}
  {
    hide Flush, ToUint32;
    if t.flags.syn && t.flags.ack && t.ackNo == c.sendNxt {
      var c1 := c.(recvNxt := ToUint32(t.seqNo + 1), sendUna := t.ackNo, state := Established);
      FlushAcks(OnConnect(TxAck(ClearRtx(c1))));
    }
  }

  /** From `c` to `d` payload was taken: the window moved to `mid` and at most an acknowledgement of it went out. */
  ghost predicate TookPayload(c: Conn, d: Conn, mid: uint32) {
    && d.state == c.state && d.sendNxt == c.sendNxt && d.sendBuf == c.sendBuf && d.rtx == c.rtx
    && d.book.accepted == c.book.accepted && d.recvNxt == mid
    && forall s :: s in d.wire ==> s in c.wire || (s.ackNo == mid && s.flags == NO_FLAGS.(ack := true))
  }

  lemma PayloadBefore(c: Conn, t: Segment)
    ensures var c1 := AckUpdate(c, t);
            TookPayload(c, if InOrder(c1, t) then OnData(TxAck(Consume(c1, t)), t.payload) else c1,
                        if InOrder(c, t) then ToUint32(c.recvNxt + |t.payload|) else c.recvNxt)
  {
    hide ToUint32;
  }

  lemma PayloadAfter(c: Conn, t: Segment)
    ensures var c1 := AckUpdate(c, t);
            TookPayload(c, if InOrder(c1, t) then TxAck(OnData(Consume(c1, t), t.payload)) else c1,
                        if InOrder(c, t) then ToUint32(c.recvNxt + |t.payload|) else c.recvNxt)
    ensures TookPayload(c, if InOrder(c, t) then TxAck(OnData(Consume(c, t), t.payload)) else c,
                        if InOrder(c, t) then ToUint32(c.recvNxt + |t.payload|) else c.recvNxt)
  {
    hide ToUint32;
  }

  /** Taking a FIN acknowledges it, and may send the own FIN. */
  lemma FinSends(c: Conn, nextRecv: uint32, s: State)
    requires (c.state == Established && s == CloseWait) || (c.state in {FinWait1, FinWait2} && s in {TimeWait, Closing})
    ensures Sends(c, RecvFin(c, nextRecv, s), nextRecv) && RecvFin(c, nextRecv, s).recvNxt == nextRecv
  {
    hide ToUint32;
  }

  /** Whatever goes out after the payload was taken goes out in the step. */
  lemma SendsAfterPayload(c: Conn, c1: Conn, d: Conn, mid: uint32)
    requires TookPayload(c, c1, mid) && Sends(c1, d, d.recvNxt) && d.state !in {SynSent, SynRcvd, Closed}
    ensures Sends(c, d, mid)
  {
  }

  lemma EstablishedSends(c: Conn, t: Segment)
    requires c.state == Established
    ensures Sends(c, OnEstablished(c, t), Mid(c, t))
  {
    hide ToUint32, RecvFin, OnData, TxAck, Consume, Sends, TookPayload;
    if t.flags.rst {
      ResetSends(c, t);
    } else {
      PayloadBefore(c, t);
      var c1 := AckUpdate(c, t);
      var c2 := if InOrder(c1, t) then OnData(TxAck(Consume(c1, t)), t.payload) else c1;
      PayloadKeeps(c, c2, Mid(c, t));
      if t.flags.fin {
        FinSends(c2, ToUint32(c2.recvNxt + 1), CloseWait);
        RecvFinState(c2, ToUint32(c2.recvNxt + 1), CloseWait);
        SendsAfterPayload(c, c2, RecvFin(c2, ToUint32(c2.recvNxt + 1), CloseWait), Mid(c, t));
      } else {
        PayloadSends(c, c2, Mid(c, t));
      }
    }
  }

  lemma ResetSends(c: Conn, t: Segment)
    requires c.state == Established && t.flags.rst
    ensures Sends(c, OnEstablished(c, t), Mid(c, t))
  {
  }

  lemma PayloadKeeps(c: Conn, d: Conn, mid: uint32)
    requires TookPayload(c, d, mid)
    ensures d.state == c.state && d.recvNxt == mid && d.rtx == c.rtx
  {
  }

  lemma PayloadSends(c: Conn, d: Conn, mid: uint32)
    requires TookPayload(c, d, mid) && c.state in {Established, FinWait1, FinWait2}
    ensures Sends(c, d, mid)
  {
  }

  lemma RecvFinState(c: Conn, nextRecv: uint32, s: State)
    requires s in {CloseWait, TimeWait, Closing}
    ensures RecvFin(c, nextRecv, s).state == s || (s == CloseWait && RecvFin(c, nextRecv, s).state == LastAck)
  {
  }

  /** Clearing the timer, counting a TIME_WAIT timer and waiting on send nothing. */
  lemma SendsRelabel(c: Conn, c1: Conn, d1: Conn, d: Conn, mid: uint32)
    requires Sends(c1, d1, mid) && c1 == c.(rtx := c1.rtx) && (c1.rtx.seg == c.rtx.seg || c1.rtx.seg == None)
    requires d == d1.(timeWaits := d.timeWaits)
    ensures Sends(c, d, mid)
  {
  }

  lemma FlagsSend(c: Conn, t: Segment)
    requires c.state == FinWait1
    ensures var d := FinWait1Flags(c, t); Sends(c, d, d.recvNxt) && d.state !in {SynSent, SynRcvd, Closed}
  {
    hide ToUint32, RecvFin, Sends;
    var next := ToUint32(c.recvNxt + 1);
    if t.flags.fin && t.flags.ack {
      FinSends(ClearRtx(c), next, TimeWait);
      RecvFinState(ClearRtx(c), next, TimeWait);
      SendsRelabel(c, ClearRtx(c), RecvFin(ClearRtx(c), next, TimeWait), FinWait1Flags(c, t), next);
    } else if t.flags.fin {
      FinSends(c, next, Closing);
      RecvFinState(c, next, Closing);
    } else {
      NoFinSends(c, t);
    }
  }

  lemma NoFinSends(c: Conn, t: Segment)
    requires c.state == FinWait1 && !t.flags.fin
    ensures var d := FinWait1Flags(c, t); Sends(c, d, d.recvNxt)
  {
  }

  lemma FinWait1Sends(c: Conn, t: Segment)
    requires c.state == FinWait1
    ensures Sends(c, OnFinWait1(c, t), Mid(c, t))
  {
    hide ToUint32, FinWait1Flags, OnData, TxAck, Consume, Sends, TookPayload;
    PayloadAfter(c, t);
    var c1 := AckUpdate(c, t);
    var c2 := if InOrder(c1, t) then TxAck(OnData(Consume(c1, t), t.payload)) else c1;
    PayloadKeeps(c, c2, Mid(c, t));
    FlagsSend(c2, t);
    SendsAfterPayload(c, c2, FinWait1Flags(c2, t), Mid(c, t));
  }

  lemma FinWait2Sends(c: Conn, t: Segment)
    requires c.state == FinWait2
    ensures Sends(c, OnFinWait2(c, t), Mid(c, t))
  {
    hide ToUint32, RecvFin, OnData, TxAck, Consume, Sends, TookPayload;
    PayloadAfter(c, t);
    var c2 := if InOrder(c, t) then TxAck(OnData(Consume(c, t), t.payload)) else c;
    PayloadKeeps(c, c2, Mid(c, t));
    if t.flags.fin {
      var next := ToUint32(t.seqNo + |t.payload| + 1);
      FinSends(c2, next, TimeWait);
      RecvFinState(c2, next, TimeWait);
      SendsAfterPayload(c, c2, RecvFin(c2, next, TimeWait), Mid(c, t));
      SendsRelabel(c, c, RecvFin(c2, next, TimeWait), OnFinWait2(c, t), Mid(c, t));
    } else {
      PayloadSends(c, c2, Mid(c, t));
    }
  }

  lemma ArrivalSends(c: Conn, t: Segment, listening: bool)
    ensures var d := HandleSeg(c, t, listening);
            Sends(c, d, if c.state == SynSent then d.recvNxt else Mid(c, t))
  {
    hide OnSynSent, OnEstablished, OnFinWait1, OnFinWait2;
    match c.state
    case SynSent => SynSentSends(c, t);
    case Established => EstablishedSends(c, t);
    case FinWait1 => FinWait1Sends(c, t);
    case FinWait2 => FinWait2Sends(c, t);
    case _ =>
  }

  lemma LocalSends(c: Conn, e: Event)
    requires Inv(c) && Enabled(c, e) && !e.Arrive?
    ensures Sends(c, Step(c, e), Step(c, e).recvNxt) && Step(c, e).recvNxt == c.recvNxt
  {
    hide ToUint32, CountSyn, CountFin, Pow2;
    match e
    case UserWrite(data) => ChunkAcks(c.(book := c.book.(accepted := c.book.accepted + data)), data);
    case _ =>
  }

  /** Where an arrival leaves the receive point. */
  function PointAfter(c: Conn, t: Segment): uint32 {
    if !TakesFin(c, t) then Mid(c, t)
    else if c.state == FinWait2 then ToUint32(t.seqNo + |t.payload| + 1)
    else ToUint32(Mid(c, t) + 1)
  }

  lemma EstablishedPoint(c: Conn, t: Segment)
    requires c.state == Established
    ensures OnEstablished(c, t).recvNxt == PointAfter(c, t)
  {
    hide ToUint32, RecvFin, OnData, TxAck, Consume, Sends, TookPayload;
    if !t.flags.rst {
      PayloadBefore(c, t);
      var c1 := AckUpdate(c, t);
      var c2 := if InOrder(c1, t) then OnData(TxAck(Consume(c1, t)), t.payload) else c1;
      PayloadKeeps(c, c2, Mid(c, t));
      FinSends(c2, ToUint32(c2.recvNxt + 1), CloseWait);
    } else {
      ResetPoint(c, t);
    }
  }

  lemma ResetPoint(c: Conn, t: Segment)
    requires c.state == Established && t.flags.rst
    ensures OnEstablished(c, t).recvNxt == c.recvNxt
  {
  }

  lemma FinWait1Point(c: Conn, t: Segment)
    requires c.state == FinWait1
    ensures OnFinWait1(c, t).recvNxt == PointAfter(c, t)
  {
    hide ToUint32, RecvFin, OnData, TxAck, Consume, Sends, TookPayload;
    PayloadAfter(c, t);
    var c1 := AckUpdate(c, t);
    var c2 := if InOrder(c1, t) then TxAck(OnData(Consume(c1, t), t.payload)) else c1;
    PayloadKeeps(c, c2, Mid(c, t));
    FinSends(ClearRtx(c2), ToUint32(c2.recvNxt + 1), TimeWait);
    FinSends(c2, ToUint32(c2.recvNxt + 1), Closing);
  }

  lemma FinWait2Point(c: Conn, t: Segment)
    requires c.state == FinWait2
    ensures OnFinWait2(c, t).recvNxt == PointAfter(c, t)
  {
    hide ToUint32, RecvFin, OnData, TxAck, Consume, Sends, TookPayload;
    PayloadAfter(c, t);
    var c2 := if InOrder(c, t) then TxAck(OnData(Consume(c, t), t.payload)) else c;
    PayloadKeeps(c, c2, Mid(c, t));
    FinSends(c2, ToUint32(t.seqNo + |t.payload| + 1), TimeWait);
  }

  lemma RecvPoint(c: Conn, t: Segment, listening: bool)
    requires c.state != SynSent
    ensures HandleSeg(c, t, listening).recvNxt == PointAfter(c, t)
  {
    hide ToUint32, OnSynSent, OnEstablished, OnFinWait1, OnFinWait2;
    match c.state
    case Established => EstablishedPoint(c, t);
    case FinWait1 => FinWait1Point(c, t);
    case FinWait2 => FinWait2Point(c, t);
    case _ =>
  }
}
