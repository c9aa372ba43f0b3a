/**
 * The connection object. What the stack, the socket and the timers call keeps
 * the object valid and says what that means for the byte streams; each method
 * moreover does exactly what its transition function says.
 */
module TcpConnection {
  import opened Words
  import opened TcpModel
  import opened TcpLifecycle
  import opened TcpDelivery
  import opened TcpArrival

  class TcpConn {
    var state: State
    var sendNxt: uint32
    var sendUna: uint32
    var recvNxt: uint32
    var sendBuf: seq<seq<byte>>
    var socket: Socket
    var rtxTimer: Timer
    var rtxCount: nat
    var rtxSeg: Option<Segment>
    var timeWaits: nat
    var registered: bool
    var wire: seq<Segment>
    ghost var isn: uint32
    ghost var accepted: seq<byte>
    ghost var consumed: seq<byte>
    ghost var finTaken: bool
    ghost var waited: nat

    ghost function View(): Conn
      reads this
    {
      Conn(state, sendNxt, sendUna, recvNxt, sendBuf, socket,
           Rtx(rtxTimer, rtxCount, rtxSeg, waited), timeWaits, registered, wire,
           Book(isn, accepted, consumed, finTaken))
    }

    /** What holds of an opened connection between calls. */
    ghost predicate Valid()
      reads this
    {
      Good(View())
    }

    constructor (s: Socket)
      ensures View() == Fresh(s)
    {
      state := Closed;
      sendNxt, sendUna, recvNxt := 0, 0, 0;
      sendBuf, socket := [], s;
      rtxTimer, rtxCount, rtxSeg := Idle, 0, None;
      timeWaits, registered, wire := 0, true, [];
      isn, accepted, consumed, finTaken, waited := 0, [], [], false, 0;
    }

    // ---------- sending ----------

    method TransmitSeg(seg: Segment)
      modifies this`wire
      ensures View() == TxSeg(old(View()), seg)
    {
      wire := wire + [seg];
    }

    method CancelRtx()
      modifies this`rtxTimer, this`rtxSeg, this`rtxCount
      ensures View() == ClearRtx(old(View()))
    {
      rtxTimer := Idle;
      rtxSeg := None;
      rtxCount := 0;
    }

    method ArmRtx(seg: Segment)
      modifies this`rtxTimer, this`rtxSeg, this`rtxCount, this`waited
      ensures View() == StartRtx(old(View()), seg)
    {
      CancelRtx();
      rtxSeg := Some(seg);
      rtxCount := 0;
      rtxTimer := Armed(1000);
      waited := 0;
    }

    method Unregister()
      modifies this
      ensures View() == Cleanup(old(View()))
    {
      CancelRtx();
      registered := false;
    }

    method TransmitAck()
      modifies this`wire
      ensures View() == TxAck(old(View()))
    {
      TransmitSeg(Segment(sendNxt, recvNxt, NO_FLAGS.(ack := true), WIN, []));
    }

    /** The common end of the three sends that the timer guards: SYN, SYN+ACK and FIN. */
    method TransmitGuarded(seg: Segment)
      modifies this
      ensures View() == TxGuarded(old(View()), seg)
    {
      sendNxt := ToUint32(sendNxt + 1);
      TransmitSeg(seg);
      ArmRtx(seg);
    }

    method TransmitFin()
      modifies this
      ensures View() == TxFin(old(View()))
    {
      TransmitGuarded(Segment(sendNxt, recvNxt, NO_FLAGS.(fin := true, ack := true), WIN, []));
    }

    method TransmitRst()
      modifies this
      ensures View() == SendRst(old(View()))
    {
      TransmitSeg(Segment(sendNxt, recvNxt, NO_FLAGS.(rst := true, ack := true), 0, []));
      state := Closed;
      Unregister();
    }

    method TransmitSyn(chosen: uint32)
      modifies this
      ensures View() == SendSyn(old(View()), chosen)
    {
      hide TxGuarded;
      sendNxt := chosen;
      isn := chosen;
      sendUna := sendNxt;
      ghost var c := old(View());
      assert View() == c.(sendNxt := chosen, sendUna := chosen, book := c.book.(isn := chosen));
      TransmitGuarded(Segment(sendNxt, 0, NO_FLAGS.(syn := true), WIN, []));
      state := SynSent;
    }

    method OpenActive(chosen: uint32)
      requires socket.Socket? && View() == Fresh(Socket(socket.allowHalfOpen, false, [], false, 0))
      modifies this
      ensures Valid()
      ensures View() == ActiveOpen(old(socket.allowHalfOpen), chosen)
      ensures wire == [Segment(chosen, 0, NO_FLAGS.(syn := true), WIN, [])] && rtxTimer == Armed(1000)
      ensures state == SynSent && sendUna == chosen && sendNxt == ToUint32(chosen + 1) && socket == old(socket) && registered
    {
      hide Good;
      TransmitSyn(chosen);
      OpenGood(old(socket.allowHalfOpen), chosen);
    }

    method TransmitSynAck()
      modifies this
      ensures View() == SendSynAck(old(View()))
    {
      TransmitGuarded(Segment(sendNxt, recvNxt, NO_FLAGS.(syn := true, ack := true), WIN, []));
    }

    method TakeSyn(t: Segment, chosen: uint32)
      modifies this
      ensures View() == old(View()).(state := SynRcvd, recvNxt := ToUint32(t.seqNo + 1), sendNxt := chosen, sendUna := chosen,
                                     book := old(View()).book.(isn := chosen))
    {
      hide ToUint32;
      state := SynRcvd;
      recvNxt := ToUint32(t.seqNo + 1);
      sendNxt := chosen;
      isn := chosen;
      sendUna := sendNxt;
    }

    /** What the stack does with a new connection for a SYN to a listening port. */
    method OpenPassive(t: Segment, chosen: uint32)
      requires View() == Fresh(NoSocket)
      modifies this
      ensures Valid()
      ensures state == SynRcvd && recvNxt == ToUint32(t.seqNo + 1) && sendUna == chosen && sendNxt == ToUint32(chosen + 1)
      ensures wire == [Segment(chosen, ToUint32(t.seqNo + 1), NO_FLAGS.(syn := true, ack := true), WIN, [])] && rtxTimer == Armed(1000)
      ensures socket == NoSocket && sendBuf == [] && registered
      ensures View() == PassiveOpen(t, chosen)
    {
      hide SendSynAck, Good, ToUint32;
      PassiveFields(t, chosen);
      TakeSyn(t, chosen);
      TransmitSynAck();
      AcceptGood(t, chosen);
    }

    method TransmitData(data: seq<byte>)
      modifies this`sendNxt, this`wire
      ensures View() == TxData(old(View()), data)
    {
      if state == Established {
        TransmitChunks(data);
      }
    }

    method TransmitChunks(data: seq<byte>)
      modifies this`sendNxt, this`wire
      ensures View() == TxChunks(old(View()), data)
      ensures old(wire) <= wire && AreChunks(data, wire[|old(wire)|..])
    {
      hide TxSeg, Outgoing, AreChunks;
      ChunksAre(View(), data);
      ghost var goal := TxChunks(View(), data);
      assert data[0..] == data;
      var off := 0;
      while off < |data|
        invariant 0 <= off
        invariant TxChunks(View(), if off <= |data| then data[off..] else []) == goal
      {
        var end := if off + MSS < |data| then off + MSS else |data|;
        var chunk := data[off..end];
        assert chunk == data[off..][..end - off] && data[off..][end - off..] == data[end..];
        TransmitChunk(chunk, off + MSS >= |data|);
        off := off + MSS;
      }
    }

    method TransmitChunk(chunk: seq<byte>, last: bool)
      modifies this`sendNxt, this`wire
      ensures var c := old(View());
              View() == TxSeg(c.(sendNxt := ToUint32(c.sendNxt + |chunk|)),
                              Outgoing(c, NO_FLAGS.(ack := true, psh := last), WIN, chunk))
    {
      var seg := Segment(sendNxt, recvNxt, NO_FLAGS.(ack := true, psh := last), WIN, chunk);
      sendNxt := ToUint32(sendNxt + |chunk|);
      TransmitSeg(seg);
    }

    method FlushBuffer()
      modifies this`sendNxt, this`wire, this`sendBuf
      ensures View() == Flush(old(View()))
    {
      ghost var goal := Flush(View());
      while sendBuf != [] && state == Established
        invariant Flush(View()) == goal
        decreases |sendBuf|
      {
        var data := sendBuf[0];
        sendBuf := sendBuf[1..];
        TransmitData(data);
      }
    }

    // ---------- the socket's callbacks ----------

    method NotifyConnect()
      modifies this`socket
      ensures View() == OnConnect(old(View()))
    {
      if socket.Socket? {
        socket := socket.(connected := true);
      }
    }

    method NotifyError()
      modifies this`socket
      ensures View() == OnError(old(View()))
    {
      if socket.Socket? {
        socket := socket.(errors := socket.errors + 1);
      }
    }

    method NotifyData(payload: seq<byte>)
      modifies this`socket
      ensures View() == OnData(old(View()), payload)
    {
      if socket.Socket? && !socket.ended {
        socket := socket.(received := socket.received + payload);
      }
    }

    method NotifyEnd()
      modifies this
      ensures View() == OnEnd(old(View()))
    {
      if socket.Socket? && !socket.ended {
        socket := socket.(ended := true);
        if !socket.allowHalfOpen {
          CloseSide();
        }
      }
    }

    // ---------- user calls ----------

    /** What is accepted is on the wire or buffered, in order; in ESTABLISHED it is all on the wire. */
    method WriteData(data: seq<byte>) returns (ok: bool)
      requires Valid() && socket.Socket?
      modifies this
      ensures Valid() && old(wire) <= wire && state == old(state)
      ensures ok <==> old(state) in {Established, SynSent, SynRcvd}
      ensures accepted == (if ok then old(accepted) + data else old(accepted))
      ensures Payloads(wire) + Concat(sendBuf) == accepted
      ensures state == Established ==> sendBuf == []
      ensures socket == old(socket) && consumed == old(consumed)
      ensures View() == Write(old(View()), data)
    {
      ok := TakeData(data);
      WriteGood(old(View()), data);
    }

    method TakeData(data: seq<byte>) returns (ok: bool)
      modifies this
      ensures ok <==> Writable(old(View()))
      ensures View() == Write(old(View()), data)
    {
      if state == Established {
        accepted := accepted + data;
        TransmitData(data);
        return true;
      } else if state == SynSent || state == SynRcvd {
        accepted := accepted + data;
        sendBuf := sendBuf + [data];
        return true;
      }
      return false;
    }

    /** A FIN goes out, with the number after all the bytes accepted, exactly if one can still be sent. */
    method CloseConn()
      requires Valid()
      modifies this
      ensures Valid() && accepted == old(accepted) && socket == old(socket)
      ensures old(state) !in {Established, CloseWait} ==> wire == old(wire) && state == old(state)
      ensures old(state) in {Established, CloseWait} ==>
                && state == (if old(state) == Established then FinWait1 else LastAck) && rtxTimer == Armed(1000)
                && wire == old(wire) + [Segment(ToUint32(isn + 1 + |Payloads(wire)|), recvNxt, NO_FLAGS.(fin := true, ack := true), WIN, [])]
      ensures View() == Close(old(View()))
    {
      hide Good, Payloads, ToUint32;
      CloseSide();
      CloseGood(old(View()));
    }

    method CloseSide()
      modifies this
      ensures View() == Close(old(View()))
    {
      if state == Established {
        TransmitFin();
        state := FinWait1;
      } else if state == CloseWait {
        TransmitFin();
        state := LastAck;
      }
    }

    /** A reset goes out unless the connection is closed already; nothing happens after that. */
    method DestroyConn()
      requires Valid()
      modifies this
      ensures Valid() && state == Closed && !registered && rtxTimer == Idle
      ensures wire == old(wire) + if old(state) == Closed then []
                                  else [Segment(sendNxt, recvNxt, NO_FLAGS.(rst := true, ack := true), 0, [])]
      ensures accepted == old(accepted) && consumed == old(consumed) && socket == old(socket)
      ensures View() == Destroy(old(View()))
    {
      if state != Closed {
        TransmitRst();
      }
      DestroyGood(old(View()));
    }

    // ---------- timers ----------

    /** The SYN or FIN goes out again and the delay doubles, or, the sixth time, the connection is given up. */
    method RtxTimerFires()
      requires Valid() && rtxTimer.Armed?
      modifies this
      ensures Valid() && CountSyn(wire) <= 6 && CountFin(wire) <= 6
      ensures state == Closed <==> old(rtxCount) == 5
      ensures socket == if state == Closed && old(socket).Socket? then old(socket).(errors := old(socket).errors + 1) else old(socket)
      ensures if state == Closed then wire == old(wire) && !registered
              else wire == old(wire) + [old(rtxSeg.value)] && rtxTimer == Armed(2 * old(rtxTimer.delay)) && state == old(state)
      ensures View() == Retransmit(old(View()))
    {
      RetransmitGood(old(View()));
      Fire();
    }

    method Fire()
      modifies this
      ensures View() == Retransmit(old(View()))
    {
      hide Pow2;
      var elapsed := if rtxTimer.Armed? then rtxTimer.delay else 0;
      rtxTimer := Idle;
      if rtxCount >= MAX_RETRIES {
        GiveUp();
        return;
      }
      if rtxSeg.Some? {
        Resend(rtxSeg.value, elapsed);
      }
    }

    method GiveUp()
      modifies this
      ensures View() == Cleanup(OnError(old(View())).(state := Closed))
    {
      hide OnError, Cleanup;
      NotifyError();
      state := Closed;
      assert View() == OnError(old(View())).(state := Closed);
      Unregister();
    }

    method Resend(seg: Segment, elapsed: nat)
      requires rtxSeg == Some(seg)
      modifies this
      ensures var c := old(View());
              View() == TxSeg(c, seg).(rtx := Rtx(Armed(1000 * Pow2(c.rtx.count + 1)), c.rtx.count + 1, c.rtx.seg, c.rtx.waited + elapsed))
    {
      hide Pow2;
      TransmitSeg(seg);
      rtxCount := rtxCount + 1;
      rtxTimer := Armed(1000 * Pow2(rtxCount));
      waited := waited + elapsed;
    }

    method TimeWaitFires()
      requires Valid() && timeWaits > 0
      modifies this
      ensures Valid() && state == Closed && !registered && wire == old(wire)
      ensures View() == TimeWaitOver(old(View()))
    {
      hide Good;
      timeWaits := timeWaits - 1;
      state := Closed;
      Unregister();
      LocalGood(old(View()), Event.TimeWaitFires);
    }

    // ---------- segment arrival: one method for each branch with several steps ----------

    method InSynSent(t: Segment)
      requires state == SynSent
      modifies this
      ensures View() == OnSynSent(old(View()), t)
    {
      hide OnError, Cleanup, SendRst, TxAck, OnConnect, Flush, ClearRtx;
      if t.flags.syn && t.flags.ack {
        if t.ackNo != sendNxt {
          TransmitRst();
          return;
        }
        recvNxt := ToUint32(t.seqNo + 1);
        sendUna := t.ackNo;
        state := Established;
        ghost var c := old(View());
        assert View() == c.(recvNxt := recvNxt, sendUna := t.ackNo, state := Established);
        CancelRtx();
        TransmitAck();
        NotifyConnect();
        FlushBuffer();
      } else if t.flags.rst {
        state := Closed;
        assert View() == old(View()).(state := Closed);
        NotifyError();
        Unregister();
      }
    }

    method InSynRcvd(t: Segment, listening: bool)
      requires state == SynRcvd
      modifies this
      ensures View() == OnSynRcvd(old(View()), t, listening)
    {
      if t.flags.ack {
        sendUna := t.ackNo;
        state := Established;
        CancelRtx();
        if listening {
          socket := Socket(false, false, [], false, 0);
        }
      } else if t.flags.rst {
        state := Closed;
        Unregister();
      }
    }

    method ReceiveBeforeClose(t: Segment)
      modifies this
      ensures var c := old(View());
              View() == if InOrder(c, t) then OnData(TxAck(Consume(c, t)), t.payload) else c
    {
      if |t.payload| > 0 && t.seqNo == recvNxt {
        recvNxt := ToUint32(recvNxt + |t.payload|);
        consumed := consumed + t.payload;
        TransmitAck();
        NotifyData(t.payload);
      }
    }

    /** After a local close the data goes up before the acknowledgement goes out. */
    method ReceiveAfterClose(t: Segment)
      modifies this
      ensures var c := old(View());
              View() == if InOrder(c, t) then TxAck(OnData(Consume(c, t), t.payload)) else c
    {
      if |t.payload| > 0 && t.seqNo == recvNxt {
        recvNxt := ToUint32(recvNxt + |t.payload|);
        consumed := consumed + t.payload;
        NotifyData(t.payload);
        TransmitAck();
      }
    }

    method ReceiveFin(nextRecv: uint32, nextState: State)
      modifies this
      ensures View() == RecvFin(old(View()), nextRecv, nextState)
    {
      recvNxt := nextRecv;
      state := nextState;
      finTaken := true;
      TransmitAck();
      NotifyEnd();
    }

    method InEstablished(t: Segment)
      requires state == Established
      modifies this
      ensures View() == OnEstablished(old(View()), t)
    {
      hide OnError, Cleanup, OnData, TxAck, Consume, RecvFin, InOrder;
      if t.flags.rst {
        state := Closed;
        assert View() == old(View()).(state := Closed);
        NotifyError();
        Unregister();
        return;
      }
      if t.flags.ack {
        sendUna := t.ackNo;
      }
      assert View() == AckUpdate(old(View()), t);
      ReceiveBeforeClose(t);
      if t.flags.fin {
        ReceiveFin(ToUint32(recvNxt + 1), CloseWait);
      }
    }

    method InFinWait1(t: Segment)
      requires state == FinWait1
      modifies this
      ensures View() == OnFinWait1(old(View()), t)
    {
      if t.flags.ack {
        sendUna := t.ackNo;
      }
      assert View() == AckUpdate(old(View()), t);
      ReceiveAfterClose(t);
      FlagsInFinWait1(t);
    }

    method FlagsInFinWait1(t: Segment)
      modifies this
      ensures View() == FinWait1Flags(old(View()), t)
    {
      hide RecvFin;
      if t.flags.fin && t.flags.ack {
        CancelRtx();
        ReceiveFin(ToUint32(recvNxt + 1), TimeWait);
        timeWaits := timeWaits + 1;
      } else if t.flags.fin {
        ReceiveFin(ToUint32(recvNxt + 1), Closing);
      } else if t.flags.ack {
        CancelRtx();
        state := FinWait2;
      }
    }

    method InFinWait2(t: Segment)
      requires state == FinWait2
      modifies this
      ensures View() == OnFinWait2(old(View()), t)
    {
      hide OnData, TxAck, Consume, RecvFin, InOrder;
      ReceiveAfterClose(t);
      if t.flags.fin {
        ReceiveFin(ToUint32(t.seqNo + |t.payload| + 1), TimeWait);
        timeWaits := timeWaits + 1;
      }
    }

    method InTail(t: Segment)
      requires state !in {SynSent, SynRcvd, Established, FinWait1, FinWait2}
      modifies this
      ensures View() == HandleSeg(old(View()), t, false)
    {
      match state {
        case CloseWait =>
          if t.flags.ack {
            sendUna := t.ackNo;
          }
        case Closing =>
          if t.flags.ack {
            CancelRtx();
            state := TimeWait;
            timeWaits := timeWaits + 1;
          }
        case LastAck =>
          if t.flags.ack {
            CancelRtx();
            state := Closed;
            Unregister();
          }
        case TimeWait =>
          if t.flags.fin {
            TransmitAck();
          }
        case Closed =>
        case Listen =>
      }
    }

    method Dispatch(t: Segment, listening: bool)
      modifies this
      ensures View() == HandleSeg(old(View()), t, listening)
    {
      hide OnSynSent, OnSynRcvd, OnEstablished, OnFinWait1, OnFinWait2, TxAck;
      match state {
        case SynSent => InSynSent(t);
        case SynRcvd => InSynRcvd(t, listening);
        case Established => InEstablished(t);
        case FinWait1 => InFinWait1(t);
        case FinWait2 => InFinWait2(t);
        case _ => InTail(t);
      }
    }

    /**
     * Whatever arrives, in whatever state: nothing sent is forgotten, nothing
     * accepted is lost, and the socket is handed the payload exactly if it is
     * the next one and the connection still receives.
     */
    method HandleSegment(t: Segment, listening: bool)
      requires Valid()
      modifies this
      ensures Valid() && old(wire) <= wire && accepted == old(accepted) && isn == old(isn)
      ensures Payloads(wire) + Concat(sendBuf) == accepted
      ensures socket.Socket? ==> socket.received == consumed
      ensures consumed == if old(state) in {Established, FinWait1, FinWait2} && t.seqNo == old(recvNxt)
                             && !(old(state) == Established && t.flags.rst)
                          then old(consumed) + t.payload else old(consumed)
      ensures t.flags.rst && (|| old(state) == Established || (old(state) == SynRcvd && !t.flags.ack)
                              || (old(state) == SynSent && !(t.flags.syn && t.flags.ack))) ==>
                && state == Closed && !registered && rtxTimer == Idle && wire == old(wire)
                && socket == if old(socket).Socket? then old(socket).(errors := old(socket).errors + 1) else NoSocket
      ensures Walk(old(state), state)
      ensures Arrival(old(View()), t, listening, View())
      ensures View() == HandleSeg(old(View()), t, listening)
    {
      hide Good, Arrival;
      Dispatch(t, listening);
      ArrivalStreams(old(View()), t, listening);
      ArrivalAspects(old(View()), t, listening);
    }
  }

  // ---------- what the calls mean for the streams ----------

  lemma PassiveFields(t: Segment, chosen: uint32)
    ensures var d := PassiveOpen(t, chosen);
            && d.state == SynRcvd && d.recvNxt == ToUint32(t.seqNo + 1) && d.sendUna == chosen && d.sendNxt == ToUint32(chosen + 1)
            && d.wire == [Segment(chosen, ToUint32(t.seqNo + 1), NO_FLAGS.(syn := true, ack := true), WIN, [])]
            && d.rtx.timer == Armed(1000) && d.socket == NoSocket && d.sendBuf == [] && d.registered
  {
    hide ToUint32;
  }

  lemma ArrivalStreams(c: Conn, t: Segment, listening: bool)
    requires Good(c)
    ensures var d := HandleSeg(c, t, listening);
            && Good(d) && c.wire <= d.wire && d.book.accepted == c.book.accepted && d.book.isn == c.book.isn
            && Payloads(d.wire) + Concat(d.sendBuf) == d.book.accepted
            && (d.socket.Socket? ==> d.socket.received == d.book.consumed)
            && d.book.consumed == (if c.state in {Established, FinWait1, FinWait2} && t.seqNo == c.recvNxt
                                      && !(c.state == Established && t.flags.rst)
                                   then c.book.consumed + t.payload else c.book.consumed)
  {
    hide HandleSeg, Payloads, Concat, Numbered, Inv;
    ArriveGood(c, t, listening);
    assert c.book.consumed + [] == c.book.consumed;
  }

  lemma ArrivalAspects(c: Conn, t: Segment, listening: bool)
    requires Good(c)
    ensures var d := HandleSeg(c, t, listening);
            && Arrival(c, t, listening, d) && Walk(c.state, d.state)
            && (ResetBy(c, t) ==>
                  && d.state == Closed && !d.registered && d.rtx.timer == Idle && d.wire == c.wire
                  && d.socket == (if c.socket.Socket? then c.socket.(errors := c.socket.errors + 1) else NoSocket))
  {
    hide HandleSeg, Arrival, Inv, SendInv, RecvInv, Walk;
    ArrivalIs(c, t, listening);
    ArriveStep(c, t, listening);
    if ResetBy(c, t) {
      ResetObeyed(c, t, listening);
    }
  }

  lemma WriteGood(c: Conn, data: seq<byte>)
    requires Good(c) && c.socket.Socket?
    ensures var d := Write(c, data);
            && Good(d) && c.wire <= d.wire && d.state == c.state && d.socket == c.socket
            && d.book == c.book.(accepted := if Writable(c) then c.book.accepted + data else c.book.accepted)
            && Payloads(d.wire) + Concat(d.sendBuf) == d.book.accepted
            && (d.state == Established ==> d.sendBuf == [])
  {
    LocalGood(c, UserWrite(data));
    hide Write, Payloads, Concat, Numbered, Inv;
    WriteSend(c, data);
    WriteKeepsRest(c, data);
  }

  lemma CloseGood(c: Conn)
    requires Good(c)
    ensures Good(Close(c)) && Payloads(Close(c).wire) == Payloads(c.wire)
    ensures c.state in {Established, CloseWait} ==> c.sendNxt == ToUint32(c.book.isn + 1 + |Payloads(c.wire)|)
  {
    hide Good, Close;
    LocalGood(c, UserClose);
    ClosePayloads(c);
  }

  lemma ClosePayloads(c: Conn)
    requires Good(c)
    ensures Payloads(Close(c).wire) == Payloads(c.wire)
    ensures c.state in {Established, CloseWait} ==> c.sendNxt == ToUint32(c.book.isn + 1 + |Payloads(c.wire)|)
  {
    hide Inv, RecvInv, Numbered, ToUint32, Concat, Payloads;
    PayloadsAppend(c.wire, Outgoing(c, NO_FLAGS.(fin := true, ack := true), WIN, []));
  }

  lemma DestroyGood(c: Conn)
    requires Good(c)
    ensures Good(Destroy(c)) && (c.state == Closed ==> !c.registered && c.rtx.timer == Idle)
  {
    LocalGood(c, UserDestroy);
    hide Destroy, SendInv, RecvInv, CountInv;
  }

  lemma RetransmitGood(c: Conn)
    requires Good(c) && c.rtx.timer.Armed?
    ensures var d := Retransmit(c);
            && Good(d) && CountSyn(d.wire) <= 6 && CountFin(d.wire) <= 6
            && c.rtx.seg.Some? && c.rtx.count <= MAX_RETRIES && c.state != Closed
            && c.rtx.timer.delay == 1000 * Pow2(c.rtx.count)
  {
    LocalGood(c, RtxFires);
    hide Retransmit, SendInv, RecvInv, CountSyn, CountFin, Pow2;
  }
}
