/** What two connections do together when nothing is lost: opening, exchanging and closing. */
module TcpExchange {
  import opened Words
  import opened TcpModel
  import opened TcpLifecycle

  function LastSent(c: Conn): Segment
    requires c.wire != []
  {
    c.wire[|c.wire| - 1]
  }

  /** Each side expects the number the other will use next. */
  predicate InStep(a: Conn, b: Conn) {
    a.sendNxt == b.recvNxt && b.sendNxt == a.recvNxt
  }

  /**
   * The three-way handshake of section 3.5 of RFC 9293, for any initial
   * numbers: both sides end up established and in step, the timers off, the
   * client's socket connected and the server's socket there.
   */
  lemma Handshake(half: bool, isnA: uint32, isnB: uint32)
    ensures var a0 := ActiveOpen(half, isnA);
            && |a0.wire| == 1
            && var b0 := PassiveOpen(a0.wire[0], isnB);
               && |b0.wire| == 1
               && var a1 := HandleSeg(a0, b0.wire[0], false);
                  && |a1.wire| == 2
                  && var b1 := HandleSeg(b0, a1.wire[1], true);
                     && a1.state == Established && b1.state == Established && InStep(a1, b1)
                     && a1.sendNxt == ToUint32(isnA + 1) && b1.sendNxt == ToUint32(isnB + 1)
                     && a1.rtx.timer == Idle && b1.rtx.timer == Idle
                     && a1.socket == Socket(half, true, [], false, 0) && b1.socket.Socket?
                     && a1.sendUna == a1.sendNxt && b1.sendUna == b1.sendNxt
  {
  }

  /** A SYN to a port nobody listens on: the answer of the stack acknowledges it, and the client is closed with one error. */
  lemma Refused(half: bool, isn: uint32)
    ensures var a := ActiveOpen(half, isn);
            && |a.wire| == 1
            && var answer := ResetReply(a.wire[0]);
               && answer.flags == NO_FLAGS.(rst := true, ack := true) && answer.ackNo == a.sendNxt
               && var d := HandleSeg(a, answer, false);
                  && d.state == Closed && !d.registered && d.rtx.timer == Idle && d.wire == a.wire
                  && d.socket == Socket(half, false, [], false, 1)
  {
  }

  predicate Talking(a: Conn, b: Conn) {
    && a.state == Established && b.state == Established && InStep(a, b)
    && b.socket.Socket? && !b.socket.ended
  }

  /** `segs` handed to `c` one after the other. */
  function Deliver(c: Conn, segs: seq<Segment>): Conn
    decreases |segs|
  {
    if segs == [] then c else Deliver(HandleSeg(c, segs[0], false), segs[1..])
  }

  /** What `d` sent since it was `c`. */
  function SentSince(c: Conn, d: Conn): seq<Segment> {
    if c.wire <= d.wire then d.wire[|c.wire|..] else []
  }

  /**
   * From `b` to `b1` all that was sent from `a` to `a1` was taken: `data` was
   * handed to the socket, every chunk was acknowledged, the last one to the end.
   */
  predicate Handed(a: Conn, a1: Conn, b: Conn, b1: Conn, data: seq<byte>) {
    && a.wire <= a1.wire && b.wire <= b1.wire && |b1.wire| - |b.wire| == |a1.wire| - |a.wire|
    && b.socket.Socket? && Talking(a1, b1) && b1.socket.received == b.socket.received + data
    && b1.sendNxt == b.sendNxt
    && (if data == [] then a1 == a && b1 == b
        else b1.wire != [] && LastSent(b1) == Segment(b.sendNxt, a1.sendNxt, NO_FLAGS.(ack := true), WIN, []))
  }

  lemma HandedTrans(a: Conn, a0: Conn, a1: Conn, b: Conn, b0: Conn, b1: Conn, p: seq<byte>, q: seq<byte>)
    requires Handed(a, a0, b, b0, p) && Handed(a0, a1, b0, b1, q)
    ensures Handed(a, a1, b, b1, p + q)
  {
    hide Talking, LastSent, SentSince;
    if p == [] {
      assert p + q == q;
    } else if q == [] {
      assert p + q == p;
    } else {
      assert b.socket.received + p + q == b.socket.received + (p + q);
    }
  }

  lemma ChunkDelivered(a: Conn, b: Conn, chunk: seq<byte>, psh: bool)
    requires Talking(a, b) && 0 < |chunk| <= MSS
    ensures var seg := Outgoing(a, NO_FLAGS.(ack := true, psh := psh), WIN, chunk);
            Handed(a, TxSeg(a.(sendNxt := ToUint32(a.sendNxt + |chunk|)), seg), b, HandleSeg(b, seg, false), chunk)
  {
    hide ToUint32;
  }

  lemma HandedNothing(a: Conn, b: Conn)
    requires Talking(a, b)
    ensures SentSince(a, a) == [] && Handed(a, a, b, b, [])
  {
    assert b.socket.received + [] == b.socket.received;
  }

  lemma HandedTalking(a: Conn, a1: Conn, b: Conn, b1: Conn, data: seq<byte>)
    requires Handed(a, a1, b, b1, data)
    ensures Talking(a1, b1) && a.wire <= a1.wire
  {
  }

  lemma FirstSent(a: Conn, a0: Conn, a1: Conn, seg: Segment)
    requires a0.wire == a.wire + [seg] && a0.wire <= a1.wire
    ensures SentSince(a, a1) == [seg] + SentSince(a0, a1)
  {
  }

  lemma {:induction false} ChunksDelivered(a: Conn, b: Conn, data: seq<byte>)
    requires Talking(a, b)
    ensures Handed(a, TxChunks(a, data), b, Deliver(b, SentSince(a, TxChunks(a, data))), data)
    decreases |data|
  {
    hide ToUint32, HandleSeg, Talking, Handed, SentSince;
    if data == [] {
      HandedNothing(a, b);
    } else {
      var k := if |data| < MSS then |data| else MSS;
      var seg := Outgoing(a, NO_FLAGS.(ack := true, psh := |data| <= MSS), WIN, data[..k]);
      var a0 := TxSeg(a.(sendNxt := ToUint32(a.sendNxt + k)), seg);
      var b0 := HandleSeg(b, seg, false);
      ChunkDelivered(a, b, data[..k], |data| <= MSS);
      HandedTalking(a, a0, b, b0, data[..k]);
      ChunksDelivered(a0, b0, data[k..]);
      var a1 := TxChunks(a0, data[k..]);
      var b1 := Deliver(b0, SentSince(a0, a1));
      HandedTalking(a0, a1, b0, b1, data[k..]);
      FirstSent(a, a0, a1, seg);
      assert ([seg] + SentSince(a0, a1))[1..] == SentSince(a0, a1);
      HandedTrans(a, a0, a1, b, b0, b1, data[..k], data[k..]);
      assert data == data[..k] + data[k..];
    }
  }

  /**
   * All the chunks of a `write` of any length, delivered in order, hand over
   * the whole data; each is acknowledged, the last acknowledgement is of the
   * last byte, and the sides stay in step.
   */
  lemma WriteDelivered(a: Conn, b: Conn, data: seq<byte>)
    requires Talking(a, b)
    ensures var a1 := Write(a, data);
            var b1 := Deliver(b, SentSince(a, a1));
            && Talking(a1, b1) && b1.socket.received == b.socket.received + data
            && |b1.wire| - |b.wire| == |a1.wire| - |a.wire|
            && (data != [] ==>
                  && b1.wire != [] && LastSent(b1).ackNo == a1.sendNxt
                  && HandleSeg(a1, LastSent(b1), false) == a1.(sendUna := a1.sendNxt))
  {
    hide ToUint32, HandleSeg, TxChunks;
    var c := a.(book := a.book.(accepted := a.book.accepted + data));
    ChunksDelivered(c, b, data);
    if data != [] {
      PlainAck(Write(a, data), LastSent(Deliver(b, SentSince(a, Write(a, data)))));
    }
  }

  lemma PlainAck(a: Conn, t: Segment)
    requires a.state == Established && t.flags == NO_FLAGS.(ack := true) && t.payload == [] && t.ackNo == a.sendNxt
    ensures HandleSeg(a, t, false) == a.(sendUna := a.sendNxt)
  {
    hide ToUint32;
  }

  /** The peer of a close: it acknowledges the FIN, ends its stream and sends its own FIN. */
  lemma PeerCloses(b: Conn, fin: Segment)
    requires b.state == Established && b.socket.Socket? && !b.socket.ended && !b.socket.allowHalfOpen
    requires fin.flags == NO_FLAGS.(fin := true, ack := true) && fin.payload == []
    ensures var b1 := HandleSeg(b, fin, false);
            && b1.state == LastAck && b1.socket.ended
            && b1.wire == b.wire + [Segment(b.sendNxt, ToUint32(b.recvNxt + 1), NO_FLAGS.(ack := true), WIN, []),
                                    Segment(b.sendNxt, ToUint32(b.recvNxt + 1), NO_FLAGS.(fin := true, ack := true), WIN, [])]
            && b1.recvNxt == ToUint32(b.recvNxt + 1) && b1.sendNxt == ToUint32(b.sendNxt + 1)
  {
    hide ToUint32;
  }

  lemma ClosesWith(a: Conn)
    requires a.state == Established
    ensures var a1 := Close(a);
            && a1.state == FinWait1 && a1.recvNxt == a.recvNxt && a1.sendNxt == ToUint32(a.sendNxt + 1)
            && a1.wire == a.wire + [Segment(a.sendNxt, a.recvNxt, NO_FLAGS.(fin := true, ack := true), WIN, [])]
  {
    hide ToUint32;
  }

  /** The closing side: the acknowledgement, then the peer's FIN. */
  lemma CloserWaits(a: Conn, ack: Segment, fin: Segment)
    requires a.state == FinWait1 && ack.flags == NO_FLAGS.(ack := true) && ack.payload == []
    requires fin.flags == NO_FLAGS.(fin := true, ack := true) && fin.payload == []
    ensures var a2 := HandleSeg(a, ack, false);
            && a2.state == FinWait2 && a2.rtx.timer == Idle
            && var a3 := HandleSeg(a2, fin, false);
               && a3.state == TimeWait && a3.wire == a.wire + [Segment(a.sendNxt, ToUint32(fin.seqNo + 1), NO_FLAGS.(ack := true), WIN, [])]
  {
    hide ToUint32;
  }

  /**
   * The orderly close of section 3.6 of RFC 9293 against a peer whose socket
   * does not stay half-open: the peer acknowledges and closes in turn; it ends
   * CLOSED, the closing side in TIME_WAIT until its timer has run.
   */
  lemma OrderlyClose(a: Conn, b: Conn)
    requires Talking(a, b) && !b.socket.allowHalfOpen
    ensures var a1 := Close(a);
            && a1.state == FinWait1 && |a1.wire| == |a.wire| + 1
            && var b1 := HandleSeg(b, LastSent(a1), false);
               && b1.state == LastAck && b1.socket.ended && |b1.wire| == |b.wire| + 2
               && b1.wire[|b.wire|].ackNo == a1.sendNxt
               && var a3 := HandleSeg(HandleSeg(a1, b1.wire[|b.wire|], false), LastSent(b1), false);
                  && a3.state == TimeWait && a3.wire != [] && LastSent(a3).ackNo == b1.sendNxt
                  && TimeWaitOver(a3).state == Closed
                  && var b2 := HandleSeg(b1, LastSent(a3), false);
                     b2.state == Closed && !b2.registered && b2.rtx.timer == Idle
  {
    hide ToUint32, OnEstablished, OnFinWait1, OnFinWait2, OnSynSent, OnSynRcvd;
    var a1 := Close(a);
    ClosesWith(a);
    PeerCloses(b, LastSent(a1));
    var b1 := HandleSeg(b, LastSent(a1), false);
    CloserWaits(a1, b1.wire[|b.wire|], LastSent(b1));
  }

  lemma Differs(n: uint32)
    ensures ToUint32(n + 1) != n
  {
  }

  /** In FIN_WAIT1 a FIN with any acknowledgement ends the wait. */
  lemma FinCrosses(a: Conn, fin: Segment)
    requires a.state == FinWait1 && fin.flags == NO_FLAGS.(fin := true, ack := true) && fin.payload == []
    ensures var d := HandleSeg(a, fin, false);
            d.state == TimeWait && d.rtx.timer == Idle && d.sendUna == fin.ackNo && d.sendNxt == a.sendNxt
  {
    hide ToUint32;
  }

  /**
   * Both sides close at once. Every FIN here carries an ACK, and in FIN_WAIT1 any
   * ACK counts as covering the own FIN: both go to TIME_WAIT, although neither
   * FIN has been acknowledged.
   */
  lemma SimultaneousClose(a: Conn, b: Conn)
    requires Talking(a, b)
    ensures var a1, b1 := Close(a), Close(b);
            && a1.wire != [] && b1.wire != []
            && LastSent(a1).ackNo == b.sendNxt && LastSent(b1).ackNo == a.sendNxt
            && var a2, b2 := HandleSeg(a1, LastSent(b1), false), HandleSeg(b1, LastSent(a1), false);
               && a2.state == TimeWait && a2.rtx.timer == Idle && a2.sendUna != a2.sendNxt
               && b2.state == TimeWait && b2.rtx.timer == Idle && b2.sendUna != b2.sendNxt
  {
    hide ToUint32, HandleSeg, Close;
    ClosesWith(a);
    ClosesWith(b);
    Differs(a.sendNxt);
    Differs(b.sendNxt);
    FinCrosses(Close(a), LastSent(Close(b)));
    FinCrosses(Close(b), LastSent(Close(a)));
  }
}
