/**
 * What the bytes do. On the sending side: everything `write` accepted is
 * either on the wire, in consecutively numbered chunks, or waiting in the
 * send buffer. Between two connections over a network that may drop,
 * duplicate and reorder: what the receiver's socket was handed is at every
 * moment a prefix of what the sender's `write` accepted.
 */
module TcpDelivery {
  import opened Words
  import opened TcpModel
  import opened TcpLifecycle

  // ---------- the byte stream of a connection ----------

  /** The payload bytes of all the segments sent, in order of sending. */
  function Payloads(w: seq<Segment>): seq<byte> {
    if w == [] then [] else Payloads(w[..|w| - 1]) + w[|w| - 1].payload
  }

  /** Segment `i` carries at most MSS bytes, numbered by their place in the stream; a SYN carries `isn`. */
  predicate Placed(w: seq<Segment>, isn: uint32, i: nat)
    requires i < |w|
  {
    && |w[i].payload| <= MSS
    && (w[i].payload != [] ==>
          && w[i].seqNo == ToUint32(isn + 1 + |Payloads(w[..i])|)
          && !w[i].flags.syn && !w[i].flags.fin && !w[i].flags.rst)
    && (w[i].flags.syn ==> w[i].seqNo == isn)
  }

  predicate Numbered(w: seq<Segment>, isn: uint32) {
    forall i :: 0 <= i < |w| ==> Placed(w, isn, i)
  }

  lemma PayloadsAppend(w: seq<Segment>, s: Segment)
    ensures Payloads(w + [s]) == Payloads(w) + s.payload
  {
    assert (w + [s])[..|w|] == w;
  }

  lemma NumberedAppend(w: seq<Segment>, s: Segment, isn: uint32)
    requires Numbered(w, isn)
    requires Placed(w + [s], isn, |w|)
    ensures Numbered(w + [s], isn)
  {
    forall i | 0 <= i < |w + [s]|
      ensures Placed(w + [s], isn, i)
    {
      if i < |w| {
        assert Placed(w, isn, i);
        assert (w + [s])[..i] == w[..i];
      }
    }
  }

  /** Appending a segment that carries no payload. */
  lemma ControlAppend(w: seq<Segment>, s: Segment, isn: uint32)
    requires Numbered(w, isn) && s.payload == [] && (s.flags.syn ==> s.seqNo == isn)
    ensures Numbered(w + [s], isn) && Payloads(w + [s]) == Payloads(w)
  {
    PayloadsAppend(w, s);
    NumberedAppend(w, s, isn);
  }

  /** The bytes of segment `i` are the bytes of the stream at its place. */
  lemma {:induction false} PayloadAt(w: seq<Segment>, i: nat)
    requires i < |w|
    ensures var off := |Payloads(w[..i])|;
            off + |w[i].payload| <= |Payloads(w)| && Payloads(w)[off..off + |w[i].payload|] == w[i].payload
    ensures Payloads(w[..i]) <= Payloads(w)
    decreases |w|
  {
    var n := |w| - 1;
    if i < n {
      PayloadAt(w[..n], i);
      assert w[..n][..i] == w[..i];
    }
  }

  // ---------- the sending side ----------

  predicate SendInv(c: Conn) {
    && Numbered(c.wire, c.book.isn)
    && Payloads(c.wire) + Concat(c.sendBuf) == c.book.accepted
    && (c.state in {SynSent, SynRcvd} ==> Payloads(c.wire) == [])
    && (c.state in {SynSent, SynRcvd, Established, CloseWait} ==>
          c.sendNxt == ToUint32(c.book.isn + 1 + |Payloads(c.wire)|))
    && (c.state == Established ==> c.sendBuf == [])
    && (c.rtx.seg.Some? ==>
          c.rtx.seg.value.payload == [] && (c.rtx.seg.value.flags.syn ==> c.rtx.seg.value.seqNo == c.book.isn))
  }

  /** `d` sent only segments without payload since `c`. */
  predicate Quiet(c: Conn, d: Conn) {
    && d.book.isn == c.book.isn && d.book.accepted == c.book.accepted && d.sendBuf == c.sendBuf
    && c.wire <= d.wire
    && (Numbered(c.wire, c.book.isn) ==> Numbered(d.wire, d.book.isn))
    && Payloads(d.wire) == Payloads(c.wire)
  }

  lemma AckQuiet(c: Conn)
    ensures Quiet(c, TxAck(c)) && TxAck(c).sendNxt == c.sendNxt && TxAck(c).rtx == c.rtx && TxAck(c).state == c.state
    ensures TxAck(c).socket == c.socket && TxAck(c).recvNxt == c.recvNxt && TxAck(c).book == c.book
  {
    var seg := Outgoing(c, NO_FLAGS.(ack := true), WIN, []);
    PayloadsAppend(c.wire, seg);
    if Numbered(c.wire, c.book.isn) {
      ControlAppend(c.wire, seg, c.book.isn);
    }
  }

  /** The next sequence number is the one after the bytes on the wire. */
  predicate Ready(c: Conn) {
    Numbered(c.wire, c.book.isn) && c.sendNxt == ToUint32(c.book.isn + 1 + |Payloads(c.wire)|)
  }

  /** From `c` to `d` nothing happened but `data` going out in chunks. */
  predicate Sent(c: Conn, d: Conn, data: seq<byte>) {
    && d == c.(sendNxt := d.sendNxt, wire := d.wire)
    && c.wire <= d.wire && Ready(d) && Payloads(d.wire) == Payloads(c.wire) + data
  }

  lemma SentTrans(c: Conn, d: Conn, e: Conn, a: seq<byte>, b: seq<byte>)
    requires Sent(c, d, a) && Sent(d, e, b)
    ensures Sent(c, e, a + b)
  {
    hide Payloads, Ready;
    Associative(Payloads(c.wire), a, b);
  }

  lemma Shift(isn: uint32, k: nat, m: nat)
    ensures ToUint32(ToUint32(isn + 1 + k) + m) == ToUint32(isn + 1 + k + m)
  {
  }

  lemma ChunkSent(c: Conn, data: seq<byte>, psh: bool)
    requires Ready(c) && 0 < |data| <= MSS
    ensures var seg := Outgoing(c, NO_FLAGS.(ack := true, psh := psh), WIN, data);
            Sent(c, TxSeg(c.(sendNxt := ToUint32(c.sendNxt + |data|)), seg), data)
  {
    hide Payloads, Numbered, ToUint32;
    var seg := Outgoing(c, NO_FLAGS.(ack := true, psh := psh), WIN, data);
    assert (c.wire + [seg])[..|c.wire|] == c.wire;
    Shift(c.book.isn, |Payloads(c.wire)|, |data|);
    PayloadsAppend(c.wire, seg);
    NumberedAppend(c.wire, seg, c.book.isn);
  }

  lemma {:induction false} ChunksSend(c: Conn, data: seq<byte>)
    requires Ready(c)
    ensures Sent(c, TxChunks(c, data), data)
    decreases |data|
  {
    hide Payloads, Ready, Sent, TxSeg, Outgoing;
    if data != [] {
      var k := if |data| < MSS then |data| else MSS;
      ChunkSent(c, data[..k], |data| <= MSS);
      var seg := Outgoing(c, NO_FLAGS.(ack := true, psh := |data| <= MSS), WIN, data[..k]);
      var c1 := TxSeg(c.(sendNxt := ToUint32(c.sendNxt + k)), seg);
      SentReady(c, c1, data[..k]);
      ChunksSend(c1, data[k..]);
      SentTrans(c, c1, TxChunks(c1, data[k..]), data[..k], data[k..]);
      assert data == data[..k] + data[k..];
    } else {
      SentNothing(c);
    }
  }

  /** The chunks of some data: 1460 bytes each but the last, only the last one pushed. */
  predicate IsChunk(data: seq<byte>, k: nat, s: Segment) {
    var end := if 1460 * (k + 1) < |data| then 1460 * (k + 1) else |data|;
    && 1460 * k < |data| && s.payload == data[1460 * k..end] && s.flags == NO_FLAGS.(ack := true, psh := end == |data|)
  }

  /** As many chunks as it takes, each where it belongs. */
  predicate AreChunks(data: seq<byte>, segs: seq<Segment>) {
    |segs| == (|data| + 1459) / 1460 && forall k :: 0 <= k < |segs| ==> IsChunk(data, k, segs[k])
  }

  lemma {:induction false} ChunksAre(c: Conn, data: seq<byte>)
    ensures var d := TxChunks(c, data); c.wire <= d.wire && AreChunks(data, d.wire[|c.wire|..])
    decreases |data|
  {
    hide AreChunks, ToUint32;
    if data == [] {
      assert c.wire[|c.wire|..] == [];
      NoChunks(data);
    } else {
      var n := if |data| < MSS then |data| else MSS;
      var seg := Outgoing(c, NO_FLAGS.(ack := true, psh := |data| <= MSS), WIN, data[..n]);
      var c1 := TxSeg(c.(sendNxt := ToUint32(c.sendNxt + n)), seg);
      ChunksAre(c1, data[n..]);
      var d := TxChunks(c1, data[n..]);
      assert d.wire[|c.wire|..] == [seg] + d.wire[|c1.wire|..];
      FirstChunk(data, seg, d.wire[|c1.wire|..]);
    }
  }

  lemma NoChunks(data: seq<byte>)
    requires data == []
    ensures AreChunks(data, [])
  {
  }

  lemma FirstChunk(data: seq<byte>, s: Segment, segs: seq<Segment>)
    requires data != [] && s.flags == NO_FLAGS.(ack := true, psh := |data| <= 1460)
    requires s.payload == data[..if |data| < 1460 then |data| else 1460]
    requires AreChunks(data[if |data| < 1460 then |data| else 1460..], segs)
    ensures AreChunks(data, [s] + segs)
  {
    hide IsChunk;
    IsFirstChunk(data, s);
    var all := [s] + segs;
    if |data| > 1460 {
      forall k | 0 <= k < |all| ensures IsChunk(data, k, all[k]) {
        if k > 0 {
          assert all[k] == segs[k - 1];
          ChunkShift(data, k, k - 1, all[k]);
        }
      }
    } else {
      assert segs == [];
    }
  }

  lemma IsFirstChunk(data: seq<byte>, s: Segment)
    requires data != [] && s.flags == NO_FLAGS.(ack := true, psh := |data| <= 1460)
    requires s.payload == data[..if |data| < 1460 then |data| else 1460]
    ensures IsChunk(data, 0, s)
  {
  }

  lemma ChunkShift(data: seq<byte>, k: nat, j: nat, s: Segment)
    requires k == j + 1 && |data| > 1460 && IsChunk(data[1460..], j, s)
    ensures IsChunk(data, k, s)
  {
    var rest := data[1460..];
    var end := if 1460 * k < |rest| then 1460 * k else |rest|;
    assert rest[1460 * j..end] == data[1460 * k..end + 1460];
  }

  lemma SentReady(c: Conn, d: Conn, data: seq<byte>)
    requires Sent(c, d, data)
    ensures Ready(d)
  {
  }

  lemma SentNothing(c: Conn)
    requires Ready(c)
    ensures Sent(c, c, [])
  {
    assert Payloads(c.wire) + [] == Payloads(c.wire);
  }

  lemma {:induction false} FlushSend(c: Conn)
    requires c.state == Established
    requires Numbered(c.wire, c.book.isn)
    requires c.sendNxt == ToUint32(c.book.isn + 1 + |Payloads(c.wire)|)
    ensures var d := Flush(c);
            && d == c.(sendNxt := d.sendNxt, wire := d.wire, sendBuf := [])
            && c.wire <= d.wire
            && Numbered(d.wire, d.book.isn)
            && Payloads(d.wire) == Payloads(c.wire) + Concat(c.sendBuf)
            && d.sendNxt == ToUint32(d.book.isn + 1 + |Payloads(d.wire)|)
    decreases |c.sendBuf|
  {
    hide Payloads, Numbered, TxChunks;
    if c.sendBuf != [] {
      var c1 := c.(sendBuf := c.sendBuf[1..]);
      ChunksSend(c1, c.sendBuf[0]);
      var c2 := TxData(c1, c.sendBuf[0]);
      FlushSend(c2);
      assert Payloads(c2.wire) + Concat(c2.sendBuf) == Payloads(c.wire) + Concat(c.sendBuf);
    } else {
      assert Payloads(c.wire) + Concat(c.sendBuf) == Payloads(c.wire);
    }
  }

  lemma CloseSend(c: Conn)
    requires Inv(c) && SendInv(c)
    ensures var d := Close(c); SendInv(d) && c.wire <= d.wire && d.book == c.book
  {
    ControlAppend(c.wire, Outgoing(c, NO_FLAGS.(fin := true, ack := true), WIN, []), c.book.isn);
  }

  lemma DestroySend(c: Conn)
    requires Inv(c) && SendInv(c)
    ensures var d := Destroy(c); SendInv(d) && c.wire <= d.wire && d.book == c.book
  {
    ControlAppend(c.wire, Outgoing(c, NO_FLAGS.(rst := true, ack := true), 0, []), c.book.isn);
  }

  lemma WriteSend(c: Conn, data: seq<byte>)
    requires Inv(c) && SendInv(c)
    ensures var d := Write(c, data);
            && SendInv(d) && c.wire <= d.wire
            && d.book == c.book.(accepted := if Writable(c) then c.book.accepted + data else c.book.accepted)
  {
    hide Payloads, Numbered, TxChunks, Inv;
    if c.state == Established {
      ChunksSend(c.(book := c.book.(accepted := c.book.accepted + data)), data);
    } else {
      ConcatAppend(c.sendBuf, data);
    }
  }

  lemma RetransmitSend(c: Conn)
    requires Inv(c) && SendInv(c) && c.rtx.timer.Armed?
    ensures var d := Retransmit(c); SendInv(d) && c.wire <= d.wire && d.book == c.book
  {
    RetransmitKeeps(c);
    hide Inv, Payloads, Numbered, Concat, Retransmit;
    if c.rtx.seg.Some? {
      ControlAppend(c.wire, c.rtx.seg.value, c.book.isn);
    }
  }

  lemma RetransmitKeeps(c: Conn)
    ensures var d := Retransmit(c);
            && d.book == c.book && d.sendBuf == c.sendBuf && d.sendNxt == c.sendNxt && (d.state == c.state || d.state == Closed)
            && (d.rtx.seg == c.rtx.seg || d.rtx.seg == None)
            && (d.wire == c.wire || (c.rtx.seg.Some? && d.wire == c.wire + [c.rtx.seg.value]))
  {
    hide Pow2;
  }

  // ---------- the receiving side of one arrival ----------

  /** The states in which arriving payload is taken. */
  predicate Receiving(s: State) {
    s in {Established, FinWait1, FinWait2}
  }

  predicate RecvInv(c: Conn) {
    && (c.socket.Socket? ==> c.socket.received == c.book.consumed)
    && (c.socket.Socket? && c.socket.ended ==> !Receiving(c.state) && c.state !in {SynSent, SynRcvd})
    && (c.state in {SynSent, SynRcvd} ==> c.book.consumed == [])
    && (c.state != Closed ==> (c.book.finTaken <==> c.state in {CloseWait, LastAck, Closing, TimeWait}))
  }

  /** Whether the payload of `t` is taken by a connection in state `c`. */
  predicate Takes(c: Conn, t: Segment) {
    && Receiving(c.state)
    && InOrder(c, t)
    && !(c.state == Established && t.flags.rst)
  }

  /** Whether the FIN of `t` is taken. */
  predicate TakesFin(c: Conn, t: Segment) {
    Receiving(c.state) && t.flags.fin && !(c.state == Established && t.flags.rst)
  }

  /** How an arrival moves the receive side. */
  ghost predicate Moves(c: Conn, t: Segment, d: Conn) {
    && d.book.consumed == (if Takes(c, t) then c.book.consumed + t.payload else c.book.consumed)
    && d.book.finTaken == (c.book.finTaken || TakesFin(c, t))
    && (Receiving(d.state) || d.state == SynRcvd ==>
          if c.state == SynSent then t.flags.syn && d.recvNxt == ToUint32(t.seqNo + 1)
          else
            && (Receiving(c.state) || c.state == SynRcvd)
            && d.recvNxt == (if Takes(c, t) then ToUint32(c.recvNxt + |t.payload|) else c.recvNxt))
  }

  ghost predicate Arrived(c: Conn, t: Segment, d: Conn) {
    && SendInv(d) && RecvInv(d) && c.wire <= d.wire
    && d.book.isn == c.book.isn && d.book.accepted == c.book.accepted
    && Moves(c, t, d)
  }

  lemma DeliverBefore(c: Conn, t: Segment)
    requires Inv(c) && SendInv(c) && RecvInv(c) && Receiving(c.state)
    ensures var d := OnData(TxAck(Consume(c, t)), t.payload);
            && SendInv(d) && RecvInv(d) && Inv(d) && d.state == c.state && c.wire <= d.wire
            && d.book == c.book.(consumed := c.book.consumed + t.payload)
            && d.recvNxt == ToUint32(c.recvNxt + |t.payload|)
  {
    hide ToUint32;
    AckQuiet(Consume(c, t));
    DeliverAlike(c, t);
    hide Inv, Payloads, Numbered, Concat;
    AlikeInv(c, OnData(TxAck(Consume(c, t)), t.payload));
  }

  lemma DeliverAfter(c: Conn, t: Segment)
    requires Inv(c) && SendInv(c) && RecvInv(c) && Receiving(c.state)
    ensures var d := TxAck(OnData(Consume(c, t), t.payload));
            && SendInv(d) && RecvInv(d) && Inv(d) && d.state == c.state && c.wire <= d.wire
            && d.book == c.book.(consumed := c.book.consumed + t.payload)
            && d.recvNxt == ToUint32(c.recvNxt + |t.payload|)
  {
    hide ToUint32;
    AckQuiet(OnData(Consume(c, t), t.payload));
    DeliverAlike(c, t);
    hide Inv, Payloads, Numbered, Concat;
    AlikeInv(c, TxAck(OnData(Consume(c, t), t.payload)));
  }

  lemma SynSentArrives(c: Conn, t: Segment)
    requires Inv(c) && SendInv(c) && RecvInv(c) && c.state == SynSent
    ensures Arrived(c, t, OnSynSent(c, t))
  {
    hide Flush, TxAck, SendRst, Numbered, Payloads, Concat, Inv, ToUint32;
    if t.flags.syn && t.flags.ack {
      if t.ackNo != c.sendNxt {
        DestroySend(c);
        DestroyKeepsRecv(c);
      } else {
        SynAckArrives(c, t);
      }
    }
  }

  /** The answer to the own SYN: the connection is up and what was buffered goes out. */
  lemma SynAckArrives(c: Conn, t: Segment)
    requires SendInv(c) && RecvInv(c) && c.state == SynSent && t.flags.syn && t.flags.ack && t.ackNo == c.sendNxt
    ensures Arrived(c, t, OnSynSent(c, t))
  {
    hide Flush, TxAck, SendRst, Numbered, Payloads, ToUint32;
    var c1 := ClearRtx(c.(recvNxt := ToUint32(t.seqNo + 1), sendUna := t.ackNo, state := Established));
    AckQuiet(c1);
    FlushSend(OnConnect(TxAck(c1)));
  }

  lemma DestroyKeepsRecv(c: Conn)
    requires RecvInv(c)
    ensures RecvInv(Destroy(c)) && Destroy(c).book == c.book && Destroy(c).state == Closed
  {
  }

  /** Taking a FIN ends the stream; a socket that is not half-open then closes its own side. */
  lemma FinBeforeClose(c: Conn, nextRecv: uint32)
    requires Inv(c) && SendInv(c) && RecvInv(c) && c.state == Established
    ensures var d := RecvFin(c, nextRecv, CloseWait);
            && SendInv(d) && RecvInv(d) && c.wire <= d.wire && d.book == c.book.(finTaken := true)
            && d.state in {CloseWait, LastAck}
  {
    hide Numbered, Payloads, Concat, CountSyn, CountFin;
    var c1 := c.(recvNxt := nextRecv, state := CloseWait, book := c.book.(finTaken := true));
    AckQuiet(c1);
    var c2 := TxAck(c1);
    assert SendInv(c2);
    assert Inv(c2) by {
      AckAlike(c1);
    }
    if c2.socket.Socket? {
      var c3 := c2.(socket := c2.socket.(ended := true));
      CloseSend(c3);
    }
  }

  lemma FinAfterClose(c: Conn, nextRecv: uint32, s: State)
    requires SendInv(c) && RecvInv(c) && Receiving(c.state) && c.state != Established && s in {TimeWait, Closing}
    ensures var d := RecvFin(c, nextRecv, s);
            && SendInv(d) && RecvInv(d) && c.wire <= d.wire && d.book == c.book.(finTaken := true) && d.state == s
  {
    hide Numbered, Payloads, Concat;
    AckQuiet(c.(recvNxt := nextRecv, state := s, book := c.book.(finTaken := true)));
  }

  lemma EstablishedArrives(c: Conn, t: Segment)
    requires Inv(c) && SendInv(c) && RecvInv(c) && c.state == Established
    ensures Arrived(c, t, OnEstablished(c, t))
  {
    hide RecvFin, OnData, TxAck, Consume, Numbered, Payloads, Concat, Inv, ToUint32;
    if !t.flags.rst {
      var c1 := AckUpdate(c, t);
      UpdateInv(c, t);
      DeliverBefore(c1, t);
      var c2 := if InOrder(c1, t) then OnData(TxAck(Consume(c1, t)), t.payload) else c1;
      FinBeforeClose(c2, ToUint32(c2.recvNxt + 1));
    }
  }

  lemma FinWait1FlagsArrive(c: Conn, t: Segment)
    requires SendInv(c) && RecvInv(c) && c.state == FinWait1
    ensures var d := FinWait1Flags(c, t);
            && SendInv(d) && RecvInv(d) && c.wire <= d.wire
            && d.book == c.book.(finTaken := c.book.finTaken || t.flags.fin)
            && d.state != SynRcvd && (Receiving(d.state) ==> d.recvNxt == c.recvNxt)
  {
    hide RecvFin, Numbered, Payloads, Concat;
    FinAfterClose(ClearRtx(c), ToUint32(c.recvNxt + 1), TimeWait);
    FinAfterClose(c, ToUint32(c.recvNxt + 1), Closing);
  }

  lemma UpdateInv(c: Conn, t: Segment)
    requires Inv(c)
    ensures Inv(AckUpdate(c, t))
  {
    hide CountSyn, CountFin;
  }

  lemma FinWait1Arrives(c: Conn, t: Segment)
    requires Inv(c) && SendInv(c) && RecvInv(c) && c.state == FinWait1
    ensures Arrived(c, t, OnFinWait1(c, t))
  {
    hide FinWait1Flags, OnData, TxAck, Consume, Numbered, Payloads, Concat, Inv, ToUint32;
    var c1 := AckUpdate(c, t);
    UpdateInv(c, t);
    DeliverAfter(c1, t);
    var c2 := if InOrder(c1, t) then TxAck(OnData(Consume(c1, t), t.payload)) else c1;
    FinWait1FlagsArrive(c2, t);
  }

  lemma FinWait2Arrives(c: Conn, t: Segment)
    requires Inv(c) && SendInv(c) && RecvInv(c) && c.state == FinWait2
    ensures Arrived(c, t, OnFinWait2(c, t))
  {
    hide RecvFin, OnData, TxAck, Consume, Numbered, Payloads, Concat, Inv, ToUint32;
    DeliverAfter(c, t);
    var c1 := if InOrder(c, t) then TxAck(OnData(Consume(c, t), t.payload)) else c;
    FinAfterClose(c1, ToUint32(t.seqNo + |t.payload| + 1), TimeWait);
  }

  lemma SynRcvdArrives(c: Conn, t: Segment, listening: bool)
    requires Inv(c) && SendInv(c) && RecvInv(c) && c.state == SynRcvd
    ensures Arrived(c, t, OnSynRcvd(c, t, listening))
  {
    hide Numbered, Payloads, CountSyn, CountFin, Pow2, ToUint32;
  }

  lemma SegmentArrives(c: Conn, t: Segment, listening: bool)
    requires Inv(c) && SendInv(c) && RecvInv(c)
    ensures Arrived(c, t, HandleSeg(c, t, listening))
  {
    hide OnSynSent, OnSynRcvd, OnEstablished, OnFinWait1, OnFinWait2, TxAck, Numbered, Payloads, Concat, Inv, ToUint32;
    match c.state
    case SynSent => SynSentArrives(c, t);
    case SynRcvd => SynRcvdArrives(c, t, listening);
    case Established => EstablishedArrives(c, t);
    case FinWait1 => FinWait1Arrives(c, t);
    case FinWait2 => FinWait2Arrives(c, t);
    case TimeWait => AckQuiet(c);
    case _ =>
  }

  /** The local events: timers and the user's calls. */
  lemma LocalStep(c: Conn, e: Event)
    requires Inv(c) && SendInv(c) && RecvInv(c) && Enabled(c, e) && !e.Arrive?
    ensures var d := Step(c, e);
            && SendInv(d) && RecvInv(d) && c.wire <= d.wire
            && d.book == c.book.(accepted := d.book.accepted)
            && (Receiving(d.state) || d.state == SynRcvd ==> d.recvNxt == c.recvNxt && (Receiving(c.state) || c.state == SynRcvd))
  {
    hide Numbered, Payloads, Concat, CountSyn, CountFin;
    match e
    case RtxFires => RetransmitSend(c);
    case TimeWaitFires =>
    case UserWrite(data) => WriteSend(c, data); WriteKeepsRest(c, data);
    case UserClose => CloseSend(c);
    case UserDestroy => DestroySend(c);
  }

  lemma WriteKeepsRest(c: Conn, data: seq<byte>)
    ensures var d := Write(c, data); d.state == c.state && d.recvNxt == c.recvNxt && d.socket == c.socket
  {
    TxChunksKeeps(c.(book := c.book.(accepted := c.book.accepted + data)), data);
  }

  // ---------- one connection, whatever arrives ----------

  function Received(c: Conn): seq<byte> {
    if c.socket.Socket? then c.socket.received else []
  }

  predicate Good(c: Conn) {
    Inv(c) && SendInv(c) && RecvInv(c)
  }

  lemma OpenGood(half: bool, isn: uint32)
    ensures Good(ActiveOpen(half, isn))
  {
    ActiveOpenInv(half, isn);
    ControlAppend([], Segment(isn, 0, NO_FLAGS.(syn := true), WIN, []), isn);
  }

  lemma AcceptGood(t: Segment, isn: uint32)
    ensures Good(PassiveOpen(t, isn)) && PassiveOpen(t, isn).book == Book(isn, [], [], false)
    ensures PassiveOpen(t, isn).recvNxt == ToUint32(t.seqNo + 1) && PassiveOpen(t, isn).state == SynRcvd
  {
    PassiveOpenInv(t, isn);
    ControlAppend([], Segment(isn, ToUint32(t.seqNo + 1), NO_FLAGS.(syn := true, ack := true), WIN, []), isn);
  }

  lemma ArriveGood(c: Conn, t: Segment, listening: bool)
    requires Good(c)
    ensures Good(HandleSeg(c, t, listening)) && Arrived(c, t, HandleSeg(c, t, listening))
  {
    hide HandleSeg, Inv, SendInv, RecvInv;
    ArriveStep(c, t, listening);
    SegmentArrives(c, t, listening);
  }

  lemma LocalGood(c: Conn, e: Event)
    requires Good(c) && Enabled(c, e) && !e.Arrive?
    ensures var d := Step(c, e);
            && Good(d) && c.wire <= d.wire && d.book == c.book.(accepted := d.book.accepted)
            && (Receiving(d.state) || d.state == SynRcvd ==> d.recvNxt == c.recvNxt && (Receiving(c.state) || c.state == SynRcvd))
  {
    hide Step, Inv, SendInv, RecvInv;
    StepInv(c, e);
    LocalStep(c, e);
  }

  /**
   * The sending side alone, over every run of one connection, whatever
   * arrives: the bytes sent followed by the bytes buffered are the bytes
   * accepted, and every chunk is numbered by its place in the stream.
   */
  lemma {:induction false} SenderStream(cs: seq<Conn>, i: nat)
    requires IsRun(cs) && i < |cs|
    ensures Payloads(cs[i].wire) + Concat(cs[i].sendBuf) == cs[i].book.accepted
    ensures Numbered(cs[i].wire, cs[i].book.isn)
    ensures Good(cs[i])
  {
    hide Next, Opened, Inv, RecvInv, Numbered, Payloads, Concat;
    if i == 0 {
      OpenedGood(cs[0]);
    } else {
      SenderStream(cs, i - 1);
      NextGood(cs[i - 1], cs[i]);
    }
  }

  lemma OpenedGood(c: Conn)
    requires Opened(c)
    ensures Good(c)
  {
    hide ActiveOpen, PassiveOpen, Good;
    if half, isn :| c == ActiveOpen(half, isn) {
      OpenGood(half, isn);
    } else {
      var t, isn :| c == PassiveOpen(t, isn);
      AcceptGood(t, isn);
    }
  }

  lemma StepGood(c: Conn, e: Event)
    requires Good(c) && Enabled(c, e)
    ensures Good(Step(c, e))
  {
    hide Good, HandleSeg;
    match e
    case Arrive(t, listening) => ArriveGood(c, t, listening);
    case _ => LocalGood(c, e);
  }

  lemma NextGood(c: Conn, d: Conn)
    requires Good(c) && Next(c, d)
    ensures Good(d)
  {
    hide Good, Step, Enabled;
    var e :| Enabled(c, e) && d == Step(c, e);
    StepGood(c, e);
  }
}
