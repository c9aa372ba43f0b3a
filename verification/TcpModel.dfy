/**
 * The transition functions of one TCP connection: what each method of the
 * connection does to the connection's fields, the segments it hands to the
 * network, and the socket above it.
 */
module TcpModel {
  import opened Words

  const WIN: uint16 := 65535
  const MSS := 1460
  const MAX_RETRIES := 5

  datatype State =
    | Closed | Listen | SynSent | SynRcvd | Established | FinWait1 | FinWait2
    | Closing | TimeWait | CloseWait | LastAck

  datatype Flags = Flags(fin: bool, syn: bool, rst: bool, psh: bool, ack: bool)

  datatype Segment = Segment(seqNo: uint32, ackNo: uint32, flags: Flags, win: uint16, payload: seq<byte>)

  const NO_FLAGS := Flags(false, false, false, false, false)

  /** What the socket above a connection has been told. `ended` is its end-of-stream mark. */
  datatype Socket =
    | NoSocket
    | Socket(allowHalfOpen: bool, connected: bool, received: seq<byte>, ended: bool, errors: nat)

  datatype Timer = Idle | Armed(delay: nat)

  /** The retransmission fields. `waited` is the time since `seg` was first sent. */
  datatype Rtx = Rtx(timer: Timer, count: nat, seg: Option<Segment>, waited: nat)

  /**
   * Bookkeeping the code does not keep: the initial sequence number, the bytes
   * `write` accepted, the payload bytes taken in order from the peer, and
   * whether a FIN of the peer has been taken.
   */
  datatype Book = Book(isn: uint32, accepted: seq<byte>, consumed: seq<byte>, finTaken: bool)

  /**
   * The connection's fields. `wire` is every segment it has handed to the
   * network, oldest first; `timeWaits` counts the pending TIME_WAIT timers.
   */
  datatype Conn = Conn(
    state: State,
    sendNxt: uint32,
    sendUna: uint32,
    recvNxt: uint32,
    sendBuf: seq<seq<byte>>,
    socket: Socket,
    rtx: Rtx,
    timeWaits: nat,
    registered: bool,
    wire: seq<Segment>,
    book: Book)

  // ---------- sending ----------

  function TxSeg(c: Conn, seg: Segment): Conn {
    c.(wire := c.wire + [seg])
  }

  function Outgoing(c: Conn, flags: Flags, win: uint16, payload: seq<byte>): Segment {
    Segment(c.sendNxt, c.recvNxt, flags, win, payload)
  }

  function ClearRtx(c: Conn): Conn {
    c.(rtx := Rtx(Idle, 0, None, c.rtx.waited))
  }

  function StartRtx(c: Conn, seg: Segment): Conn {
    c.(rtx := Rtx(Armed(1000), 0, Some(seg), 0))
  }

  function Cleanup(c: Conn): Conn {
    ClearRtx(c).(registered := false)
  }

  function TxAck(c: Conn): Conn {
    TxSeg(c, Outgoing(c, NO_FLAGS.(ack := true), WIN, []))
  }

  /** SYN, SYN+ACK and FIN all take one sequence number and are guarded by the timer. */
  function TxGuarded(c: Conn, seg: Segment): Conn {
    StartRtx(TxSeg(c.(sendNxt := ToUint32(c.sendNxt + 1)), seg), seg)
  }

  function TxFin(c: Conn): Conn {
    TxGuarded(c, Outgoing(c, NO_FLAGS.(fin := true, ack := true), WIN, []))
  }

  function SendSyn(c: Conn, isn: uint32): Conn {
    var c1 := c.(sendNxt := isn, sendUna := isn, book := c.book.(isn := isn));
    TxGuarded(c1, Segment(isn, 0, NO_FLAGS.(syn := true), WIN, [])).(state := SynSent)
  }

  function SendSynAck(c: Conn): Conn {
    TxGuarded(c, Outgoing(c, NO_FLAGS.(syn := true, ack := true), WIN, []))
  }

  function SendRst(c: Conn): Conn {
    Cleanup(TxSeg(c, Outgoing(c, NO_FLAGS.(rst := true, ack := true), 0, [])).(state := Closed))
  }

  /** The chunks of at most MSS bytes that carry `data`; the last one is pushed. */
  function TxChunks(c: Conn, data: seq<byte>): Conn
    decreases |data|
  {
    if data == [] then c
    else
      var k := if |data| < MSS then |data| else MSS;
      var seg := Outgoing(c, NO_FLAGS.(ack := true, psh := |data| <= MSS), WIN, data[..k]);
      TxChunks(TxSeg(c.(sendNxt := ToUint32(c.sendNxt + k)), seg), data[k..])
  }

  function TxData(c: Conn, data: seq<byte>): Conn {
    if c.state != Established then c else TxChunks(c, data)
  }

  lemma {:induction false} TxChunksKeeps(c: Conn, data: seq<byte>)
    ensures var d := TxChunks(c, data);
            d == c.(sendNxt := d.sendNxt, wire := d.wire)
    decreases |data|
  {
    if data != [] {
      var k := if |data| < MSS then |data| else MSS;
      var seg := Outgoing(c, NO_FLAGS.(ack := true, psh := |data| <= MSS), WIN, data[..k]);
      TxChunksKeeps(TxSeg(c.(sendNxt := ToUint32(c.sendNxt + k)), seg), data[k..]);
    }
  }

  function Flush(c: Conn): Conn
    decreases |c.sendBuf|
  {
    if c.sendBuf != [] && c.state == Established then
      var c1 := c.(sendBuf := c.sendBuf[1..]);
      TxChunksKeeps(c1, c.sendBuf[0]);
      Flush(TxData(c1, c.sendBuf[0]))
    else c
  }

  // ---------- the socket's callbacks ----------

  function OnConnect(c: Conn): Conn {
    match c.socket
    case NoSocket => c
    case Socket(_, _, _, _, _) => c.(socket := c.socket.(connected := true))
  }

  function OnError(c: Conn): Conn {
    match c.socket
    case NoSocket => c
    case Socket(_, _, _, _, errors) => c.(socket := c.socket.(errors := errors + 1))
  }

  function OnData(c: Conn, payload: seq<byte>): Conn {
    match c.socket
    case NoSocket => c
    case Socket(_, _, received, ended, _) =>
      if ended then c else c.(socket := c.socket.(received := received + payload))
  }

  function OnEnd(c: Conn): Conn {
    match c.socket
    case NoSocket => c
    case Socket(allowHalfOpen, _, _, ended, _) =>
      if ended then c
      else
        var c1 := c.(socket := c.socket.(ended := true));
        if allowHalfOpen then c1 else Close(c1)
  }

  // ---------- user calls ----------

  /** Whether `write` accepts data in this state; otherwise it throws. */
  predicate Writable(c: Conn) {
    c.state == Established || c.state == SynSent || c.state == SynRcvd
  }

  function Write(c: Conn, data: seq<byte>): Conn {
    if !Writable(c) then c
    else
      var c1 := c.(book := c.book.(accepted := c.book.accepted + data));
      if c.state == Established then TxData(c1, data) else c1.(sendBuf := c1.sendBuf + [data])
  }

  function Close(c: Conn): Conn {
    if c.state == Established then TxFin(c).(state := FinWait1)
    else if c.state == CloseWait then TxFin(c).(state := LastAck)
    else c
  }

  function Destroy(c: Conn): Conn {
    if c.state != Closed then SendRst(c) else c
  }

  // ---------- timers ----------

  /** The retransmission timer fires. */
  function Retransmit(c: Conn): Conn {
    if c.rtx.count >= MAX_RETRIES then Cleanup(OnError(c).(state := Closed))
    else if c.rtx.seg.None? then c.(rtx := c.rtx.(timer := Idle))
    else
      var elapsed := if c.rtx.timer.Armed? then c.rtx.timer.delay else 0;
      var n := c.rtx.count + 1;
      TxSeg(c, c.rtx.seg.value).(rtx := Rtx(Armed(1000 * Pow2(n)), n, c.rtx.seg, c.rtx.waited + elapsed))
  }

  function StartTimeWait(c: Conn): Conn {
    c.(timeWaits := c.timeWaits + 1)
  }

  /** One of the 2000 ms timers of TIME_WAIT fires. Nothing ever cancels these timers. */
  function TimeWaitOver(c: Conn): Conn {
    Cleanup(c.(state := Closed, timeWaits := if c.timeWaits > 0 then c.timeWaits - 1 else 0))
  }

  // ---------- segment arrival ----------

  function AckUpdate(c: Conn, t: Segment): Conn {
    if t.flags.ack then c.(sendUna := t.ackNo) else c
  }

  /** In-order payload: the test, and its effect on the receive window. */
  predicate InOrder(c: Conn, t: Segment) {
    |t.payload| > 0 && t.seqNo == c.recvNxt
  }

  function Consume(c: Conn, t: Segment): Conn {
    c.(recvNxt := ToUint32(c.recvNxt + |t.payload|), book := c.book.(consumed := c.book.consumed + t.payload))
  }

  /** A FIN is taken: move the window past it, change state, acknowledge, tell the socket. */
  function RecvFin(c: Conn, nextRecv: uint32, nextState: State): Conn {
    OnEnd(TxAck(c.(recvNxt := nextRecv, state := nextState, book := c.book.(finTaken := true))))
  }

  function OnSynSent(c: Conn, t: Segment): Conn {
    if t.flags.syn && t.flags.ack then
      if t.ackNo != c.sendNxt then SendRst(c)
      else
        var c1 := c.(recvNxt := ToUint32(t.seqNo + 1), sendUna := t.ackNo, state := Established);
        Flush(OnConnect(TxAck(ClearRtx(c1))))
    else if t.flags.rst then Cleanup(OnError(c.(state := Closed)))
    else c
  }

  /** `listening`: the port still has a server, which then builds a socket on the connection. */
  function OnSynRcvd(c: Conn, t: Segment, listening: bool): Conn {
    if t.flags.ack then
      var c1 := ClearRtx(c.(sendUna := t.ackNo, state := Established));
      if listening then c1.(socket := Socket(false, false, [], false, 0)) else c1
    else if t.flags.rst then Cleanup(c.(state := Closed))
    else c
  }

  function OnEstablished(c: Conn, t: Segment): Conn {
    if t.flags.rst then Cleanup(OnError(c.(state := Closed)))
    else
      var c1 := AckUpdate(c, t);
      var c2 := if InOrder(c1, t) then OnData(TxAck(Consume(c1, t)), t.payload) else c1;
      if t.flags.fin then RecvFin(c2, ToUint32(c2.recvNxt + 1), CloseWait) else c2
  }

  /** The FIN and ACK flags in FIN_WAIT_1. Any ACK at all counts as covering our FIN. */
  function FinWait1Flags(c: Conn, t: Segment): Conn {
    if t.flags.fin && t.flags.ack then
      StartTimeWait(RecvFin(ClearRtx(c), ToUint32(c.recvNxt + 1), TimeWait))
    else if t.flags.fin then
      RecvFin(c, ToUint32(c.recvNxt + 1), Closing)
    else if t.flags.ack then ClearRtx(c).(state := FinWait2)
    else c
  }

  function OnFinWait1(c: Conn, t: Segment): Conn {
    var c1 := AckUpdate(c, t);
    FinWait1Flags(if InOrder(c1, t) then TxAck(OnData(Consume(c1, t), t.payload)) else c1, t)
  }

  function OnFinWait2(c: Conn, t: Segment): Conn {
    var c1 := if InOrder(c, t) then TxAck(OnData(Consume(c, t), t.payload)) else c;
    if t.flags.fin then
      StartTimeWait(RecvFin(c1, ToUint32(t.seqNo + |t.payload| + 1), TimeWait))
    else c1
  }

  function HandleSeg(c: Conn, t: Segment, listening: bool): Conn {
    match c.state
    case SynSent => OnSynSent(c, t)
    case SynRcvd => OnSynRcvd(c, t, listening)
    case Established => OnEstablished(c, t)
    case FinWait1 => OnFinWait1(c, t)
    case FinWait2 => OnFinWait2(c, t)
    case CloseWait => AckUpdate(c, t)
    case Closing => if t.flags.ack then StartTimeWait(ClearRtx(c).(state := TimeWait)) else c
    case LastAck => if t.flags.ack then Cleanup(ClearRtx(c).(state := Closed)) else c
    case TimeWait => if t.flags.fin then TxAck(c) else c
    case Closed => c
    case Listen => c
  }

  // ---------- opening ----------

  /** The fields a new connection object starts with. */
  function Fresh(socket: Socket): Conn {
    Conn(Closed, 0, 0, 0, [], socket, Rtx(Idle, 0, None, 0), 0, true, [], Book(0, [], [], false))
  }

  function ActiveOpen(allowHalfOpen: bool, isn: uint32): Conn {
    SendSyn(Fresh(Socket(allowHalfOpen, false, [], false, 0)), isn)
  }

  /** A listening stack answers the SYN `t`, choosing `isn`. */
  function PassiveOpen(t: Segment, isn: uint32): Conn {
    SendSynAck(Fresh(NoSocket).(
      state := SynRcvd, recvNxt := ToUint32(t.seqNo + 1), sendNxt := isn, sendUna := isn, book := Book(isn, [], [], false)))
  }

  /** What the stack answers to a segment that belongs to no connection and no listener. */
  function ResetReply(t: Segment): Segment {
    if t.flags.ack then Segment(t.ackNo, 0, NO_FLAGS.(rst := true), 0, [])
    else
      var len := |t.payload| + (if t.flags.syn then 1 else 0) + (if t.flags.fin then 1 else 0);
      Segment(0, ToUint32(t.seqNo + len), NO_FLAGS.(rst := true, ack := true), 0, [])
  }
}
