/**
 * Every run of one connection, whatever segments arrive and however timers
 * and user calls interleave: the state diagram is only walked forward, the
 * retransmission timer is armed exactly while a SYN or FIN is outstanding,
 * and neither is ever resent more than five times.
 */
module TcpLifecycle {
  import opened Words
  import opened TcpModel

  // ---------- runs ----------

  datatype Event =
    | Arrive(t: Segment, listening: bool)
    | RtxFires
    | TimeWaitFires
    | UserWrite(data: seq<byte>)
    | UserClose
    | UserDestroy

  /** A timer fires only when pending; `write` is only ever called by the socket. */
  predicate Enabled(c: Conn, e: Event) {
    match e
    case RtxFires => c.rtx.timer.Armed?
    case TimeWaitFires => c.timeWaits > 0
    case UserWrite(_) => c.socket.Socket?
    case _ => true
  }

  function Step(c: Conn, e: Event): Conn {
    match e
    case Arrive(t, listening) => HandleSeg(c, t, listening)
    case RtxFires => Retransmit(c)
    case TimeWaitFires => TimeWaitOver(c)
    case UserWrite(data) => Write(c, data)
    case UserClose => Close(c)
    case UserDestroy => Destroy(c)
  }

  ghost predicate Next(c: Conn, d: Conn) {
    exists e :: Enabled(c, e) && d == Step(c, e)
  }

  ghost predicate Opened(c: Conn) {
    || (exists half, isn :: c == ActiveOpen(half, isn))
    || (exists t, isn :: c == PassiveOpen(t, isn))
  }

  ghost predicate IsRun(cs: seq<Conn>) {
    && |cs| > 0
    && Opened(cs[0])
    && forall i :: 0 < i < |cs| ==> Next(cs[i - 1], cs[i])
  }

  // ---------- the diagram of section 3.3.2 of RFC 9293 ----------

  predicate Edge(s: State, s': State) {
    match s
    case SynSent => s' in {Established, Closed}
    case SynRcvd => s' in {Established, Closed}
    case Established => s' in {FinWait1, CloseWait, Closed}
    case FinWait1 => s' in {FinWait2, Closing, TimeWait, Closed}
    case FinWait2 => s' in {TimeWait, Closed}
    case Closing => s' in {TimeWait, Closed}
    case CloseWait => s' in {LastAck, Closed}
    case LastAck => s' == Closed
    case TimeWait => s' == Closed
    case Closed => false
    case Listen => false
  }

  function Rank(s: State): nat {
    match s
    case Listen => 0
    case SynSent => 1
    case SynRcvd => 1
    case Established => 2
    case FinWait1 => 3
    case CloseWait => 3
    case FinWait2 => 4
    case Closing => 4
    case LastAck => 4
    case TimeWait => 5
    case Closed => 6
  }

  /**
   * The state changes of one step: none, one edge, or two, when the end of
   * the stream makes a socket that is not half-open close at once.
   */
  predicate Walk(s: State, s': State) {
    || s == s'
    || Edge(s, s')
    || (s == Established && Edge(Established, CloseWait) && s' == LastAck && Edge(CloseWait, LastAck))
  }

  // ---------- the invariant ----------

  /** The states with an unacknowledged SYN or FIN of our own. */
  predicate Guarded(s: State) {
    s in {SynSent, SynRcvd, FinWait1, Closing, LastAck}
  }

  function CountSyn(w: seq<Segment>): nat {
    if w == [] then 0 else CountSyn(w[..|w| - 1]) + if w[|w| - 1].flags.syn then 1 else 0
  }

  function CountFin(w: seq<Segment>): nat {
    if w == [] then 0 else CountFin(w[..|w| - 1]) + if w[|w| - 1].flags.fin then 1 else 0
  }

  lemma CountAppend(w: seq<Segment>, s: Segment)
    ensures CountSyn(w + [s]) == CountSyn(w) + if s.flags.syn then 1 else 0
    ensures CountFin(w + [s]) == CountFin(w) + if s.flags.fin then 1 else 0
  {
    assert (w + [s])[..|w|] == w;
  }

  predicate TimerInv(c: Conn) {
    && c.state != Listen
    && (c.rtx.timer.Armed? <==> Guarded(c.state))
    && (c.rtx.seg.Some? <==> Guarded(c.state))
    && (Guarded(c.state) ==>
          && c.rtx.count <= MAX_RETRIES
          && c.rtx.timer.delay == 1000 * Pow2(c.rtx.count)
          && c.rtx.waited == 1000 * (Pow2(c.rtx.count) - 1)
          && c.rtx.seg.value.flags.syn == (c.state in {SynSent, SynRcvd})
          && c.rtx.seg.value.flags.fin == (c.state !in {SynSent, SynRcvd}))
  }

  predicate CountInv(c: Conn) {
    && CountSyn(c.wire) <= 1 + MAX_RETRIES
    && CountFin(c.wire) <= 1 + MAX_RETRIES
    && (c.state in {SynSent, SynRcvd} ==> CountSyn(c.wire) == 1 + c.rtx.count)
    && (c.state in {SynSent, SynRcvd, Established, CloseWait} ==> CountFin(c.wire) == 0)
    && (c.state in {FinWait1, Closing, LastAck} ==> CountFin(c.wire) == 1 + c.rtx.count)
  }

  predicate Inv(c: Conn) {
    && TimerInv(c)
    && CountInv(c)
    && (c.registered <==> c.state != Closed)
    && (c.state == TimeWait ==> c.timeWaits > 0)
    && (c.state == SynRcvd ==> c.socket == NoSocket && c.sendBuf == [])
  }

  lemma ActiveOpenInv(half: bool, isn: uint32)
    ensures var c := ActiveOpen(half, isn); Inv(c) && c.state == SynSent
  {
    CountAppend([], Segment(isn, 0, NO_FLAGS.(syn := true), WIN, []));
  }

  lemma PassiveOpenInv(t: Segment, isn: uint32)
    ensures var c := PassiveOpen(t, isn); Inv(c) && c.state == SynRcvd
  {
    CountAppend([], Segment(isn, ToUint32(t.seqNo + 1), NO_FLAGS.(syn := true, ack := true), WIN, []));
  }

  lemma OpenedInv(c: Conn)
    requires Opened(c)
    ensures Inv(c) && c.state in {SynSent, SynRcvd}
  {
    if half, isn :| c == ActiveOpen(half, isn) {
      ActiveOpenInv(half, isn);
    } else {
      var t, isn :| c == PassiveOpen(t, isn);
      PassiveOpenInv(t, isn);
    }
  }

  // ---------- sending data changes neither the state nor the counts ----------

  lemma {:induction false} TxChunksCounts(c: Conn, data: seq<byte>)
    ensures var d := TxChunks(c, data);
            && d == c.(sendNxt := d.sendNxt, wire := d.wire)
            && CountSyn(d.wire) == CountSyn(c.wire) && CountFin(d.wire) == CountFin(c.wire)
    decreases |data|
  {
    if data != [] {
      var k := if |data| < MSS then |data| else MSS;
      var seg := Outgoing(c, NO_FLAGS.(ack := true, psh := |data| <= MSS), WIN, data[..k]);
      CountAppend(c.wire, seg);
      TxChunksCounts(TxSeg(c.(sendNxt := ToUint32(c.sendNxt + k)), seg), data[k..]);
    }
  }

  lemma {:induction false} FlushCounts(c: Conn)
    ensures var d := Flush(c);
            && d == c.(sendNxt := d.sendNxt, wire := d.wire, sendBuf := d.sendBuf)
            && (c.state == Established ==> d.sendBuf == [])
            && CountSyn(d.wire) == CountSyn(c.wire) && CountFin(d.wire) == CountFin(c.wire)
    decreases |c.sendBuf|
  {
    if c.sendBuf != [] && c.state == Established {
      var c1 := c.(sendBuf := c.sendBuf[1..]);
      TxChunksCounts(c1, c.sendBuf[0]);
      FlushCounts(TxData(c1, c.sendBuf[0]));
    }
  }

  // ---------- one step ----------

  lemma CloseStep(c: Conn)
    requires Inv(c)
    ensures Inv(Close(c)) && Walk(c.state, Close(c).state)
  {
    hide CountSyn, CountFin, ToUint32;
    CountAppend(c.wire, Outgoing(c, NO_FLAGS.(fin := true, ack := true), WIN, []));
  }

  lemma DestroyStep(c: Conn)
    requires Inv(c)
    ensures Inv(Destroy(c)) && Walk(c.state, Destroy(c).state) && Destroy(c).state == Closed
  {
    hide CountSyn, CountFin, ToUint32, Pow2;
    CountAppend(c.wire, Outgoing(c, NO_FLAGS.(rst := true, ack := true), 0, []));
  }

  lemma WriteStep(c: Conn, data: seq<byte>)
    requires Inv(c) && c.socket.Socket?
    ensures Inv(Write(c, data)) && Write(c, data).state == c.state
  {
    TxChunksCounts(c.(book := c.book.(accepted := c.book.accepted + data)), data);
  }

  lemma RetransmitStep(c: Conn)
    requires Inv(c) && c.rtx.timer.Armed?
    ensures Inv(Retransmit(c)) && Walk(c.state, Retransmit(c).state)
    ensures Retransmit(c).state == Closed <==> c.rtx.count == MAX_RETRIES
  {
    CountAppend(c.wire, c.rtx.seg.value);
  }

  /** `d` differs from `c` in nothing the invariant speaks of, except perhaps the state. */
  predicate Alike(c: Conn, d: Conn) {
    && d.rtx == c.rtx && d.registered == c.registered && d.timeWaits == c.timeWaits
    && d.sendBuf == c.sendBuf && (d.socket.NoSocket? <==> c.socket.NoSocket?)
    && CountSyn(d.wire) == CountSyn(c.wire) && CountFin(d.wire) == CountFin(c.wire)
  }

  lemma AckAlike(c: Conn)
    ensures Alike(c, TxAck(c)) && TxAck(c).state == c.state && TxAck(c).socket == c.socket
  {
    CountAppend(c.wire, Outgoing(c, NO_FLAGS.(ack := true), WIN, []));
  }

  lemma DeliverAlike(c: Conn, t: Segment)
    ensures var d := OnData(TxAck(Consume(c, t)), t.payload); Alike(c, d) && d.state == c.state
    ensures var d := TxAck(OnData(Consume(c, t), t.payload)); Alike(c, d) && d.state == c.state
  {
    AckAlike(Consume(c, t));
    AckAlike(OnData(Consume(c, t), t.payload));
  }

  lemma AlikeInv(c: Conn, d: Conn)
    requires Inv(c) && Alike(c, d) && d.state == c.state
    ensures Inv(d)
  {
  }

  lemma RecvFinAfterClose(c: Conn, nextRecv: uint32, s: State)
    requires s in {TimeWait, Closing}
    ensures var d := RecvFin(c, nextRecv, s); Alike(c, d) && d.state == s
  {
    hide CountSyn, CountFin, TxAck;
    AckAlike(c.(recvNxt := nextRecv, state := s, book := c.book.(finTaken := true)));
  }

  lemma RecvFinBeforeClose(c: Conn, nextRecv: uint32)
    requires Inv(c) && c.state == Established
    ensures var d := RecvFin(c, nextRecv, CloseWait); Inv(d) && d.state in {CloseWait, LastAck}
  {
    var c1 := c.(recvNxt := nextRecv, state := CloseWait, book := c.book.(finTaken := true));
    assert Inv(c1);
    AckAlike(c1);
    var c2 := TxAck(c1);
    AlikeInv(c1, c2);
    if c2.socket.Socket? {
      var c3 := c2.(socket := c2.socket.(ended := true));
      AlikeInv(c2, c3);
      CloseStep(c3);
    }
  }

  lemma SynSentStep(c: Conn, t: Segment)
    requires Inv(c) && c.state == SynSent
    ensures Inv(OnSynSent(c, t)) && Walk(c.state, OnSynSent(c, t).state)
  {
    hide Flush, TxAck, SendRst, CountSyn, CountFin, ToUint32, Pow2;
    if t.flags.syn && t.flags.ack {
      if t.ackNo != c.sendNxt {
        DestroyStep(c);
      } else {
        SynAckStep(c, t);
      }
    }
  }

  lemma SynAckStep(c: Conn, t: Segment)
    requires Inv(c) && c.state == SynSent && t.flags.syn && t.flags.ack && t.ackNo == c.sendNxt
    ensures Inv(OnSynSent(c, t)) && OnSynSent(c, t).state == Established
  {
    hide Flush, TxAck, CountSyn, CountFin, ToUint32, Pow2;
    var c1 := ClearRtx(c.(recvNxt := ToUint32(t.seqNo + 1), sendUna := t.ackNo, state := Established));
    AckAlike(c1);
    FlushCounts(OnConnect(TxAck(c1)));
  }

  lemma EstablishedStep(c: Conn, t: Segment)
    requires Inv(c) && c.state == Established
    ensures Inv(OnEstablished(c, t)) && Walk(c.state, OnEstablished(c, t).state)
  {
    hide RecvFin, OnData, TxAck, Consume, CountSyn, CountFin;
    if !t.flags.rst {
      var c1 := AckUpdate(c, t);
      AlikeInv(c, c1);
      DeliverAlike(c1, t);
      var c2 := if InOrder(c1, t) then OnData(TxAck(Consume(c1, t)), t.payload) else c1;
      AlikeInv(c1, c2);
      RecvFinBeforeClose(c2, ToUint32(c2.recvNxt + 1));
    }
  }

  lemma FinWait1FlagsStep(c: Conn, t: Segment)
    requires Inv(c) && c.state == FinWait1
    ensures Inv(FinWait1Flags(c, t)) && Walk(c.state, FinWait1Flags(c, t).state)
  {
    hide RecvFin, CountSyn, CountFin;
    RecvFinAfterClose(ClearRtx(c), ToUint32(c.recvNxt + 1), TimeWait);
    RecvFinAfterClose(c, ToUint32(c.recvNxt + 1), Closing);
  }

  lemma FinWait1Step(c: Conn, t: Segment)
    requires Inv(c) && c.state == FinWait1
    ensures Inv(OnFinWait1(c, t)) && Walk(c.state, OnFinWait1(c, t).state)
  {
    hide RecvFin, OnData, TxAck, Consume, FinWait1Flags, CountSyn, CountFin;
    var c1 := AckUpdate(c, t);
    AlikeInv(c, c1);
    DeliverAlike(c1, t);
    var c2 := if InOrder(c1, t) then TxAck(OnData(Consume(c1, t), t.payload)) else c1;
    AlikeInv(c1, c2);
    FinWait1FlagsStep(c2, t);
  }

  lemma FinWait2Step(c: Conn, t: Segment)
    requires Inv(c) && c.state == FinWait2
    ensures Inv(OnFinWait2(c, t)) && Walk(c.state, OnFinWait2(c, t).state)
  {
    hide RecvFin, OnData, TxAck, Consume, CountSyn, CountFin;
    DeliverAlike(c, t);
    var c1 := if InOrder(c, t) then TxAck(OnData(Consume(c, t), t.payload)) else c;
    AlikeInv(c, c1);
    RecvFinAfterClose(c1, ToUint32(t.seqNo + |t.payload| + 1), TimeWait);
  }

  lemma ArriveStep(c: Conn, t: Segment, listening: bool)
    requires Inv(c)
    ensures Inv(HandleSeg(c, t, listening)) && Walk(c.state, HandleSeg(c, t, listening).state)
  {
    hide OnSynSent, OnEstablished, OnFinWait1, OnFinWait2, TxAck, CountSyn, CountFin;
    match c.state
    case SynSent => SynSentStep(c, t);
    case Established => EstablishedStep(c, t);
    case FinWait1 => FinWait1Step(c, t);
    case FinWait2 => FinWait2Step(c, t);
    case TimeWait => AckAlike(c);
    case _ =>
  }

  /** What every step keeps, and how far it moves along the diagram. */
  lemma StepInv(c: Conn, e: Event)
    requires Inv(c) && Enabled(c, e)
    ensures Inv(Step(c, e))
    ensures Walk(c.state, Step(c, e).state)
  {
    match e
    case Arrive(t, listening) => ArriveStep(c, t, listening);
    case RtxFires => RetransmitStep(c);
    case TimeWaitFires =>
    case UserWrite(data) => WriteStep(c, data);
    case UserClose => CloseStep(c);
    case UserDestroy => DestroyStep(c);
  }

  // ---------- whole runs ----------

  /** A closed connection answers nothing and sends nothing. */
  lemma StepWhenClosed(c: Conn, e: Event)
    requires Inv(c) && Enabled(c, e) && c.state == Closed
    ensures Step(c, e).wire == c.wire && Step(c, e).state == Closed
  {
  }

  lemma NextInv(c: Conn, d: Conn)
    requires Inv(c) && Next(c, d)
    ensures Inv(d) && Walk(c.state, d.state)
    ensures c.state == Closed ==> d.wire == c.wire
  {
    hide Step, Enabled, Inv, Walk;
    var e :| Enabled(c, e) && d == Step(c, e);
    StepInv(c, e);
    if c.state == Closed {
      StepWhenClosed(c, e);
    }
  }

  lemma {:induction false} RunInv(cs: seq<Conn>)
    requires IsRun(cs)
    ensures forall i :: 0 <= i < |cs| ==> Inv(cs[i])
    decreases |cs|
  {
    hide Next, Opened, Inv;
    var n := |cs| - 1;
    if n == 0 {
      OpenedInv(cs[0]);
    } else {
      RunInv(cs[..n]);
      assert Inv(cs[..n][n - 1]);
      NextInv(cs[n - 1], cs[n]);
      forall i | 0 <= i < |cs|
        ensures Inv(cs[i])
      {
        assert i < n ==> Inv(cs[..n][i]);
      }
    }
  }

  /** Each step of a run is a walk along the diagram, so a change of state raises the rank. */
  lemma RunWalksForward(cs: seq<Conn>, i: nat)
    requires IsRun(cs) && i + 1 < |cs|
    ensures Walk(cs[i].state, cs[i + 1].state)
    ensures cs[i].state == cs[i + 1].state || Rank(cs[i].state) < Rank(cs[i + 1].state)
  {
    hide Next, Opened, Inv;
    RunInv(cs);
    NextInv(cs[i], cs[i + 1]);
  }

  /** So no state is ever entered again once left, and CLOSED is absorbing and silent. */
  lemma {:induction false} RunNeverReturns(cs: seq<Conn>, i: nat, j: nat)
    requires IsRun(cs) && i <= j < |cs|
    ensures cs[i].state == cs[j].state || Rank(cs[i].state) < Rank(cs[j].state)
    ensures cs[i].state == Closed ==> cs[j].state == Closed && cs[j].wire == cs[i].wire
    decreases j - i
  {
    hide Next, Opened, Inv, Walk;
    if i < j {
      RunNeverReturns(cs, i, j - 1);
      RunWalksForward(cs, j - 1);
      RunInv(cs);
      NextInv(cs[j - 1], cs[j]);
    }
  }

  /** The timer runs exactly while a SYN or FIN of ours is outstanding, doubling from one second. */
  lemma RunTimer(cs: seq<Conn>, i: nat)
    requires IsRun(cs) && i < |cs|
    ensures cs[i].rtx.timer.Armed? <==> cs[i].state in {SynSent, SynRcvd, FinWait1, Closing, LastAck}
    ensures cs[i].rtx.timer.Armed? ==> cs[i].rtx.timer.delay == 1000 * Pow2(cs[i].rtx.count)
    ensures cs[i].registered <==> cs[i].state != Closed
  {
    RunInv(cs);
  }

  /** A SYN is sent at most six times in all, and so is a FIN. */
  lemma RunResends(cs: seq<Conn>, i: nat)
    requires IsRun(cs) && i < |cs|
    ensures CountSyn(cs[i].wire) <= 6 && CountFin(cs[i].wire) <= 6
  {
    RunInv(cs);
  }

  /** The timer gives up exactly on its sixth firing, 1000 * (2^6 - 1) ms after the first send. */
  lemma RunGivesUp(cs: seq<Conn>, i: nat)
    requires IsRun(cs) && i < |cs| && cs[i].rtx.timer.Armed?
    ensures var d := Retransmit(cs[i]);
            d.state == Closed <==> cs[i].rtx.waited + cs[i].rtx.timer.delay == 1000 * (Pow2(6) - 1)
  {
    RunInv(cs);
    RetransmitStep(cs[i]);
    Pow2Grows(cs[i].rtx.count, 5);
  }

  lemma {:induction false} Pow2Grows(m: nat, n: nat)
    requires m <= n
    ensures Pow2(m) <= Pow2(n) && (m < n ==> Pow2(m) < Pow2(n))
    decreases n - m
  {
    if m < n {
      Pow2Positive(m);
      Pow2Grows(m + 1, n);
    }
  }
}
