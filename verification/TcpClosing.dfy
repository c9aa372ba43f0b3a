/**
 * What acknowledgements and FINs say in runs of two connections: every
 * acknowledgement number is a point its sender had reached, so a number
 * tells a closing side whether the peer has its FIN, and a FIN's own number
 * tells the peer whether the stream it ends is complete.
 */
module TcpClosing {
  import opened Words
  import opened TcpModel
  import opened TcpLifecycle
  import opened TcpDelivery
  import opened TcpArrival
  import opened TcpSends
  import opened TcpNetwork

  // ---------- a FIN ends the stream of the bytes accepted ----------

  /** A FIN carries the number after all the bytes ever sent, and none is left to send. */
  predicate FinPlaced(c: Conn, s: Segment) {
    s.flags.fin ==>
      && s.payload == [] && s.flags.ack && !s.flags.syn && !s.flags.rst
      && s.seqNo == ToUint32(c.book.isn + 1 + |Payloads(c.wire)|) && c.sendBuf == []
  }

  predicate FinInv(c: Conn) {
    && (forall s :: s in c.wire ==> FinPlaced(c, s))
    && (c.rtx.seg.Some? ==> FinPlaced(c, c.rtx.seg.value))
    && (c.state == CloseWait ==> c.sendBuf == [])
    && (HasClosed(c.state) ==> c.sendNxt == ToUint32(c.book.isn + 2 + |Payloads(c.wire)|) && c.sendBuf == [])
  }

  predicate FinSent(c: Conn) {
    exists s :: s in c.wire && s.flags.fin
  }

  lemma {:induction false} NoFinCounted(w: seq<Segment>)
    ensures CountFin(w) == 0 <==> forall s :: s in w ==> !s.flags.fin
  {
    if w != [] {
      var n := |w| - 1;
      NoFinCounted(w[..n]);
      assert w == w[..n] + [w[n]];
    }
  }

  /** Before the own side is closed there is no FIN to place. */
  lemma NoFinYet(c: Conn)
    requires Inv(c) && c.state in {SynSent, SynRcvd, Established, CloseWait}
    ensures !FinSent(c) && (c.rtx.seg.Some? ==> !c.rtx.seg.value.flags.fin)
  {
    NoFinCounted(c.wire);
  }

  /** Nothing accepted and nothing buffered means nothing sent. */
  lemma SamePayloads(c: Conn, d: Conn)
    requires SendInv(c) && SendInv(d) && d.sendBuf == c.sendBuf && d.book.accepted == c.book.accepted
    ensures Payloads(d.wire) == Payloads(c.wire)
  {
    hide Payloads, Concat, Numbered;
    var p, q := Payloads(c.wire), Payloads(d.wire);
    var b := Concat(c.sendBuf);
    assert |p| == |q|;
    assert p == (p + b)[..|p|] && q == (q + b)[..|q|];
  }

  lemma FinKept(c: Conn, d: Conn, s: Segment)
    requires FinPlaced(c, s) && d.book.isn == c.book.isn && d.sendBuf == c.sendBuf && Payloads(d.wire) == Payloads(c.wire)
    ensures FinPlaced(d, s)
  {
  }

  /** The own FIN, when it goes out, gets its place. */
  lemma FinNew(c: Conn, d: Conn, mid: uint32, s: Segment)
    requires Good(c) && FinInv(c) && New(c, d, mid, s) && d.book.isn == c.book.isn
    requires d.sendBuf == c.sendBuf && Payloads(d.wire) == Payloads(c.wire)
    ensures FinPlaced(d, s)
  {
    hide Inv, RecvInv, Numbered, Payloads, Concat;
  }

  lemma NextSent(isn: uint32, n: nat)
    ensures ToUint32(ToUint32(isn + 1 + n) + 1) == ToUint32(isn + 2 + n)
  {
  }

  lemma FinStep(c: Conn, d: Conn, mid: uint32)
    requires Good(c) && Good(d) && FinInv(c) && Sends(c, d, mid) && d.book.isn == c.book.isn
    ensures FinInv(d)
    ensures FinSent(c) ==> Payloads(d.wire) == Payloads(c.wire)
  {
    hide Inv, SendInv, RecvInv, FinPlaced, New, Payloads, ToUint32;
    if FinSent(c) && Open(c.state) {
      NoFinYet(c);
    }
    if Open(c.state) && Open(d.state) {
      StillOpen(d);
    } else {
      SamePayloads(c, d);
      forall s | s in d.wire ensures FinPlaced(d, s) {
        if s in c.wire || c.rtx.seg == Some(s) {
          FinKept(c, d, s);
        } else {
          FinNew(c, d, mid, s);
        }
      }
      if d.rtx.seg.Some? && d.rtx.seg != c.rtx.seg {
        FinNew(c, d, mid, d.rtx.seg.value);
      } else if d.rtx.seg.Some? {
        FinKept(c, d, d.rtx.seg.value);
      }
      ClosedCounter(c, d, mid);
    }
  }

  lemma StillOpen(d: Conn)
    requires Inv(d) && Open(d.state)
    ensures FinInv(d)
  {
    NoFinYet(d);
    hide Inv, Payloads;
    assert forall s :: s in d.wire ==> !s.flags.fin;
  }

  lemma ClosedCounter(c: Conn, d: Conn, mid: uint32)
    requires Good(c) && FinInv(c) && Sends(c, d, mid) && d.book.isn == c.book.isn
    requires d.sendBuf == c.sendBuf && Payloads(d.wire) == Payloads(c.wire)
    ensures d.state == CloseWait ==> d.sendBuf == []
    ensures HasClosed(d.state) ==> d.sendNxt == ToUint32(d.book.isn + 2 + |Payloads(d.wire)|) && d.sendBuf == []
  {
    hide Inv, RecvInv, New, Payloads, Numbered, Concat, ToUint32, FinPlaced;
    NextSent(c.book.isn, |Payloads(c.wire)|);
  }

  // ---------- acknowledgement numbers ----------

  /** How far `n` lies past the first byte of what `x` sends. */
  function Place(x: Conn, n: uint32): nat {
    ToUint32(n - x.book.isn - 1)
  }

  /** `n` counts bytes `y` took of what `x` sends, or is where `y` ended up by taking the FIN. */
  predicate Reached(x: Conn, y: Conn, n: uint32) {
    Place(x, n) <= |y.book.consumed| || (y.book.finTaken && n == y.recvNxt)
  }

  /**
   * A FIN that was taken was sent, and the receive point moved past it: past
   * the bytes taken, or, for one taken in FIN_WAIT2, past the bytes sent.
   */
  predicate PastFin(x: Conn, y: Conn) {
    && FinSent(x)
    && (|| y.recvNxt == ToUint32(x.book.isn + 2 + |y.book.consumed|)
        || y.recvNxt == ToUint32(x.book.isn + 2 + |Payloads(x.wire)|))
  }

  /** Whatever `y` acknowledges it has reached. */
  ghost predicate AckInv(x: Conn, y: Conn) {
    && (forall s :: s in y.wire && Acks(s) ==> Reached(x, y, s.ackNo))
    && (y.rtx.seg.Some? && Acks(y.rtx.seg.value) ==> Reached(x, y, y.rtx.seg.value.ackNo))
    && (y.state !in {SynSent, Closed} ==> Reached(x, y, y.recvNxt))
    && (y.book.finTaken ==> PastFin(x, y))
  }

  lemma PlaceOf(x: Conn, k: nat)
    ensures Place(x, ToUint32(x.book.isn + 1 + k)) == ToUint32(k)
  {
  }

  /** The peer sends more, but nothing after its FIN. */
  lemma AckPeerSends(x: Conn, x': Conn, y: Conn)
    requires AckInv(x, y) && x.wire <= x'.wire && x'.book.isn == x.book.isn
    requires FinSent(x) ==> Payloads(x'.wire) == Payloads(x.wire)
    ensures AckInv(x', y)
  {
    hide Payloads, ToUint32, Acks;
    if FinSent(x) {
      var s :| s in x.wire && s.flags.fin;
      assert s in x'.wire;
    }
  }

  /** `d` got at least as far as `y`, and no further once it has the FIN. */
  predicate Further(y: Conn, d: Conn) {
    && |y.book.consumed| <= |d.book.consumed|
    && (y.book.finTaken ==> d.book.finTaken && d.book.consumed == y.book.consumed && d.recvNxt == y.recvNxt)
  }

  lemma ReachedFurther(x: Conn, y: Conn, d: Conn, n: uint32)
    requires Reached(x, y, n) && Further(y, d)
    ensures Reached(x, d, n)
  {
  }

  lemma AckStep(x: Conn, y: Conn, d: Conn, mid: uint32)
    requires AckInv(x, y) && Sends(y, d, mid) && Further(y, d)
    requires d.state !in {SynSent, SynRcvd, Closed} ==> Reached(x, d, mid)
    requires d.state !in {SynSent, Closed} ==> Reached(x, d, d.recvNxt)
    requires d.book.finTaken ==> PastFin(x, d)
    ensures AckInv(x, d)
  {
    hide Reached, Further, PastFin;
    forall s | s in d.wire && Acks(s) ensures Reached(x, d, s.ackNo) {
      if s in y.wire || y.rtx.seg == Some(s) {
        ReachedFurther(x, y, d, s.ackNo);
      }
    }
    if d.rtx.seg.Some? && d.rtx.seg == y.rtx.seg && Acks(d.rtx.seg.value) {
      ReachedFurther(x, y, d, d.rtx.seg.value.ackNo);
    }
  }

  /** What is known of a segment that reaches `y` on the connection from `x`. */
  predicate FromPeer(x: Conn, y: Conn, t: Segment) {
    && (t.flags.fin ==> FinSent(x) && t.payload == [] && t.seqNo == ToUint32(x.book.isn + 1 + |Payloads(x.wire)|))
    && (y.state == SynSent && t.flags.syn ==> t.seqNo == x.book.isn)
  }

  lemma PointReached(x: Conn, y: Conn, n: uint32, k: nat)
    requires n == ToUint32(x.book.isn + 1 + k) && k <= |y.book.consumed| < TWO32
    ensures Reached(x, y, n)
  {
    PlaceOf(x, k);
  }

  lemma MidReached(x: Conn, y: Conn, t: Segment, d: Conn)
    requires Flow(x, y) && Flow(x, d) && Fits(x) && AckInv(x, y) && RecvInv(y) && y.state !in {SynSent, Closed}
    requires Arrived(y, t, d) && Further(y, d)
    ensures Reached(x, d, Mid(y, t))
  {
    hide Payloads, Numbered, SendInv, ToUint32, Reached, Concat;
    if Takes(y, t) {
      var k := |y.book.consumed|;
      assert Mid(y, t) == ToUint32(x.book.isn + 1 + k + |t.payload|) by { Shift(x.book.isn, k, |t.payload|); }
      PointReached(x, d, Mid(y, t), k + |t.payload|);
    } else {
      ReachedFurther(x, y, d, y.recvNxt);
    }
  }

  lemma ArrivalFurther(y: Conn, t: Segment, listening: bool)
    requires RecvInv(y) && Arrived(y, t, HandleSeg(y, t, listening))
    ensures Further(y, HandleSeg(y, t, listening))
  {
    hide HandleSeg, SendInv, ToUint32;
    if y.book.finTaken {
      if y.state == Closed {
        AlreadyClosed(y, t, listening);
      }
      RecvPoint(y, t, listening);
    }
  }

  lemma WindowReached(x: Conn, y: Conn, t: Segment, listening: bool)
    requires Flow(x, y) && Fits(x) && AckInv(x, y) && RecvInv(y) && y.state !in {SynSent, Closed}
    requires Arrived(y, t, HandleSeg(y, t, listening)) && Flow(x, HandleSeg(y, t, listening))
    ensures Reached(x, HandleSeg(y, t, listening), HandleSeg(y, t, listening).recvNxt)
  {
    hide HandleSeg, Payloads, SendInv, ToUint32, Numbered, Concat, AckInv, Fits, Place;
    var d := HandleSeg(y, t, listening);
    ArrivalFurther(y, t, listening);
    RecvPoint(y, t, listening);
    MidReached(x, y, t, d);
  }

  /** Taking the FIN of the peer moves the receive point past it. */
  lemma FinMoves(x: Conn, y: Conn, t: Segment, listening: bool)
    requires Flow(x, y) && AckInv(x, y) && RecvInv(y) && FromPeer(x, y, t)
    requires Arrived(y, t, HandleSeg(y, t, listening))
    ensures var d := HandleSeg(y, t, listening); d.book.finTaken ==> PastFin(x, d)
  {
    hide HandleSeg, Payloads, SendInv, ToUint32, Numbered, Concat;
    ArrivalFurther(y, t, listening);
    if TakesFin(y, t) {
      RecvPoint(y, t, listening);
      NextSent(x.book.isn, |y.book.consumed|);
      NextSent(x.book.isn, |Payloads(x.wire)|);
    }
  }

  lemma AckArrives(x: Conn, y: Conn, t: Segment, listening: bool)
    requires Flow(x, y) && Fits(x) && AckInv(x, y) && Good(y) && RecvInv(y) && FromPeer(x, y, t)
    requires Arrived(y, t, HandleSeg(y, t, listening)) && Flow(x, HandleSeg(y, t, listening))
    ensures AckInv(x, HandleSeg(y, t, listening))
  {
    hide HandleSeg, Reached, Further, Sends, Good, Flow, Mid, FromPeer, AckInv, Arrived, Fits, RecvInv, PastFin;
    var d := HandleSeg(y, t, listening);
    ArrivalSends(y, t, listening);
    ArrivalFurther(y, t, listening);
    AlreadyClosed(y, t, listening);
    if d.state !in {SynSent, Closed} {
      if y.state == SynSent {
        SynReached(x, y, t, listening);
      } else {
        WindowReached(x, y, t, listening);
        MidReached(x, y, t, d);
      }
    }
    FinMoves(x, y, t, listening);
    AckStep(x, y, d, if y.state == SynSent then d.recvNxt else Mid(y, t));
  }

  lemma AlreadyClosed(y: Conn, t: Segment, listening: bool)
    ensures y.state == Closed ==> HandleSeg(y, t, listening) == y
  {
  }

  lemma SynReached(x: Conn, y: Conn, t: Segment, listening: bool)
    requires y.state == SynSent && FromPeer(x, y, t) && Good(y) && HandleSeg(y, t, listening).state !in {SynSent, Closed}
    requires Arrived(y, t, HandleSeg(y, t, listening))
    ensures Reached(x, HandleSeg(y, t, listening), HandleSeg(y, t, listening).recvNxt)
  {
    var d := HandleSeg(y, t, listening);
    ArriveStep(y, t, listening);
    hide HandleSeg, Inv, SendInv, RecvInv, ToUint32, Reached;
    PointReached(x, d, d.recvNxt, 0);
  }

  // ---------- chunks are taken whole ----------

  /** What `y` took is what `x` had sent when some segment of it went out: it ends where a chunk ends. */
  ghost predicate OnBoundary(x: Conn, y: Conn) {
    exists k: nat :: k <= |x.wire| && y.book.consumed == Payloads(x.wire[..k])
  }

  lemma BoundaryPeerSends(x: Conn, x': Conn, y: Conn)
    requires OnBoundary(x, y) && x.wire <= x'.wire
    ensures OnBoundary(x', y)
  {
    hide Payloads;
    var k: nat :| k <= |x.wire| && y.book.consumed == Payloads(x.wire[..k]);
    assert x'.wire[..k] == x.wire[..k];
  }

  lemma ChunkTaken(w: seq<Segment>, isn: uint32, i: nat, taken: seq<byte>)
    requires Numbered(w, isn) && |Payloads(w)| < TWO32
    requires i < |w| && w[i].payload != []
    requires taken <= Payloads(w) && w[i].seqNo == ToUint32(isn + 1 + |taken|)
    ensures taken + w[i].payload == Payloads(w[..i + 1])
  {
    hide Payloads, ToUint32;
    assert Placed(w, isn, i);
    var sent := Payloads(w[..i]);
    PayloadAt(w, i);
    SameNumber(isn, |sent|, |taken|);
    assert taken == Payloads(w)[..|taken|] == sent;
    assert w[..i + 1] == w[..i] + [w[i]];
    PayloadsAppend(w[..i], w[i]);
  }

  lemma BoundaryArrives(x: Conn, y: Conn, i: nat, d: Conn)
    requires Good(x) && Flow(x, y) && Fits(x) && OnBoundary(x, y)
    requires i < |x.wire| && Arrived(y, x.wire[i], d)
    ensures OnBoundary(x, d)
  {
    hide Payloads, Numbered, Inv;
    if Takes(y, x.wire[i]) {
      ChunkTaken(x.wire, x.book.isn, i, y.book.consumed);
      assert d.book.consumed == Payloads(x.wire[..i + 1]);
    }
  }

  // ---------- two connections ----------

  /** What `y` took of `x`, and what it says of it. */
  ghost predicate Linked(x: Conn, y: Conn) {
    AckInv(x, y) && OnBoundary(x, y)
  }

  /** A connection whose SYN was not answered acknowledges nothing. */
  predicate Unanswered(a: Conn) {
    && a.state in {SynSent, Closed} && !a.book.finTaken && a.book.consumed == []
    && (forall s :: s in a.wire ==> !Acks(s))
    && (a.rtx.seg.Some? ==> !Acks(a.rtx.seg.value))
  }

  /** Two sides, each in order, and what each has of the other. */
  ghost predicate Pair(x: Conn, y: Conn) {
    Good(x) && Good(y) && Flow(x, y) && Flow(y, x) && FinInv(x) && FinInv(y) && Linked(x, y) && Linked(y, x)
  }

  /** What every state of a run keeps, before and after the SYN is accepted. */
  ghost predicate NetClosing(n: Net) {
    match n.b
    case None => Good(n.a) && FinInv(n.a) && Unanswered(n.a)
    case Some(b) => Pair(n.a, b)
  }

  lemma Parts(c: Conn)
    requires Good(c)
    ensures Inv(c) && SendInv(c) && RecvInv(c)
  {
  }

  lemma LinkedPeerSends(x: Conn, x': Conn, y: Conn)
    requires Linked(x, y) && x.wire <= x'.wire && x'.book.isn == x.book.isn
    requires FinSent(x) ==> Payloads(x'.wire) == Payloads(x.wire)
    ensures Linked(x', y)
  {
    hide AckInv, OnBoundary, Payloads, FinSent;
    AckPeerSends(x, x', y);
    BoundaryPeerSends(x, x', y);
  }

  lemma IsFromPeer(x: Conn, y: Conn, i: nat)
    requires Good(x) && FinInv(x) && i < |x.wire|
    ensures FromPeer(x, y, x.wire[i])
  {
    hide Good, Payloads, ToUint32;
    var s := x.wire[i];
    assert s in x.wire && FinPlaced(x, s);
    if s.flags.syn {
      SynPlaced(x, i);
    }
  }

  lemma ArrivalPair(x: Conn, y: Conn, i: nat, listening: bool)
    requires Pair(x, y) && Fits(x) && i < |x.wire|
    ensures Pair(x, HandleSeg(y, x.wire[i], listening))
  {
    hide HandleSeg, Good, Flow, FinInv, AckInv, OnBoundary, Arrived, Payloads, FromPeer, FinSent, Fits;
    var t := x.wire[i];
    var d := HandleSeg(y, t, listening);
    ArriveGood(y, t, listening);
    FlowArrives(x, y, i, d);
    ArrivedGrows(y, t, d);
    FlowSends(y, d, x);
    Parts(y);
    IsFromPeer(x, y, i);
    AckArrives(x, y, t, listening);
    BoundaryArrives(x, y, i, d);
    ArrivalSends(y, t, listening);
    FinStep(y, d, if y.state == SynSent then d.recvNxt else Mid(y, t));
    LinkedPeerSends(y, d, x);
  }

  lemma ArrivedGrows(c: Conn, t: Segment, d: Conn)
    requires Arrived(c, t, d)
    ensures c.wire <= d.wire && d.book.isn == c.book.isn
  {
  }

  lemma ResetPair(x: Conn, y: Conn, t: Segment)
    requires Pair(x, y) && Fits(x) && t.payload == [] && !t.flags.syn && !t.flags.fin
    ensures Pair(x, HandleSeg(y, t, false))
  {
    hide HandleSeg, Good, Flow, FinInv, AckInv, Arrived, Payloads, FinSent, Fits;
    var d := HandleSeg(y, t, false);
    ArriveGood(y, t, false);
    FlowReset(x, y, t, d);
    ArrivedGrows(y, t, d);
    FlowSends(y, d, x);
    Parts(y);
    AckArrives(x, y, t, false);
    BoundaryReset(x, y, t, d);
    ArrivalSends(y, t, false);
    FinStep(y, d, if y.state == SynSent then d.recvNxt else Mid(y, t));
    LinkedPeerSends(y, d, x);
  }

  lemma BoundaryReset(x: Conn, y: Conn, t: Segment, d: Conn)
    requires OnBoundary(x, y) && t.payload == [] && Arrived(y, t, d)
    ensures OnBoundary(x, d)
  {
  }

  lemma LocalPair(x: Conn, y: Conn, e: Event)
    requires Pair(x, y) && Enabled(y, e) && !e.Arrive?
    ensures Pair(x, Step(y, e))
  {
    hide Step, Enabled, Good, Payloads, FinSent, FinInv, AckInv, ToUint32;
    var d := Step(y, e);
    Parts(y);
    LocalGood(y, e);
    FlowSends(y, d, x);
    LocalSends(y, e);
    FinStep(y, d, d.recvNxt);
    LinkedPeerSends(y, d, x);
    StepInv(y, e);
    LocalAcks(x, y, d);
  }

  lemma LocalAcks(x: Conn, y: Conn, d: Conn)
    requires AckInv(x, y) && Sends(y, d, d.recvNxt) && d.recvNxt == y.recvNxt && Walk(y.state, d.state)
    requires d.book == y.book.(accepted := d.book.accepted)
    requires Receiving(d.state) || d.state == SynRcvd ==> Receiving(y.state) || y.state == SynRcvd
    ensures AckInv(x, d)
  {
    hide Sends, ToUint32, FinSent;
    AckStep(x, y, d, d.recvNxt);
  }

  // ---------- every action keeps it ----------

  lemma OpenUnanswered(half: bool, isn: uint32)
    ensures var a := ActiveOpen(half, isn); Good(a) && FinInv(a) && Unanswered(a)
  {
    hide Good, Payloads, ToUint32;
    var a := ActiveOpen(half, isn);
    OpenGood(half, isn);
    assert a.wire == [Segment(isn, 0, NO_FLAGS.(syn := true), WIN, [])];
  }

  lemma LocalAlone(a: Conn, e: Event)
    requires Good(a) && FinInv(a) && Unanswered(a) && Enabled(a, e) && !e.Arrive?
    ensures var d := Step(a, e); Good(d) && FinInv(d) && Unanswered(d)
  {
    hide Step, Enabled, Good, FinInv, Payloads, FinSent, ToUint32;
    Parts(a);
    LocalGood(a, e);
    LocalSends(a, e);
    FinStep(a, Step(a, e), Step(a, e).recvNxt);
    StepInv(a, e);
  }

  lemma ResetAlone(a: Conn, t: Segment)
    requires Good(a) && FinInv(a) && Unanswered(a) && t.payload == [] && !t.flags.syn && !t.flags.fin
    ensures var d := HandleSeg(a, t, false); Good(d) && FinInv(d) && Unanswered(d)
  {
    var d := HandleSeg(a, t, false);
    ResetWhileOpening(a, t);
    hide HandleSeg, Good, FinInv, Payloads, FinSent, ToUint32, SendInv, RecvInv;
    Parts(a);
    ArriveGood(a, t, false);
    ArrivalSends(a, t, false);
    FinStep(a, d, if a.state == SynSent then d.recvNxt else Mid(a, t));
  }

  lemma ResetWhileOpening(a: Conn, t: Segment)
    requires a.state in {SynSent, Closed} && !t.flags.syn
    ensures HandleSeg(a, t, false).state in {SynSent, Closed}
  {
  }

  lemma AcceptPair(a: Conn, i: nat, isn: uint32)
    requires Good(a) && FinInv(a) && Unanswered(a) && i < |a.wire| && a.wire[i].flags.syn
    ensures Pair(a, PassiveOpen(a.wire[i], isn))
  {
    hide Good, FinInv, ToUint32;
    var t := a.wire[i];
    var b := PassiveOpen(t, isn);
    AcceptGood(t, isn);
    SynPlaced(a, i);
    Parts(b);
    StillOpen(b);
    PointReached(a, b, b.recvNxt, 0);
    assert b.book.consumed == Payloads(a.wire[..0]);
    assert a.book.consumed == Payloads(b.wire[..0]);
  }

  lemma ActClosing(n: Net, x: Action)
    requires NetClosing(n) && NetFits(n) && Possible(n, x)
    ensures NetClosing(Act(n, x))
  {
    hide Pair, Good, FinInv, Unanswered, Step, HandleSeg, PassiveOpen, Payloads, ToUint32;
    match x
    case LocalA(e) =>
      if n.b.Some? {
        PairSymmetric(n.a, n.b.value);
        LocalPair(n.b.value, n.a, e);
        PairSymmetric(n.b.value, Step(n.a, e));
      } else {
        LocalAlone(n.a, e);
      }
    case LocalB(e) => LocalPair(n.a, n.b.value, e);
    case ToA(i, listening) =>
      PairSymmetric(n.a, n.b.value);
      ArrivalPair(n.b.value, n.a, i, listening);
      PairSymmetric(n.b.value, Act(n, x).a);
    case ToB(i, listening) => ArrivalPair(n.a, n.b.value, i, listening);
    case Accept(i, isn) => AcceptPair(n.a, i, isn);
    case ResetToA(i) =>
      if n.b.Some? {
        PairSymmetric(n.a, n.b.value);
        ResetPair(n.b.value, n.a, ResetReply(n.a.wire[i]));
        PairSymmetric(n.b.value, Act(n, x).a);
      } else {
        ResetAlone(n.a, ResetReply(n.a.wire[i]));
      }
    case ResetToB(i) => ResetPair(n.a, n.b.value, ResetReply(n.b.value.wire[i]));
  }

  lemma PairSymmetric(x: Conn, y: Conn)
    requires Pair(x, y)
    ensures Pair(y, x)
  {
    hide Good, FinInv, Linked, Flow;
  }

  lemma {:induction false} RunClosing(ns: seq<Net>, i: nat)
    requires IsNetRun(ns) && i < |ns|
    ensures NetClosing(ns[i])
  {
    hide NetClosing, Act, Possible, NetFits;
    if i == 0 {
      StartClosing(ns[0]);
    } else {
      RunClosing(ns, i - 1);
      assert NetNext(ns[i - 1], ns[i]);
      var x :| Possible(ns[i - 1], x) && ns[i] == Act(ns[i - 1], x);
      ActClosing(ns[i - 1], x);
    }
  }

  lemma StartClosing(n: Net)
    requires NetStart(n)
    ensures NetClosing(n)
  {
    hide ActiveOpen, Good, FinInv, Unanswered;
    var half, isn :| n.a == ActiveOpen(half, isn);
    OpenUnanswered(half, isn);
  }

  // ---------- the main results ----------

  /** `x` and `y` are the two sides of `n`. */
  predicate Facing(n: Net, x: Conn, y: Conn) {
    n.b.Some? && ((x == n.a && y == n.b.value) || (x == n.b.value && y == n.a))
  }

  lemma RunPair(ns: seq<Net>, i: nat, x: Conn, y: Conn)
    requires IsNetRun(ns) && i < |ns| && Facing(ns[i], x, y)
    ensures Pair(x, y) && Fits(x)
  {
    hide Pair, Payloads;
    RunClosing(ns, i);
    if x == ns[i].a {
    } else {
      PairSymmetric(y, x);
    }
  }

  /**
   * At every moment of every run, every acknowledgement a side has sent is of
   * something it has taken: a number of bytes, or those bytes and the FIN.
   */
  lemma AcknowledgedIsReached(ns: seq<Net>, i: nat, x: Conn, y: Conn, s: Segment)
    requires IsNetRun(ns) && i < |ns| && Facing(ns[i], x, y)
    requires s in y.wire && Acks(s)
    ensures Place(x, s.ackNo) <= |y.book.consumed| || (y.book.finTaken && s.ackNo == y.recvNxt)
    ensures y.book.finTaken ==> FinSent(x) && Place(x, y.recvNxt) in {ToUint32(|y.book.consumed| + 1), ToUint32(|Payloads(x.wire)| + 1)}
  {
    hide Good, FinInv, Flow, IsNetRun, Facing, ToUint32, Payloads;
    RunPair(ns, i, x, y);
    PlaceOf(x, |y.book.consumed| + 1);
    PlaceOf(x, |Payloads(x.wire)| + 1);
  }

  /**
   * In every run, a reset of the peer closes an established side at once: it
   * answers nothing, keeps what it received, tells its socket of an error and
   * from then on, whatever happens, sends nothing.
   */
  lemma PeerResets(ns: seq<Net>, i: nat, x: Conn, y: Conn, j: nat, listening: bool, e: Event)
    requires IsNetRun(ns) && i < |ns| && Facing(ns[i], x, y)
    requires y.state == Established && j < |x.wire| && x.wire[j].flags.rst && y.socket.Socket?
    ensures var d := HandleSeg(y, x.wire[j], listening);
            && d.state == Closed && !d.registered && d.rtx.timer == Idle && d.wire == y.wire
            && d.socket == y.socket.(errors := y.socket.errors + 1)
            && (Enabled(d, e) ==> Step(d, e).state == Closed && Step(d, e).wire == y.wire)
  {
    hide IsNetRun, Facing, HandleSeg, Pair, Good, Step, Enabled;
    RunPair(ns, i, x, y);
    PairGood(x, y);
    Parts(y);
    hide Inv;
    ResetObeyed(y, x.wire[j], listening);
    ArriveStep(y, x.wire[j], listening);
    if Enabled(HandleSeg(y, x.wire[j], listening), e) {
      StepWhenClosed(HandleSeg(y, x.wire[j], listening), e);
    }
  }

  /**
   * `destroy` sends one reset with an ACK. In every run it closes the peer
   * exactly if the peer is connecting, established or in LAST_ACK; one that has
   * only seen the SYN becomes established by it, the others do not look at it.
   */
  lemma PeerDestroys(ns: seq<Net>, i: nat, x: Conn, y: Conn, listening: bool)
    requires IsNetRun(ns) && i < |ns| && Facing(ns[i], x, y)
    requires x.state != Closed && y.state != Closed
    ensures var x1 := Destroy(x);
            && |x1.wire| == |x.wire| + 1 && x.wire <= x1.wire
            && var d := HandleSeg(y, x1.wire[|x.wire|], listening);
               && (d.state == Closed <==> y.state in {SynSent, Established, LastAck})
               && (y.state == SynRcvd ==> d.state == Established)
  {
    hide IsNetRun, Facing, HandleSeg, Pair, Good, CountSyn, CountFin, ToUint32, Pow2;
    RunPair(ns, i, x, y);
    PairGood(x, y);
    Parts(y);
    hide Inv;
    ArrivalIs(y, Destroy(x).wire[|x.wire|], listening);
    hide WireAfter, SocketAfter, AckAfter;
  }

  /** What is taken of the peer always ends where one of its segments ended. */
  lemma WholeChunks(ns: seq<Net>, i: nat, x: Conn, y: Conn)
    requires IsNetRun(ns) && i < |ns| && Facing(ns[i], x, y)
    ensures exists k: nat :: k <= |x.wire| && y.book.consumed == Payloads(x.wire[..k])
    ensures y.socket.Socket? ==> y.socket.received == y.book.consumed
  {
    hide Inv, SendInv, FinInv, Flow, Payloads, AckInv, IsNetRun, Facing;
    RunPair(ns, i, x, y);
  }

  /**
   * FIN_WAIT1 is to wait until the own FIN is acknowledged. For any segment at
   * all: the wait ends with everything acknowledged exactly if the segment's
   * acknowledgement is of the number after the FIN; the code looks at the flag only.
   */
  lemma FinUnacknowledgedIff(c: Conn, t: Segment, listening: bool)
    requires Inv(c) && c.state == FinWait1
    ensures var d := HandleSeg(c, t, listening);
            && (d.rtx.timer == Idle <==> t.flags.ack)
            && (d.rtx.timer == Idle && d.sendUna != d.sendNxt <==> t.flags.ack && t.ackNo != c.sendNxt)
  {
    hide CountSyn, CountFin, ToUint32, Pow2;
  }

  /** In runs of two connections only a peer that has taken the FIN acknowledges the number after it. */
  lemma FinNumber(ns: seq<Net>, i: nat, x: Conn, y: Conn, s: Segment)
    requires IsNetRun(ns) && i < |ns| && Facing(ns[i], x, y)
    requires HasClosed(x.state) && |Payloads(x.wire)| + 1 < TWO32
    requires s in y.wire && Acks(s)
    ensures s.ackNo == x.sendNxt ==> y.book.finTaken && y.recvNxt == x.sendNxt
  {
    hide Good, Flow, IsNetRun, Facing, Payloads, ToUint32, Acks;
    RunPair(ns, i, x, y);
    TakenFits(x, y);
    if s.ackNo == x.sendNxt {
      PlaceOf(x, |Payloads(x.wire)| + 1);
      WordIs(|Payloads(x.wire)| + 1);
    }
  }

  /**
   * So when the wait in FIN_WAIT1 ends on a segment of the peer, the peer has
   * taken the FIN if everything is acknowledged; a peer that has not taken it
   * ends the wait with any acknowledgement it ever sent.
   */
  lemma FinAcknowledged(ns: seq<Net>, i: nat, x: Conn, y: Conn, j: nat, listening: bool)
    requires IsNetRun(ns) && i < |ns| && Facing(ns[i], x, y)
    requires x.state == FinWait1 && |Payloads(x.wire)| + 1 < TWO32
    requires j < |y.wire| && !y.wire[j].flags.rst
    ensures var d := HandleSeg(x, y.wire[j], listening);
            && (d.rtx.timer == Idle <==> y.wire[j].flags.ack)
            && (d.rtx.timer == Idle && d.sendUna == d.sendNxt ==> y.book.finTaken && y.recvNxt == x.sendNxt)
            && (d.rtx.timer == Idle && !y.book.finTaken ==> d.sendUna != d.sendNxt)
  {
    hide IsNetRun, Facing, Payloads, HandleSeg, Pair, Good;
    RunPair(ns, i, x, y);
    PairGood(x, y);
    Parts(x);
    hide Inv;
    FinUnacknowledgedIff(x, y.wire[j], listening);
    if y.wire[j].flags.ack {
      FinNumber(ns, i, x, y, y.wire[j]);
    }
  }

  lemma PairGood(x: Conn, y: Conn)
    requires Pair(x, y)
    ensures Good(x) && Good(y)
  {
  }

  lemma WordIs(n: nat)
    requires n < TWO32
    ensures ToUint32(n) == n
  {
  }

  lemma TakenFits(x: Conn, y: Conn)
    requires Flow(x, y)
    ensures |y.book.consumed| <= |Payloads(x.wire)|
  {
    hide Payloads, ToUint32;
  }

  /** A FIN that is taken is acknowledged by its own number exactly if it is the next one, or taken in FIN_WAIT2. */
  lemma FinTakenNumber(ns: seq<Net>, i: nat, x: Conn, y: Conn, j: nat, listening: bool)
    requires IsNetRun(ns) && i < |ns| && Facing(ns[i], x, y)
    requires HasClosed(x.state) && j < |x.wire| && TakesFin(y, x.wire[j])
    ensures HandleSeg(y, x.wire[j], listening).recvNxt == x.sendNxt
            <==> y.state == FinWait2 || x.wire[j].seqNo == y.recvNxt
  {
    hide Good, AckInv, OnBoundary, IsNetRun, Facing, Payloads, ToUint32, HandleSeg;
    var t := x.wire[j];
    RunPair(ns, i, x, y);
    assert FinPlaced(x, t);
    RecvPoint(y, t, listening);
    NextSent(x.book.isn, |Payloads(x.wire)|);
    NextSent(x.book.isn, |y.book.consumed|);
    Successors(t.seqNo, y.recvNxt);
  }

  lemma Successors(p: uint32, q: uint32)
    ensures ToUint32(p + 1) == ToUint32(q + 1) <==> p == q
  {
  }

  /**
   * A FIN ends the stream of the socket. What the socket then was handed is
   * all the peer's `write` accepted exactly if the number of the FIN was the
   * next one; the code does not look at the number.
   */
  lemma EndOfStream(ns: seq<Net>, i: nat, x: Conn, y: Conn, j: nat, listening: bool)
    requires IsNetRun(ns) && i < |ns| && Facing(ns[i], x, y)
    requires j < |x.wire| && TakesFin(y, x.wire[j]) && y.socket.Socket?
    ensures var d := HandleSeg(y, x.wire[j], listening);
            && d.socket.Socket? && d.socket.ended
            && (d.socket.received == x.book.accepted <==> x.wire[j].seqNo == y.recvNxt)
  {
    hide AckInv, OnBoundary, IsNetRun, Facing, Payloads, ToUint32, HandleSeg, Inv, Numbered, Concat;
    var t := x.wire[j];
    RunPair(ns, i, x, y);
    assert FinPlaced(x, t);
    FinEnds(y, t, listening);
    AllSent(x);
    PrefixWhole(y.book.consumed, Payloads(x.wire));
    SameNumber(x.book.isn, |y.book.consumed|, |Payloads(x.wire)|);
  }

  lemma AllSent(x: Conn)
    requires SendInv(x) && x.sendBuf == []
    ensures x.book.accepted == Payloads(x.wire)
  {
  }

  lemma PrefixWhole(p: seq<byte>, q: seq<byte>)
    requires p <= q
    ensures p == q <==> |p| == |q|
  {
  }

  lemma SameNumber(isn: uint32, p: nat, q: nat)
    requires p < TWO32 && q < TWO32
    ensures ToUint32(isn + 1 + p) == ToUint32(isn + 1 + q) <==> p == q
  {
  }

  lemma FinEnds(c: Conn, t: Segment, listening: bool)
    requires TakesFin(c, t) && t.payload == [] && c.socket.Socket?
    ensures Ended(c, HandleSeg(c, t, listening))
  {
    hide ToUint32, RecvFin, OnEstablished, OnFinWait1, OnFinWait2;
    match c.state
    case Established => FinEndsEstablished(c, t);
    case FinWait1 => FinEndsFinWait1(c, t);
    case FinWait2 => FinEndsFinWait2(c, t);
  }

  predicate Ended(c: Conn, d: Conn)
    requires c.socket.Socket?
  {
    d.socket.Socket? && d.socket.ended && d.socket.received == c.socket.received
  }

  lemma RecvFinEnds(c: Conn, nextRecv: uint32, s: State)
    requires c.socket.Socket?
    ensures Ended(c, RecvFin(c, nextRecv, s))
  {
    hide ToUint32;
  }

  lemma FinEndsEstablished(c: Conn, t: Segment)
    requires c.state == Established && t.flags.fin && !t.flags.rst && t.payload == [] && c.socket.Socket?
    ensures Ended(c, OnEstablished(c, t))
  {
    hide ToUint32, RecvFin;
    RecvFinEnds(AckUpdate(c, t), ToUint32(c.recvNxt + 1), CloseWait);
  }

  lemma FinEndsFinWait1(c: Conn, t: Segment)
    requires c.state == FinWait1 && t.flags.fin && t.payload == [] && c.socket.Socket?
    ensures Ended(c, OnFinWait1(c, t))
  {
    hide ToUint32, RecvFin;
    var c1 := AckUpdate(c, t);
    RecvFinEnds(ClearRtx(c1), ToUint32(c.recvNxt + 1), TimeWait);
    RecvFinEnds(c1, ToUint32(c.recvNxt + 1), Closing);
  }

  lemma FinEndsFinWait2(c: Conn, t: Segment)
    requires c.state == FinWait2 && t.flags.fin && t.payload == [] && c.socket.Socket?
    ensures Ended(c, OnFinWait2(c, t))
  {
    hide ToUint32, RecvFin;
    RecvFinEnds(c, ToUint32(t.seqNo + |t.payload| + 1), TimeWait);
  }
}
