/**
 * Two connections and the network between them. The network holds every
 * segment ever sent and may hand any of them to the other side at any
 * moment, any number of times or never: loss, duplication and reordering.
 */
module TcpNetwork {
  import opened Words
  import opened TcpModel
  import opened TcpLifecycle
  import opened TcpDelivery

  /** `a` opened actively; `b` is what the other stack built when it accepted a SYN of `a`. */
  datatype Net = Net(a: Conn, b: Option<Conn>)

  datatype Action =
    | LocalA(e: Event)
    | LocalB(e: Event)
    | ToA(i: nat, listening: bool)
    | ToB(i: nat, listening: bool)
    | Accept(i: nat, isn: uint32)
    | ResetToA(i: nat)
    | ResetToB(i: nat)

  /** Segment `i` of a sender can be delivered once it has been sent. */
  predicate Possible(n: Net, x: Action) {
    match x
    case LocalA(e) => !e.Arrive? && Enabled(n.a, e)
    case LocalB(e) => n.b.Some? && !e.Arrive? && Enabled(n.b.value, e)
    case ToA(i, _) => n.b.Some? && i < |n.b.value.wire|
    case ToB(i, _) => n.b.Some? && i < |n.a.wire|
    case Accept(i, _) => n.b.None? && i < |n.a.wire| && n.a.wire[i].flags.syn && !n.a.wire[i].flags.ack
    case ResetToA(i) => i < |n.a.wire| && !n.a.wire[i].flags.rst
    case ResetToB(i) => n.b.Some? && i < |n.b.value.wire| && !n.b.value.wire[i].flags.rst
  }

  function Act(n: Net, x: Action): Net
    requires Possible(n, x)
  {
    match x
    case LocalA(e) => n.(a := Step(n.a, e))
    case LocalB(e) => n.(b := Some(Step(n.b.value, e)))
    case ToA(i, listening) => n.(a := HandleSeg(n.a, n.b.value.wire[i], listening))
    case ToB(i, listening) => n.(b := Some(HandleSeg(n.b.value, n.a.wire[i], listening)))
    case Accept(i, isn) => n.(b := Some(PassiveOpen(n.a.wire[i], isn)))
    case ResetToA(i) => n.(a := HandleSeg(n.a, ResetReply(n.a.wire[i]), false))
    case ResetToB(i) => n.(b := Some(HandleSeg(n.b.value, ResetReply(n.b.value.wire[i]), false)))
  }

  ghost predicate NetNext(n: Net, m: Net) {
    exists x :: Possible(n, x) && m == Act(n, x)
  }

  ghost predicate NetStart(n: Net) {
    n.b == None && exists half, isn :: n.a == ActiveOpen(half, isn)
  }

  /** The sequence space holds this stream: fewer than 2^32 payload bytes sent. */
  predicate Fits(c: Conn) {
    |Payloads(c.wire)| < TWO32
  }

  predicate NetFits(n: Net) {
    Fits(n.a) && (n.b.Some? ==> Fits(n.b.value))
  }

  ghost predicate IsNetRun(ns: seq<Net>) {
    && |ns| > 0
    && NetStart(ns[0])
    && (forall i :: 0 < i < |ns| ==> NetNext(ns[i - 1], ns[i]))
    && (forall i :: 0 <= i < |ns| ==> NetFits(ns[i]))
  }

  // ---------- the invariant ----------

  /** `y` has taken a prefix of what `x` sent, and expects exactly the byte after it. */
  predicate Flow(x: Conn, y: Conn) {
    && y.book.consumed <= Payloads(x.wire)
    && (Receiving(y.state) || y.state == SynRcvd ==>
          y.recvNxt == ToUint32(x.book.isn + 1 + |y.book.consumed|))
  }

  predicate Alone(a: Conn) {
    !Receiving(a.state) && a.state != SynRcvd && a.book.consumed == []
  }

  predicate NetInv(n: Net) {
    && Good(n.a)
    && match n.b
       case None => Alone(n.a)
       case Some(b) => Good(b) && Flow(n.a, b) && Flow(b, n.a)
  }

  // ---------- one arrival ----------

  lemma SameResidue(isn: int, p: nat, q: nat)
    requires p < TWO32 && q < TWO32 && ToUint32(isn + 1 + p) == ToUint32(isn + 1 + q)
    ensures p == q
  {
  }

  /** The heart of the matter: a segment numbered as the next one carries exactly the next bytes. */
  lemma NextBytes(w: seq<Segment>, isn: uint32, i: nat, taken: seq<byte>)
    requires Numbered(w, isn) && |Payloads(w)| < TWO32
    requires i < |w| && w[i].payload != []
    requires taken <= Payloads(w) && w[i].seqNo == ToUint32(isn + 1 + |taken|)
    ensures taken + w[i].payload <= Payloads(w)
  {
    hide Payloads;
    assert Placed(w, isn, i);
    var off := |Payloads(w[..i])|;
    PayloadAt(w, i);
    SameResidue(isn, off, |taken|);
    assert taken + w[i].payload == Payloads(w)[..off + |w[i].payload|];
  }

  lemma FlowArrives(x: Conn, y: Conn, i: nat, d: Conn)
    requires Good(x) && Good(y) && Flow(x, y) && Fits(x)
    requires i < |x.wire| && Arrived(y, x.wire[i], d)
    ensures Flow(x, d)
  {
    hide Payloads, Numbered, Inv, ToUint32;
    if Takes(y, x.wire[i]) {
      NextBytes(x.wire, x.book.isn, i, y.book.consumed);
      Shift(x.book.isn, |y.book.consumed|, |x.wire[i].payload|);
    } else if x.wire[i].flags.syn {
      SynPlaced(x, i);
    }
  }

  /** A reset from the stack carries neither payload nor SYN, so it moves no bytes. */
  lemma FlowReset(x: Conn, y: Conn, t: Segment, d: Conn)
    requires Flow(x, y) && t.payload == [] && !t.flags.syn && Arrived(y, t, d)
    ensures Flow(x, d)
  {
  }

  lemma PayloadsMonotone(w: seq<Segment>, v: seq<Segment>)
    requires w <= v
    ensures Payloads(w) <= Payloads(v)
  {
    if |w| < |v| {
      assert v[..|w|] == w;
      PayloadAt(v, |w|);
    } else {
      assert w == v;
    }
  }

  lemma FlowSends(x: Conn, x': Conn, y: Conn)
    requires Flow(x, y) && x.wire <= x'.wire && x'.book.isn == x.book.isn
    ensures Flow(x', y)
  {
    PayloadsMonotone(x.wire, x'.wire);
  }

  // ---------- every action keeps the invariant ----------

  lemma ActInv(n: Net, x: Action)
    requires NetInv(n) && NetFits(n) && Possible(n, x)
    ensures NetInv(Act(n, x))
  {
    hide Good, Step, HandleSeg, PassiveOpen, Payloads;
    match x
    case LocalA(e) =>
      LocalGood(n.a, e);
      if n.b.Some? {
        FlowSends(n.a, Step(n.a, e), n.b.value);
      }
    case LocalB(e) =>
      LocalGood(n.b.value, e);
      FlowSends(n.b.value, Step(n.b.value, e), n.a);
    case ToA(i, listening) =>
      var d := HandleSeg(n.a, n.b.value.wire[i], listening);
      ArriveGood(n.a, n.b.value.wire[i], listening);
      FlowArrives(n.b.value, n.a, i, d);
      FlowSends(n.a, d, n.b.value);
    case ToB(i, listening) =>
      var d := HandleSeg(n.b.value, n.a.wire[i], listening);
      ArriveGood(n.b.value, n.a.wire[i], listening);
      FlowArrives(n.a, n.b.value, i, d);
      FlowSends(n.b.value, d, n.a);
    case Accept(i, isn) =>
      AcceptGood(n.a.wire[i], isn);
      SynPlaced(n.a, i);
    case ResetToA(i) =>
      var d := HandleSeg(n.a, ResetReply(n.a.wire[i]), false);
      ArriveGood(n.a, ResetReply(n.a.wire[i]), false);
      if n.b.Some? {
        FlowReset(n.b.value, n.a, ResetReply(n.a.wire[i]), d);
        FlowSends(n.a, d, n.b.value);
      }
    case ResetToB(i) =>
      var d := HandleSeg(n.b.value, ResetReply(n.b.value.wire[i]), false);
      ArriveGood(n.b.value, ResetReply(n.b.value.wire[i]), false);
      FlowReset(n.a, n.b.value, ResetReply(n.b.value.wire[i]), d);
      FlowSends(n.b.value, d, n.a);
  }

  lemma SynPlaced(c: Conn, i: nat)
    requires Good(c) && i < |c.wire| && c.wire[i].flags.syn
    ensures c.wire[i].seqNo == c.book.isn
  {
    assert Placed(c.wire, c.book.isn, i);
  }

  lemma {:induction false} NetRunInv(ns: seq<Net>, i: nat)
    requires IsNetRun(ns) && i < |ns|
    ensures NetInv(ns[i])
  {
    hide NetInv, Act, Possible, NetFits;
    if i == 0 {
      NetStartInv(ns[0]);
    } else {
      NetRunInv(ns, i - 1);
      assert NetNext(ns[i - 1], ns[i]);
      var x :| Possible(ns[i - 1], x) && ns[i] == Act(ns[i - 1], x);
      ActInv(ns[i - 1], x);
    }
  }

  lemma NetStartInv(n: Net)
    requires NetStart(n)
    ensures NetInv(n)
  {
    hide ActiveOpen, Good, Alone;
    var half, isn :| n.a == ActiveOpen(half, isn);
    OpenGood(half, isn);
    OpenAlone(half, isn);
  }

  lemma OpenAlone(half: bool, isn: uint32)
    ensures Alone(ActiveOpen(half, isn))
  {
  }

  // ---------- the main results ----------

  lemma ReceivedFromPeer(x: Conn, y: Conn)
    requires Good(x) && Good(y) && Flow(x, y)
    ensures Received(y) <= Payloads(x.wire) <= x.book.accepted
  {
  }

  /**
   * At every moment of every run, what either socket was handed is a prefix
   * of what the other side's `write` accepted.
   */
  lemma Delivery(ns: seq<Net>, i: nat)
    requires IsNetRun(ns) && i < |ns|
    ensures match ns[i].b
            case None => Received(ns[i].a) == []
            case Some(b) =>
              && Received(b) <= ns[i].a.book.accepted
              && Received(ns[i].a) <= b.book.accepted
  {
    NetRunInv(ns, i);
    hide Good, Flow;
    if ns[i].b.Some? {
      ReceivedFromPeer(ns[i].a, ns[i].b.value);
      ReceivedFromPeer(ns[i].b.value, ns[i].a);
    } else {
      AloneReceived(ns[i].a);
    }
  }

  lemma AloneReceived(a: Conn)
    requires Good(a) && Alone(a)
    ensures Received(a) == []
  {
  }
}
