/**
 * The length-prefixed framing of Ethernet frames over a WebSocket: four
 * big-endian bytes of length, then the frame. Messages cut the byte stream
 * anywhere.
 */
module Deframer {
  import opened Words

  // ---------- the wire format ----------

  /** What is sent for one frame; the length field has 32 bits. */
  function Encode(frame: seq<byte>): seq<byte> {
    BigEndian32(ToUint32(|frame|)) + frame
  }

  function EncodeAll(frames: seq<seq<byte>>): seq<byte> {
    if frames == [] then [] else Encode(frames[0]) + EncodeAll(frames[1..])
  }

  // ---------- the parser as a function ----------

  /** Between a length and its frame the parser remembers the length. */
  datatype Phase = Len | Data(frameLen: uint32)

  datatype Parser = Parser(phase: Phase, buf: seq<byte>)

  datatype Parsed = Parsed(frames: seq<seq<byte>>, rest: Parser)

  /** Everything that can be delivered from `p`, and what then remains. */
  function Parse(p: Parser): Parsed
    decreases |p.buf|, if p.phase.Len? then 0 else 1
  {
    if Waiting(p) then Parsed([], p)
    else if p.phase.Len? then Parse(AfterLen(p))
    else
      var r := Parse(AfterData(p));
      Parsed([p.buf[..p.phase.frameLen]] + r.frames, r.rest)
  }

  /** Too few bytes for what comes next. */
  predicate Waiting(p: Parser) {
    |p.buf| < if p.phase.Len? then 4 else p.phase.frameLen
  }

  function AfterLen(p: Parser): Parser
    requires p.phase.Len? && !Waiting(p)
  {
    Parser(Data(FromBigEndian32(p.buf[..4])), p.buf[4..])
  }

  function AfterData(p: Parser): Parser
    requires p.phase.Data? && !Waiting(p)
  {
    Parser(Len, p.buf[p.phase.frameLen..])
  }

  function Feed(p: Parser, chunk: seq<byte>): Parsed {
    Parse(p.(buf := p.buf + chunk))
  }

  function FeedAll(p: Parser, chunks: seq<seq<byte>>): Parsed
    decreases |chunks|
  {
    if chunks == [] then Parse(p)
    else
      var first := Feed(p, chunks[0]);
      var others := FeedAll(first.rest, chunks[1..]);
      Parsed(first.frames + others.frames, others.rest)
  }

  // ---------- the parser object ----------

  class FrameReader {
    var recvBuf: seq<byte>
    var recvState: Phase
    var delivered: seq<seq<byte>>

    ghost function View(): Parser
      reads this
    {
      Parser(recvState, recvBuf)
    }

    constructor ()
      ensures View() == Parser(Len, []) && delivered == []
    {
      recvBuf, recvState, delivered := [], Len, [];
    }

    /** A message arrives: it is appended and parsed as far as it goes. */
    method OnWsData(data: seq<byte>)
      modifies this
      ensures var r := Feed(old(View()), data);
              View() == r.rest && delivered == old(delivered) + r.frames
    {
      recvBuf := recvBuf + data;
      ParseFrames();
    }

    method ParseFrames()
      modifies this
      ensures var r := Parse(old(View()));
              View() == r.rest && delivered == old(delivered) + r.frames
    {
      ghost var r := Parse(View());
      while true
        invariant var s := Parse(View()); s.rest == r.rest && delivered + s.frames == old(delivered) + r.frames
        decreases |recvBuf|, if recvState.Len? then 0 else 1
      {
        if recvState.Len? {
          if |recvBuf| < 4 {
            return;
          }
          var n := FromBigEndian32(recvBuf[..4]);
          recvBuf := recvBuf[4..];
          recvState := Data(n);
        }
        if |recvBuf| < recvState.frameLen {
          return;
        }
        var frame := recvBuf[..recvState.frameLen];
        recvBuf := recvBuf[recvState.frameLen..];
        recvState := Len;
        ghost var s := Parse(View());
        assert delivered + ([frame] + s.frames) == (delivered + [frame]) + s.frames;
        delivered := delivered + [frame];
      }
    }
  }

  // ---------- fragmentation does not matter ----------

  /** Parsing may stop and go on: what the second part adds comes after what the first part gave. */
  lemma {:induction false} ParseSplit(p: Parser, more: seq<byte>)
    ensures var first := Parse(p);
            var second := Feed(first.rest, more);
            Feed(p, more) == Parsed(first.frames + second.frames, second.rest)
    decreases |p.buf|, if p.phase.Len? then 0 else 1
  {
    hide FromBigEndian32, Parse;
    ParseOnce(p);
    if Waiting(p) {
      var second := Feed(p, more);
      assert [] + second.frames == second.frames;
    } else if p.phase.Len? {
      ParseSplitLen(p, more);
      ParseSplit(AfterLen(p), more);
    } else {
      ParseSplitData(p, more);
      ParseSplit(AfterData(p), more);
      var n := p.phase.frameLen;
      var first, second := Parse(AfterData(p)), Feed(Parse(p).rest, more);
      assert ([p.buf[..n]] + first.frames) + second.frames == [p.buf[..n]] + (first.frames + second.frames);
    }
  }

  lemma ParseOnce(p: Parser)
    ensures Parse(p) ==
            if Waiting(p) then Parsed([], p)
            else if p.phase.Len? then Parse(AfterLen(p))
            else var r := Parse(AfterData(p)); Parsed([p.buf[..p.phase.frameLen]] + r.frames, r.rest)
  {
    hide FromBigEndian32;
  }

  lemma ParseSplitLen(p: Parser, more: seq<byte>)
    requires p.phase.Len? && !Waiting(p)
    ensures Feed(p, more) == Feed(AfterLen(p), more)
  {
    hide FromBigEndian32;
    var q, longer := AfterLen(p), p.(buf := p.buf + more);
    assert longer.buf[..4] == p.buf[..4] && longer.buf[4..] == p.buf[4..] + more;
    assert AfterLen(longer) == q.(buf := q.buf + more);
  }

  lemma ParseSplitData(p: Parser, more: seq<byte>)
    requires p.phase.Data? && !Waiting(p)
    ensures var n, r := p.phase.frameLen, Feed(AfterData(p), more);
            Feed(p, more) == Parsed([p.buf[..n]] + r.frames, r.rest)
  {
    hide FromBigEndian32;
    var n, longer := p.phase.frameLen, p.(buf := p.buf + more);
    assert longer.buf[..n] == p.buf[..n] && longer.buf[n..] == p.buf[n..] + more;
    assert AfterData(longer) == AfterData(p).(buf := p.buf[n..] + more);
  }

  /** However a stream is cut into messages, the outcome is that of the whole stream in one message. */
  lemma {:induction false} FragmentationIndependent(p: Parser, chunks: seq<seq<byte>>)
    ensures FeedAll(p, chunks) == Feed(p, Concat(chunks))
    decreases |chunks|
  {
    hide Parse;
    if chunks == [] {
      assert p.buf + [] == p.buf;
    } else {
      var c := chunks[0];
      FragmentationIndependent(Feed(p, c).rest, chunks[1..]);
      ParseSplit(p.(buf := p.buf + c), Concat(chunks[1..]));
      assert p.buf + c + Concat(chunks[1..]) == p.buf + Concat(chunks);
    }
  }

  // ---------- what was framed is what is delivered ----------

  predicate Sendable(frame: seq<byte>) {
    |frame| < TWO32
  }

  const START := Parser(Len, [])

  lemma ParseOne(frame: seq<byte>, more: seq<byte>)
    requires Sendable(frame)
    ensures var r := Feed(START, more);
            Feed(START, Encode(frame) + more) == Parsed([frame] + r.frames, r.rest)
  {
    hide FromBigEndian32, BigEndian32;
    var p := Parser(Len, [] + (Encode(frame) + more));
    assert ToUint32(|frame|) == |frame|;
    BigEndianInverse(|frame|);
    assert p.buf[..4] == BigEndian32(|frame|) && p.buf[4..] == frame + more;
    var q := Parser(Data(|frame|), frame + more);
    assert AfterLen(p) == q;
    assert q.buf[..|frame|] == frame && q.buf[|frame|..] == [] + more;
    assert AfterData(q) == Parser(Len, [] + more);
    assert Parse(p) == Parse(q);
    var r := Parse(AfterData(q));
    assert Parse(q) == Parsed([frame] + r.frames, r.rest);
  }

  /**
   * The frames sent, followed by any part of a further one, cut into messages
   * anywhere: exactly those frames come out, in order, and exactly the
   * undelivered bytes stay. Empty frames are frames too.
   */
  lemma {:induction false} DeliversFrames(frames: seq<seq<byte>>, tail: seq<byte>, chunks: seq<seq<byte>>)
    requires forall k :: 0 <= k < |frames| ==> Sendable(frames[k])
    requires Concat(chunks) == EncodeAll(frames) + tail
    ensures var r := Feed(START, tail);
            FeedAll(START, chunks) == Parsed(frames + r.frames, r.rest)
  {
    hide Parse, Encode, Feed, FeedAll;
    FragmentationIndependent(START, chunks);
    DeliversWhole(frames, tail);
  }

  lemma {:induction false} DeliversWhole(frames: seq<seq<byte>>, tail: seq<byte>)
    requires forall k :: 0 <= k < |frames| ==> Sendable(frames[k])
    ensures var r := Feed(START, tail);
            Feed(START, EncodeAll(frames) + tail) == Parsed(frames + r.frames, r.rest)
    decreases |frames|
  {
    hide Parse, Encode, Feed;
    var r := Feed(START, tail);
    if frames == [] {
      assert EncodeAll(frames) + tail == tail;
      assert frames + r.frames == r.frames;
    } else {
      DeliversWhole(frames[1..], tail);
      ParseOne(frames[0], EncodeAll(frames[1..]) + tail);
      assert EncodeAll(frames) + tail == Encode(frames[0]) + (EncodeAll(frames[1..]) + tail);
      assert [frames[0]] + (frames[1..] + r.frames) == frames + r.frames;
    }
  }

  /** Part of one frame delivers nothing: the parser keeps every byte of it. */
  lemma PartialKept(frame: seq<byte>, k: nat)
    requires Sendable(frame) && k < |Encode(frame)|
    ensures Feed(START, Encode(frame)[..k]) ==
            Parsed([], if k < 4 then Parser(Len, Encode(frame)[..k]) else Parser(Data(|frame|), frame[..k - 4]))
  {
    hide FromBigEndian32, BigEndian32;
    var p := Parser(Len, [] + Encode(frame)[..k]);
    assert ToUint32(|frame|) == |frame|;
    BigEndianInverse(|frame|);
    assert p.buf == Encode(frame)[..k];
    if k >= 4 {
      assert p.buf[..4] == BigEndian32(|frame|) && p.buf[4..] == frame[..k - 4];
      assert AfterLen(p) == Parser(Data(|frame|), frame[..k - 4]);
      assert Parse(p) == Parse(AfterLen(p));
    }
  }

  /** A single frame survives exactly when its length fits the length field. */
  lemma RoundTripLimit(frame: seq<byte>)
    ensures Feed(START, Encode(frame)) == Parsed([frame], START) <==> Sendable(frame)
  {
    hide FromBigEndian32, BigEndian32;
    if Sendable(frame) {
      ParseOne(frame, []);
      assert Encode(frame) + [] == Encode(frame);
      var r := Feed(START, []);
      assert START.(buf := START.buf + []) == START;
      assert r == Parsed([], START);
      assert [frame] + [] == [frame];
    } else {
      var n := ToUint32(|frame|);
      var p := Parser(Len, [] + Encode(frame));
      BigEndianInverse(n);
      assert p.buf[..4] == BigEndian32(n) && p.buf[4..] == frame;
      assert AfterLen(p) == Parser(Data(n), frame);
      assert Parse(p) == Parse(AfterLen(p));
      assert Feed(START, Encode(frame)).frames[0] == frame[..n];
    }
  }
}
