/**
 * The packet builders and parsers: Ethernet II frames, IPv4 headers and TCP
 * segments as bytes, and the internet checksum over them.
 */
module Packets {
  import opened Words

  const PROTO_TCP: byte := 6
  const ETH_IP4: uint16 := 0x0800

  /** Up to here the running sum of the checksum stays below 2^32. */
  const MAX_SUMMED := 131074

  // ---------- the checksum, as RFC 1071 defines it ----------

  /** The sum of the 16-bit big-endian words of `b`; a last odd byte is a high byte. */
  function SumWords(b: seq<byte>): nat {
    if |b| == 0 then 0
    else
      var hi: int := b[0];
      if |b| == 1 then hi * 0x100
      else
        var lo: int := b[1];
        hi * 0x100 + lo + SumWords(b[2..])
  }

  /** The ones' complement 16-bit value of a sum: its residue, with 0 only for 0. */
  function OnesComplement(n: nat): uint16 {
    if n == 0 then 0 else (n - 1) % 0xffff + 1
  }

  /** What the loop computes: its bit operations see the sum modulo 2^32. */
  function Checksum(b: seq<byte>): uint16 {
    0xffff - OnesComplement(ToUint32(SumWords(b)))
  }

  lemma FoldStep(n: nat)
    requires n < TWO32
    ensures OnesComplement(n % TWO16 + n / TWO16) == OnesComplement(n)
  {
    var q, r := n / TWO16, n % TWO16;
    assert n == 0xffff * q + (q + r);
    if n > 0 {
      ModPlusMultiple(q + r - 1, q);
    }
  }

  lemma ModPlusMultiple(x: int, k: int)
    ensures (0xffff * k + x) % 0xffff == x % 0xffff
  {
  }

  lemma {:induction false} SumBound(b: seq<byte>)
    ensures SumWords(b) <= (|b| + 1) / 2 * 0xffff
  {
    if |b| >= 2 {
      SumBound(b[2..]);
    }
  }

  /** The sum over up to `MAX_SUMMED` bytes fits 32 bits, so no bit of it is lost. */
  lemma NoTruncation(b: seq<byte>)
    requires |b| <= MAX_SUMMED
    ensures Checksum(b) == 0xffff - OnesComplement(SumWords(b))
  {
    hide SumWords, OnesComplement;
    SumBound(b);
    assert (|b| + 1) / 2 <= 65537;
    Fits32(SumWords(b));
  }

  lemma Fits32(n: nat)
    requires n < TWO32
    ensures ToUint32(n) == n
  {
  }

  /** A sequence checks out exactly when its words are not all zero and sum to a multiple of 2^16 - 1. */
  lemma VerifiesIff(b: seq<byte>)
    requires |b| <= MAX_SUMMED
    ensures Checksum(b) == 0 <==> SumWords(b) > 0 && SumWords(b) % 0xffff == 0
  {
    hide SumWords, Checksum;
    NoTruncation(b);
    OnesComplementFull(SumWords(b));
  }

  lemma OnesComplementFull(n: nat)
    ensures OnesComplement(n) == 0xffff <==> n > 0 && n % 0xffff == 0
  {
    if n > 0 {
      var q, r := n / 0xffff, n % 0xffff;
      assert r == 0 ==> n - 1 == 0xffff * (q - 1) + 0xfffe;
      assert r > 0 ==> n - 1 == 0xffff * q + (r - 1);
      ModPlusMultiple(if r == 0 then 0xfffe else r - 1, if r == 0 then q - 1 else q);
    }
  }

  lemma SumPair(s: seq<byte>, i: nat, end: nat)
    requires i + 2 <= end <= |s|
    ensures SumWords(s[i..end]) == (s[i] as int) * 0x100 + s[i + 1] + SumWords(s[i + 2..end])
  {
    var b := s[i..end];
    assert b[..2] == [s[i], s[i + 1]] && b[2..] == s[i + 2..end];
  }

  lemma SumTail(s: seq<byte>, i: nat, end: nat)
    requires i <= end <= |s| && end - i < 2
    ensures SumWords(s[i..end]) == if i < end then (s[i] as int) * 0x100 else 0
  {
    assert s[i..end] == if i < end then [s[i]] else [];
  }

  method Cksum(data: array<byte>, off: nat, len: nat) returns (c: uint16)
    requires off + len <= data.Length
    ensures c == Checksum(data[off..off + len])
  {
    hide Checksum, OnesComplement, ToUint32;
    var sum := SumLoop(data, off, off + len);
    c := Fold(sum);
    CksumIs(data[off..off + len]);
  }

  lemma CksumIs(b: seq<byte>)
    ensures Checksum(b) == 0xffff - OnesComplement(ToUint32(SumWords(b)))
  {
  }

  /** The summing loop, with the odd byte at the end. */
  method SumLoop(data: array<byte>, off: nat, end: nat) returns (sum: nat)
    requires off <= end <= data.Length
    ensures sum == SumWords(data[off..end])
  {
    hide SumWords;
    sum := 0;
    var i := off;
    assert data[off..end] == data[..][off..end];
    ghost var total := SumWords(data[..][off..end]);
    ghost var words: nat := 0;
    while i < end - 1
      invariant off <= i <= end && i == off + 2 * words
      invariant sum + SumWords(data[..][i..end]) == total
    {
      var hi: int, lo: int := data[i], data[i + 1];
      SumPair(data[..], i, end);
      sum := sum + (hi * 0x100 + lo);
      i := i + 2;
      words := words + 1;
    }
    SumTail(data[..], i, end);
    if (end - off) % 2 == 1 {
      var last: int := data[end - 1];
      sum := sum + last * 0x100;
    }
  }

  /** The folding loop and the final complement. */
  method Fold(total: nat) returns (c: uint16)
    ensures c == 0xffff - OnesComplement(ToUint32(total))
  {
    hide OnesComplement;
    var sum: nat := total;
    while sum > 0xffff
      invariant OnesComplement(ToUint32(sum)) == OnesComplement(ToUint32(total))
      decreases sum
    {
      hide ToUint32;
      var low := ToUint32(sum);
      FoldStep(low);
      ToUint32AtMost(sum);
      sum := low % TWO16 + low / TWO16;
      Fits32(sum);
    }
    c := 0xffff - sum;
    Fits32(sum);
    OnesComplementSmall(sum);
  }

  lemma ToUint32AtMost(n: nat)
    ensures ToUint32(n) <= n
  {
  }

  lemma OnesComplementSmall(n: uint16)
    ensures OnesComplement(n) == n
  {
  }

  // ---------- inserting a checksum ----------

  lemma {:induction false} SumSplit(a: seq<byte>, b: seq<byte>)
    requires |a| % 2 == 0
    ensures SumWords(a + b) == SumWords(a) + SumWords(b)
  {
    if a == [] {
      assert a + b == b;
    } else {
      assert (a + b)[2..] == a[2..] + b;
      SumSplit(a[2..], b);
    }
  }

  /** Changing one aligned word changes the sum by the difference. */
  lemma SumReplace(a: seq<byte>, old2: seq<byte>, new2: seq<byte>, c: seq<byte>)
    requires |a| % 2 == 0 && |old2| == |new2| == 2
    ensures SumWords(a + new2 + c) - FromBigEndian16(new2) == SumWords(a + old2 + c) - FromBigEndian16(old2)
  {
    SumSplit(a + new2, c);
    SumSplit(a + old2, c);
    SumSplit(a, new2);
    SumSplit(a, old2);
    assert new2[2..] == [] && old2[2..] == [];
  }

  /** Putting the checksum of the bytes with a zero word in place of that word makes the whole verify. */
  lemma InsertVerifies(a: seq<byte>, c: seq<byte>)
    requires |a| % 2 == 0 && |a| + 2 + |c| <= MAX_SUMMED
    ensures Checksum(a + BigEndian16(Checksum(a + [0, 0] + c)) + c) == 0
  {
    hide SumWords, Checksum, OnesComplement;
    var zero := a + [0, 0] + c;
    var full := a + BigEndian16(Checksum(zero)) + c;
    NoTruncation(zero);
    SumReplace(a, [0, 0], BigEndian16(Checksum(zero)), c);
    var s := SumWords(zero);
    assert SumWords(full) == s + 0xffff - OnesComplement(s);
    ComplementCompletes(s);
    VerifiesIff(full);
  }

  lemma ComplementCompletes(s: nat)
    ensures s + 0xffff - OnesComplement(s) > 0
    ensures (s + 0xffff - OnesComplement(s)) % 0xffff == 0
  {
    if s > 0 {
      var q := (s - 1) / 0xffff;
      assert s + 0xffff - OnesComplement(s) == 0xffff * (q + 1) + 0;
      ModPlusMultiple(0, q + 1);
    }
  }

  /** One of the words is all zeros, the other all ones: two forms of zero. */
  predicate BothZero(x: uint16, y: uint16) {
    (x == 0 && y == 0xffff) || (x == 0xffff && y == 0)
  }

  /**
   * Error detection: after one aligned word of a verifying sequence is changed,
   * it still verifies only if the change is between 0 and 0xffff.
   */
  lemma DetectsWordChange(a: seq<byte>, old2: seq<byte>, new2: seq<byte>, c: seq<byte>)
    requires |a| % 2 == 0 && |old2| == |new2| == 2 && old2 != new2
    requires |a| + 2 + |c| <= MAX_SUMMED
    requires Checksum(a + old2 + c) == 0
    ensures Checksum(a + new2 + c) == 0 <==>
            SumWords(a + new2 + c) > 0 && BothZero(FromBigEndian16(old2), FromBigEndian16(new2))
  {
    hide SumWords, Checksum, FromBigEndian16, BothZero;
    SumReplace(a, old2, new2, c);
    VerifiesIff(a + old2 + c);
    VerifiesIff(a + new2 + c);
    WordsDiffer(old2, new2);
    MultiplesApart(SumWords(a + old2 + c), SumWords(a + new2 + c), FromBigEndian16(old2), FromBigEndian16(new2));
  }

  lemma MultiplesApart(s: nat, t: nat, x: uint16, y: uint16)
    requires s % 0xffff == 0 && x != y && t - y == s - x
    ensures t % 0xffff == 0 <==> BothZero(x, y)
  {
    var q := s / 0xffff;
    assert t == 0xffff * q + (y - x);
    ModPlusMultiple(y - x, q);
  }

  lemma WordsDiffer(a: seq<byte>, b: seq<byte>)
    requires |a| == |b| == 2 && a != b
    ensures FromBigEndian16(a) != FromBigEndian16(b)
  {
    assert a == [a[0], a[1]] && b == [b[0], b[1]];
  }

  // ---------- TCP ----------

  /** The pseudo header of section 3.1 of RFC 9293, then the segment. */
  function Pseudo(sip: seq<byte>, dip: seq<byte>, seg: seq<byte>): seq<byte> {
    sip + dip + [0, PROTO_TCP] + BigEndian16(|seg| % TWO16) + seg
  }

  lemma {:induction false} PaddingIsNeutral(b: seq<byte>)
    requires |b| % 2 == 1
    ensures SumWords(b + [0]) == SumWords(b)
  {
    if |b| == 1 {
      assert (b + [0])[2..] == [];
    } else {
      assert (b + [0])[2..] == b[2..] + [0];
      PaddingIsNeutral(b[2..]);
    }
  }

  method TcpCk(sip: seq<byte>, dip: seq<byte>, seg: array<byte>) returns (c: uint16)
    requires |sip| == |dip| == 4
    ensures c == Checksum(Pseudo(sip, dip, seg[..]))
  {
    hide Checksum, Pseudo;
    var b := PseudoBuffer(sip, dip, seg);
    PseudoParts(sip, dip, seg[..], b[..]);
    c := Cksum(b, 0, b.Length);
    assert b[0..b.Length] == b[..];
  }

  method PseudoBuffer(sip: seq<byte>, dip: seq<byte>, seg: array<byte>) returns (b: array<byte>)
    requires |sip| == |dip| == 4
    ensures fresh(b) && b.Length == 12 + seg.Length + seg.Length % 2
    ensures b[..12] == PseudoStart(sip, dip, seg.Length)
    ensures b[12..12 + seg.Length] == seg[..] && (seg.Length % 2 == 1 ==> b[12 + seg.Length] == 0)
  {
    hide PseudoStart;
    var src := seg[..];
    var n := 12 + |src|;
    b := new byte[n + n % 2](_ => 0);
    StartPseudo(b, sip, dip, |src|);
    PutAfter(b, 12, src);
  }

  /** The bytes from `at` on, what is before and behind them staying. */
  method PutAfter(b: array<byte>, at: nat, src: seq<byte>)
    requires at + |src| <= b.Length
    modifies b
    ensures b[..at] == old(b[..at]) && b[at..at + |src|] == src && b[at + |src|..] == old(b[at + |src|..])
  {
    SetBytes(b, at, src);
  }

  function PseudoStart(sip: seq<byte>, dip: seq<byte>, len: nat): seq<byte> {
    sip + dip + [0, PROTO_TCP, len / 0x100 % 0x100, len % 0x100]
  }

  method StartPseudo(b: array<byte>, sip: seq<byte>, dip: seq<byte>, len: nat)
    requires |sip| == |dip| == 4 && b.Length >= 12 && forall k :: 0 <= k < b.Length ==> b[k] == 0
    modifies b
    ensures b[..12] == PseudoStart(sip, dip, len)
    ensures forall k :: 12 <= k < b.Length ==> b[k] == 0
  {
    SetBytes(b, 0, sip);
    assert b[..4] == sip;
    SetBytes(b, 4, dip);
    assert b[..4] == sip && b[..8] == sip + dip;
    ghost var addresses := b[..8];
    b[9] := PROTO_TCP;
    b[10], b[11] := len / 0x100 % 0x100, len % 0x100;
    assert b[..8] == addresses;
    assert b[..12] == b[..8] + [b[8], b[9], b[10], b[11]];
  }

  lemma PseudoParts(sip: seq<byte>, dip: seq<byte>, seg: seq<byte>, b: seq<byte>)
    requires |sip| == |dip| == 4 && |b| == 12 + |seg| + |seg| % 2 && b[..12] == PseudoStart(sip, dip, |seg|)
    requires b[12..12 + |seg|] == seg && (|seg| % 2 == 1 ==> b[12 + |seg|] == 0)
    ensures Checksum(b) == Checksum(Pseudo(sip, dip, seg))
  {
    hide SumWords, ToUint32, OnesComplement, BigEndian16;
    LowBytes(|seg|);
    var n := 12 + |seg|;
    var pseudo := Pseudo(sip, dip, seg);
    assert pseudo == b[..12] + seg;
    assert b[..n] == b[..12] + b[12..n];
    if |seg| % 2 == 1 {
      assert b == b[..n] + [0];
      PaddingIsNeutral(pseudo);
    } else {
      assert b == b[..n];
    }
  }

  /** The two low bytes of a length, as `>>> 8 & 0xff` and `& 0xff` give them. */
  lemma LowBytes(n: nat)
    ensures BigEndian16(n % TWO16) == [n / 0x100 % 0x100, n % 0x100]
  {
    var q := n / TWO16;
    var m := n % TWO16;
    assert n == TWO16 * q + m;
    assert n / 0x100 == 0x100 * q + m / 0x100;
    assert n % 0x100 == m % 0x100;
  }

  datatype TcpHeader = TcpHeader(sPort: uint16, dPort: uint16, seqNo: uint32, ackNo: uint32, flags: byte, win: uint16)

  datatype ParsedTcp = ParsedTcp(header: TcpHeader, off: nat, payload: seq<byte>)

  /** Options are padded to whole 32-bit words. */
  function Padded(optLen: nat): nat {
    (optLen + 3) / 4 * 4
  }

  /** The layout of section 3.1 of RFC 9293, checksum and urgent pointer zero. */
  predicate IsTcp(b: seq<byte>, h: TcpHeader, opts: seq<byte>, payload: seq<byte>) {
    var hdrLen := 20 + Padded(|opts|);
    && |b| == hdrLen + |payload|
    && FixedPart(b[..20], h, hdrLen / 4 * 16 % 0x100)
    && b[20..20 + |opts|] == opts
    && (forall k :: 20 + |opts| <= k < hdrLen ==> b[k] == 0)
    && b[hdrLen..] == payload
  }

  method TcpSeg(h: TcpHeader, payload: seq<byte>, opts: seq<byte>) returns (seg: array<byte>)
    ensures fresh(seg) && IsTcp(seg[..], h, opts, payload)
  {
    var padded := Padded(|opts|);
    var dataOff := 5 + padded / 4;
    var hdrLen := dataOff * 4;
    seg := new byte[hdrLen + |payload|](_ => 0);
    WriteHeader(seg, h, dataOff * 16 % 0x100);
    ghost var fixed := seg[..20];
    SetBytes(seg, 20, opts);
    SetBytes(seg, hdrLen, payload);
    assert seg[..20] == fixed;
  }

  /** The 20 fixed bytes. */
  predicate FixedPart(b: seq<byte>, h: TcpHeader, off: byte) {
    && |b| == 20
    && b[0..2] == BigEndian16(h.sPort) && b[2..4] == BigEndian16(h.dPort)
    && b[4..8] == BigEndian32(h.seqNo) && b[8..12] == BigEndian32(h.ackNo)
    && b[12] == off && b[13] == h.flags
    && b[14..16] == BigEndian16(h.win) && b[16..20] == [0, 0, 0, 0]
  }

  method WriteHeader(seg: array<byte>, h: TcpHeader, off: byte)
    requires seg.Length >= 20 && forall k :: 0 <= k < seg.Length ==> seg[k] == 0
    modifies seg
    ensures FixedPart(seg[..20], h, off)
    ensures forall k :: 20 <= k < seg.Length ==> seg[k] == 0
  {
    hide BigEndian16, BigEndian32, FixedPart;
    WritePorts(seg, BigEndian16(h.sPort), BigEndian16(h.dPort));
    WriteNumbers(seg, BigEndian32(h.seqNo), BigEndian32(h.ackNo));
    WriteControl(seg, off, h.flags, BigEndian16(h.win));
    FixedFrom(h, off, seg[..20]);
  }

  method WritePorts(seg: array<byte>, sp: seq<byte>, dp: seq<byte>)
    requires seg.Length >= 20 && |sp| == |dp| == 2
    modifies seg
    ensures seg[0] == sp[0] && seg[1] == sp[1] && seg[2] == dp[0] && seg[3] == dp[1]
    ensures forall k :: 4 <= k < seg.Length ==> seg[k] == old(seg[k])
  {
    seg[0], seg[1] := sp[0], sp[1];
    seg[2], seg[3] := dp[0], dp[1];
  }

  method WriteNumbers(seg: array<byte>, sq: seq<byte>, ak: seq<byte>)
    requires seg.Length >= 20 && |sq| == |ak| == 4
    modifies seg
    ensures forall k :: 0 <= k < 4 ==> seg[4 + k] == sq[k] && seg[8 + k] == ak[k]
    ensures forall k :: 0 <= k < seg.Length && !(4 <= k < 12) ==> seg[k] == old(seg[k])
  {
    seg[4], seg[5], seg[6], seg[7] := sq[0], sq[1], sq[2], sq[3];
    seg[8], seg[9], seg[10], seg[11] := ak[0], ak[1], ak[2], ak[3];
  }

  method WriteControl(seg: array<byte>, off: byte, flags: byte, wn: seq<byte>)
    requires seg.Length >= 20 && |wn| == 2
    modifies seg
    ensures seg[12] == off && seg[13] == flags && seg[14] == wn[0] && seg[15] == wn[1]
    ensures forall k :: 0 <= k < seg.Length && !(12 <= k < 16) ==> seg[k] == old(seg[k])
  {
    seg[12] := off;
    seg[13] := flags;
    seg[14], seg[15] := wn[0], wn[1];
  }

  lemma FixedFrom(h: TcpHeader, off: byte, b: seq<byte>)
    requires |b| == 20 && b[12] == off && b[13] == h.flags && forall k :: 16 <= k < 20 ==> b[k] == 0
    requires var sp, dp := BigEndian16(h.sPort), BigEndian16(h.dPort);
             b[0] == sp[0] && b[1] == sp[1] && b[2] == dp[0] && b[3] == dp[1]
    requires var wn := BigEndian16(h.win); b[14] == wn[0] && b[15] == wn[1]
    requires var sq, ak := BigEndian32(h.seqNo), BigEndian32(h.ackNo);
             forall k :: 0 <= k < 4 ==> b[4 + k] == sq[k] && b[8 + k] == ak[k]
    ensures FixedPart(b, h, off)
  {
    hide BigEndian16, BigEndian32;
  }

  /** `slice(from)` on a byte array. */
  function From(b: seq<byte>, from: nat): seq<byte> {
    if from <= |b| then b[from..] else []
  }

  function ParseTcp(d: seq<byte>): Option<ParsedTcp> {
    if |d| < 20 then None
    else
      var off := d[12] / 16 * 4;
      var h := TcpHeader(FromBigEndian16(d[0..2]), FromBigEndian16(d[2..4]),
                         FromBigEndian32(d[4..8]), FromBigEndian32(d[8..12]), d[13], FromBigEndian16(d[14..16]));
      Some(ParsedTcp(h, off, From(d, off)))
  }

  lemma ParseFixed(b: seq<byte>, h: TcpHeader, off: byte)
    requires |b| >= 20 && FixedPart(b[..20], h, off)
    ensures ParseTcp(b) == Some(ParsedTcp(h, off / 16 * 4, From(b, off / 16 * 4)))
  {
    BigEndianInverse(h.seqNo);
    BigEndianInverse(h.ackNo);
    BigEndian16Inverse(h.sPort);
    BigEndian16Inverse(h.dPort);
    BigEndian16Inverse(h.win);
    hide FromBigEndian32, BigEndian32, FromBigEndian16, BigEndian16;
    assert b[0..2] == b[..20][0..2] && b[2..4] == b[..20][2..4] && b[14..16] == b[..20][14..16];
    assert b[4..8] == b[..20][4..8] && b[8..12] == b[..20][8..12];
  }

  /** A built segment parses back to its fields and payload exactly when the options fit the data-offset field. */
  lemma TcpRoundTrip(b: seq<byte>, h: TcpHeader, opts: seq<byte>, payload: seq<byte>)
    requires IsTcp(b, h, opts, payload)
    ensures ParseTcp(b) == Some(ParsedTcp(h, 20 + Padded(|opts|), payload)) <==> |opts| <= 40
  {
    hide FromBigEndian32, BigEndian32, FromBigEndian16, BigEndian16;
    ParseFixed(b, h, b[12]);
    OffsetField(|opts|);
    var hdrLen := 20 + Padded(|opts|);
    if |opts| <= 40 {
      assert From(b, hdrLen) == payload;
    }
  }

  lemma OffsetField(optLen: nat)
    ensures (20 + Padded(optLen)) / 4 * 16 % 0x100 / 16 * 4 == 20 + Padded(optLen) <==> optLen <= 40
  {
    var words := 5 + (optLen + 3) / 4;
    assert (20 + Padded(optLen)) / 4 == words;
    if optLen <= 40 {
      assert words < 16;
    } else {
      assert words >= 16;
    }
  }

  /** The checksum does not disturb what the parser reads. */
  lemma ParseIgnoresChecksum(b: seq<byte>, patched: seq<byte>)
    requires 20 <= |b| == |patched| && 20 <= b[12] / 16 * 4
    requires forall k :: 0 <= k < |b| && k != 16 && k != 17 ==> patched[k] == b[k]
    ensures ParseTcp(patched) == ParseTcp(b)
  {
    hide FromBigEndian32;
    assert patched[0..2] == b[0..2] && patched[2..4] == b[2..4] && patched[14..16] == b[14..16];
    assert patched[4..8] == b[4..8] && patched[8..12] == b[8..12];
    assert From(patched, b[12] / 16 * 4) == From(b, b[12] / 16 * 4);
  }

  // ---------- IPv4 ----------

  datatype ParsedIp = ParsedIp(ihl: nat, proto: byte, src: seq<byte>, dst: seq<byte>, payload: seq<byte>)

  function ParseIp(d: seq<byte>): Option<ParsedIp> {
    if |d| < 20 then None
    else
      var ihl := d[0] % 0x10 * 4;
      Some(ParsedIp(ihl, d[9], d[12..16], d[16..20], From(d, ihl)))
  }

  /** The 20-byte header of section 3.1 of RFC 791, don't-fragment set, with its checksum. */
  predicate IsIpHeader(p: seq<byte>, total: nat, id: uint16, proto: byte, sip: seq<byte>, dip: seq<byte>) {
    && |p| == 20 && p[0] == 0x45 && p[1] == 0 && p[6] == 0x40 && p[7] == 0 && p[8] == 64 && p[9] == proto
    && p[2] == total / 0x100 % 0x100 && p[3] == total % 0x100 && p[4..6] == BigEndian16(id)
    && p[12..16] == sip && p[16..20] == dip
    && Checksum(p) == 0
  }

  method IpPkt(sip: seq<byte>, dip: seq<byte>, proto: byte, id: uint16, payload: seq<byte>) returns (p: array<byte>)
    requires |sip| == |dip| == 4
    ensures fresh(p) && p.Length == 20 + |payload|
    ensures IsIpHeader(p[..20], p.Length, id, proto, sip, dip)
    ensures p[20..] == payload
  {
    hide IsIpHeader, HeaderFields;
    var len := 20 + |payload|;
    p := new byte[len](_ => 0);
    StartHeader(p, id, proto);
    AddAddresses(p, id, proto, sip, dip);
    ghost var zero := p[..20];
    var hc := Cksum(p, 0, 20);
    assert p[0..0 + 20] == zero;
    p[10], p[11] := hc / 0x100, hc % 0x100;
    SetBytes(p, 20, payload);
    HeaderVerifies(zero, p[..20], len, id, proto, sip, dip);
  }

  /** The fields of a header, its checksum aside. */
  predicate HeaderFields(p: seq<byte>, total: nat, id: uint16, proto: byte, sip: seq<byte>, dip: seq<byte>) {
    && |p| == 20 && p[0] == 0x45 && p[1] == 0 && p[6] == 0x40 && p[7] == 0 && p[8] == 64 && p[9] == proto
    && p[2] == total / 0x100 % 0x100 && p[3] == total % 0x100 && p[4..6] == BigEndian16(id)
    && p[12..16] == sip && p[16..20] == dip
  }

  /** A header with its checksum put in where there were zeros. */
  lemma HeaderVerifies(zero: seq<byte>, p: seq<byte>, total: nat, id: uint16, proto: byte, sip: seq<byte>, dip: seq<byte>)
    requires HeaderFields(zero, total, id, proto, sip, dip) && zero[10] == 0 && zero[11] == 0
    requires |p| == 20 && p == zero[10 := p[10]][11 := p[11]] && [p[10], p[11]] == BigEndian16(Checksum(zero))
    ensures IsIpHeader(p, total, id, proto, sip, dip)
  {
    hide Checksum;
    assert p[4..6] == zero[4..6] && p[12..16] == zero[12..16] && p[16..20] == zero[16..20];
    assert zero == zero[..10] + [0, 0] + zero[12..];
    InsertVerifies(zero[..10], zero[12..]);
    assert p == zero[..10] + BigEndian16(Checksum(zero)) + zero[12..];
  }

  method AddAddresses(p: array<byte>, id: uint16, proto: byte, sip: seq<byte>, dip: seq<byte>)
    requires p.Length >= 20 && |sip| == |dip| == 4
    requires p[0] == 0x45 && p[1] == 0 && p[6] == 0x40 && p[7] == 0 && p[8] == 64 && p[9] == proto
    requires p[2] == p.Length / 0x100 % 0x100 && p[3] == p.Length % 0x100 && p[4..6] == BigEndian16(id)
    requires p[10] == 0 && p[11] == 0
    modifies p
    ensures HeaderFields(p[..20], p.Length, id, proto, sip, dip) && p[10] == 0 && p[11] == 0
  {
    ghost var start := p[..12];
    assert start[4..6] == BigEndian16(id);
    SetBytes(p, 12, sip);
    assert p[..12] == start && p[12..16] == sip;
    SetBytes(p, 16, dip);
    ghost var h := p[..20];
    assert h[..12] == start && h[12..16] == sip && h[16..20] == dip;
    assert h[4..6] == start[4..6];
  }

  /** Everything before the addresses, the checksum still zero. */
  method StartHeader(p: array<byte>, id: uint16, proto: byte)
    requires p.Length >= 20 && forall k :: 0 <= k < p.Length ==> p[k] == 0
    modifies p
    ensures p[0] == 0x45 && p[1] == 0 && p[6] == 0x40 && p[7] == 0 && p[8] == 64 && p[9] == proto
    ensures p[2] == p.Length / 0x100 % 0x100 && p[3] == p.Length % 0x100 && p[4..6] == BigEndian16(id)
    ensures forall k :: 10 <= k < p.Length ==> p[k] == 0
  {
    var len := p.Length;
    p[0] := 0x45;
    p[2], p[3] := len / 0x100 % 0x100, len % 0x100;
    p[4], p[5] := id / 0x100, id % 0x100;
    p[6] := 0x40;
    p[8] := 64;
    p[9] := proto;
  }

  /** What `IpPkt` builds parses back to what went in, and its length field is right while it fits 16 bits. */
  lemma IpRoundTrip(p: seq<byte>, id: uint16, proto: byte, sip: seq<byte>, dip: seq<byte>, payload: seq<byte>)
    requires |p| == 20 + |payload| && IsIpHeader(p[..20], |p|, id, proto, sip, dip) && p[20..] == payload
    ensures ParseIp(p) == Some(ParsedIp(20, proto, sip, dip, payload))
    ensures FromBigEndian16(p[2..4]) == |p| <==> |p| < TWO16
  {
    hide Checksum;
    var h := p[..20];
    assert h[12..16] == p[12..16] && h[16..20] == p[16..20];
    LowBytes(|p|);
    BigEndian16Inverse(|p| % TWO16);
    assert p[2..4] == BigEndian16(|p| % TWO16);
  }

  /** A header with options of its own: the length field in words says where the payload starts. */
  lemma IpOptionsSkipped(head: seq<byte>, opts: seq<byte>, payload: seq<byte>, words: nat)
    requires |head| == 20 && 5 <= words < 16 && head[0] == 0x40 + words && |opts| == 4 * (words - 5)
    ensures ParseIp(head + opts + payload) == Some(ParsedIp(4 * words, head[9], head[12..16], head[16..20], payload))
  {
    var d := head + opts + payload;
    assert d[12..16] == head[12..16] && d[16..20] == head[16..20];
    assert From(d, 4 * words) == payload;
  }

  // ---------- Ethernet ----------

  /** An Ethernet II frame: destination, source, type, payload. */
  predicate IsEth(f: seq<byte>, dst: seq<byte>, src: seq<byte>, ethType: uint16, payload: seq<byte>) {
    |f| >= 14 && f[..6] == dst && f[6..12] == src && f[12..14] == BigEndian16(ethType) && f[14..] == payload
  }

  datatype ParsedEth = ParsedEth(dst: seq<byte>, src: seq<byte>, ethType: uint16, payload: seq<byte>)

  function ParseEth(f: seq<byte>): Option<ParsedEth> {
    if |f| < 14 then None
    else Some(ParsedEth(f[..6], f[6..12], FromBigEndian16(f[12..14]), f[14..]))
  }

  method EthFrame(dst: seq<byte>, src: seq<byte>, ethType: uint16, payload: seq<byte>) returns (f: array<byte>)
    requires |dst| == |src| == 6
    ensures fresh(f) && IsEth(f[..], dst, src, ethType, payload)
  {
    f := new byte[14 + |payload|](_ => 0);
    SetBytes(f, 0, dst);
    SetBytes(f, 6, src);
    f[12], f[13] := ethType / 0x100, ethType % 0x100;
    SetBytes(f, 14, payload);
    ghost var b := f[..];
    assert b[..6] == dst && b[6..12] == src && b[12..14] == BigEndian16(ethType) && b[14..] == payload;
  }

  /** A frame of this layout is parsed into its parts. */
  lemma EthRoundTrip(f: seq<byte>, dst: seq<byte>, src: seq<byte>, ethType: uint16, payload: seq<byte>)
    requires IsEth(f, dst, src, ethType, payload)
    ensures ParseEth(f) == Some(ParsedEth(dst, src, ethType, payload))
  {
    BigEndian16Inverse(ethType);
  }

  // ---------- sending a segment ----------

  /** What the other side finds inside a frame: the TCP segment and the two addresses. */
  function Unwrap(frame: seq<byte>): Option<ParsedIp> {
    match ParseEth(frame)
    case Some(e) => if e.ethType == ETH_IP4 then ParseIp(e.payload) else None
    case None => None
  }

  /** Zero the checksum, compute it over the pseudo header, insert it, and wrap the segment. */
  method TxSeg(seg: array<byte>, sip: seq<byte>, dip: seq<byte>, id: uint16, dstMac: seq<byte>, srcMac: seq<byte>)
    returns (frame: array<byte>)
    requires seg.Length >= 20 && |sip| == |dip| == 4 && |dstMac| == |srcMac| == 6
    modifies seg
    ensures fresh(frame)
    ensures forall k :: 0 <= k < seg.Length && k != 16 && k != 17 ==> seg[k] == old(seg[k])
    ensures 12 + seg.Length <= MAX_SUMMED ==> Checksum(Pseudo(sip, dip, seg[..])) == 0
    ensures frame.Length >= 34 && frame[..6] == dstMac && frame[6..12] == srcMac && frame[12..14] == [0x08, 0x00]
    ensures IsIpHeader(frame[14..34], frame.Length - 14, id, PROTO_TCP, sip, dip) && frame[34..] == seg[..]
    ensures Unwrap(frame[..]) == Some(ParsedIp(20, PROTO_TCP, sip, dip, seg[..]))
  {
    hide Checksum, Pseudo, IsIpHeader, ParseIp, ParseEth;
    Stamp(seg, sip, dip);
    var ip := IpPkt(sip, dip, PROTO_TCP, id, seg[..]);
    IpRoundTrip(ip[..], id, PROTO_TCP, sip, dip, seg[..]);
    frame := EthFrame(dstMac, srcMac, ETH_IP4, ip[..]);
    EthRoundTrip(frame[..], dstMac, srcMac, ETH_IP4, ip[..]);
    assert frame[14..34] == ip[..20] && frame[34..] == ip[20..];
  }

  method Stamp(seg: array<byte>, sip: seq<byte>, dip: seq<byte>)
    requires seg.Length >= 20 && |sip| == |dip| == 4
    modifies seg
    ensures forall k :: 0 <= k < seg.Length && k != 16 && k != 17 ==> seg[k] == old(seg[k])
    ensures 12 + seg.Length <= MAX_SUMMED ==> Checksum(Pseudo(sip, dip, seg[..])) == 0
  {
    hide Checksum, Pseudo;
    seg[16], seg[17] := 0, 0;
    ghost var zero := seg[..];
    var cs := TcpCk(sip, dip, seg);
    seg[16], seg[17] := cs / 0x100, cs % 0x100;
    if 12 + seg.Length <= MAX_SUMMED {
      assert seg[..] == zero[..16] + BigEndian16(cs) + zero[18..];
      StampVerifies(sip, dip, zero);
    }
  }

  lemma StampVerifies(sip: seq<byte>, dip: seq<byte>, zero: seq<byte>)
    requires |sip| == |dip| == 4 && |zero| >= 20 && zero[16] == zero[17] == 0 && 12 + |zero| <= MAX_SUMMED
    ensures Checksum(Pseudo(sip, dip, zero[..16] + BigEndian16(Checksum(Pseudo(sip, dip, zero))) + zero[18..])) == 0
  {
    hide Checksum;
    var cs := BigEndian16(Checksum(Pseudo(sip, dip, zero)));
    var full := zero[..16] + cs + zero[18..];
    var a := sip + dip + [0, PROTO_TCP] + BigEndian16(|zero| % TWO16) + zero[..16];
    assert Pseudo(sip, dip, zero) == a + [0, 0] + zero[18..];
    assert |full| == |zero|;
    assert Pseudo(sip, dip, full) == a + cs + zero[18..];
    InsertVerifies(a, zero[18..]);
  }

  /**
   * The whole way: a segment built from its fields, stamped and wrapped, is read
   * by the other side as the same fields and payload, and its checksum verifies.
   */
  method SendSegment(h: TcpHeader, payload: seq<byte>, opts: seq<byte>, sip: seq<byte>, dip: seq<byte>, id: uint16,
                     dstMac: seq<byte>, srcMac: seq<byte>)
    returns (frame: array<byte>)
    requires |opts| <= 40 && |sip| == |dip| == 4 && |dstMac| == |srcMac| == 6
    ensures frame.Length >= 34 && frame[..6] == dstMac && frame[6..12] == srcMac && frame[12..14] == [0x08, 0x00]
    ensures var got := Unwrap(frame[..]);
            && got.Some? && got.value.src == sip && got.value.dst == dip
            && ParseTcp(got.value.payload) == Some(ParsedTcp(h, 20 + Padded(|opts|), payload))
            && (|got.value.payload| <= MAX_SUMMED - 12 ==> Checksum(Pseudo(sip, dip, got.value.payload)) == 0)
  {
    hide Checksum, Pseudo, Unwrap, ParseTcp;
    var seg := TcpSeg(h, payload, opts);
    ghost var built := seg[..];
    TcpRoundTrip(built, h, opts, payload);
    OffsetField(|opts|);
    frame := TxSeg(seg, sip, dip, id, dstMac, srcMac);
    assert built[12] / 16 * 4 == 20 + Padded(|opts|);
    ParseIgnoresChecksum(built, seg[..]);
  }
}
