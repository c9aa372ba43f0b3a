/**
 * The synchronous SHA-256 against FIPS 180-4. JavaScript numbers are integers
 * here: all of them stay below 2^35 in size, which a double holds exactly.
 */
module Sha256 {
  import opened Words

  // ---------- words and their bits ----------

  function Bits(x: int): bv32 {
    ToUint32(x) as bv32
  }

  function Val(b: bv32): uint32 {
    b as int
  }

  function XorW(x: bv32, y: bv32): bv32 {
    x ^ y
  }

  function AndW(x: bv32, y: bv32): bv32 {
    x & y
  }

  function OrW(x: bv32, y: bv32): bv32 {
    x | y
  }

  function NotW(x: bv32): bv32 {
    !x
  }

  function ShrW(x: bv32, n: bv6): bv32
    requires n < 32
  {
    x >> n
  }

  function ShlW(x: bv32, n: bv6): bv32
    requires n < 32
  {
    x << n
  }

  /** Section 3.2: the rotation to the right. */
  function Rotr(x: bv32, n: bv6): bv32
    requires 0 < n < 32
  {
    OrW(ShrW(x, n), ShlW(x, 32 - n))
  }

  /** `x + y` modulo 2^32 */
  function Plus(x: uint32, y: uint32): uint32 {
    ToUint32(x + y)
  }

  // ---------- FIPS 180-4: functions and constants ----------

  function BigSigma0(x: uint32): uint32 {
    Val(XorW(XorW(Rotr(Bits(x), 2), Rotr(Bits(x), 13)), Rotr(Bits(x), 22)))
  }

  function BigSigma1(x: uint32): uint32 {
    Val(XorW(XorW(Rotr(Bits(x), 6), Rotr(Bits(x), 11)), Rotr(Bits(x), 25)))
  }

  function SmallSigma0(x: uint32): uint32 {
    Val(XorW(XorW(Rotr(Bits(x), 7), Rotr(Bits(x), 18)), ShrW(Bits(x), 3)))
  }

  function SmallSigma1(x: uint32): uint32 {
    Val(XorW(XorW(Rotr(Bits(x), 17), Rotr(Bits(x), 19)), ShrW(Bits(x), 10)))
  }

  function Ch(x: uint32, y: uint32, z: uint32): uint32 {
    Val(XorW(AndW(Bits(x), Bits(y)), AndW(NotW(Bits(x)), Bits(z))))
  }

  function Maj(x: uint32, y: uint32, z: uint32): uint32 {
    Val(XorW(XorW(AndW(Bits(x), Bits(y)), AndW(Bits(x), Bits(z))), AndW(Bits(y), Bits(z))))
  }

  /** Section 4.2.2, in four rows. */
  function RoundConstants(): (k: seq<uint32>)
    ensures |k| == 64
  {
    Constants0() + Constants1() + Constants2() + Constants3()
  }

  function Constants0(): (k: seq<uint32>)
    ensures |k| == 16
  {
    [0x428a2f98, 0x71374491, 0xb5c0fbcf, 0xe9b5dba5, 0x3956c25b, 0x59f111f1, 0x923f82a4, 0xab1c5ed5,
     0xd807aa98, 0x12835b01, 0x243185be, 0x550c7dc3, 0x72be5d74, 0x80deb1fe, 0x9bdc06a7, 0xc19bf174]
  }

  function Constants1(): (k: seq<uint32>)
    ensures |k| == 16
  {
    [0xe49b69c1, 0xefbe4786, 0x0fc19dc6, 0x240ca1cc, 0x2de92c6f, 0x4a7484aa, 0x5cb0a9dc, 0x76f988da,
     0x983e5152, 0xa831c66d, 0xb00327c8, 0xbf597fc7, 0xc6e00bf3, 0xd5a79147, 0x06ca6351, 0x14292967]
  }

  function Constants2(): (k: seq<uint32>)
    ensures |k| == 16
  {
    [0x27b70a85, 0x2e1b2138, 0x4d2c6dfc, 0x53380d13, 0x650a7354, 0x766a0abb, 0x81c2c92e, 0x92722c85,
     0xa2bfe8a1, 0xa81a664b, 0xc24b8b70, 0xc76c51a3, 0xd192e819, 0xd6990624, 0xf40e3585, 0x106aa070]
  }

  function Constants3(): (k: seq<uint32>)
    ensures |k| == 16
  {
    [0x19a4c116, 0x1e376c08, 0x2748774c, 0x34b0bcb5, 0x391c0cb3, 0x4ed8aa4a, 0x5b9cca4f, 0x682e6ff3,
     0x748f82ee, 0x78a5636f, 0x84c87814, 0x8cc70208, 0x90befffa, 0xa4506ceb, 0xbef9a3f7, 0xc67178f2]
  }

  datatype State = State(a: uint32, b: uint32, c: uint32, d: uint32, e: uint32, f: uint32, g: uint32, h: uint32)

  const INITIAL := State(0x6a09e667, 0xbb67ae85, 0x3c6ef372, 0xa54ff53a, 0x510e527f, 0x9b05688c, 0x1f83d9ab, 0x5be0cd19)

  // ---------- FIPS 180-4: the block step of section 6.2.2 ----------

  /** The message schedule. */
  function Schedule(block: seq<byte>, t: nat): uint32
    requires |block| == 64 && t < 64
  {
    if t < 16 then FromBigEndian32(block[4 * t..4 * t + 4])
    else
      Plus(Plus(Plus(SmallSigma1(Schedule(block, t - 2)), Schedule(block, t - 7)),
                SmallSigma0(Schedule(block, t - 15))), Schedule(block, t - 16))
  }

  function Round(s: State, k: uint32, w: uint32): State {
    var t1 := Plus(Plus(Plus(Plus(s.h, BigSigma1(s.e)), Ch(s.e, s.f, s.g)), k), w);
    var t2 := Plus(BigSigma0(s.a), Maj(s.a, s.b, s.c));
    State(Plus(t1, t2), s.a, s.b, s.c, Plus(s.d, t1), s.e, s.f, s.g)
  }

  /** The working variables after `t` rounds. */
  function Rounds(s: State, block: seq<byte>, t: nat): State
    requires |block| == 64 && t <= 64
  {
    if t == 0 then s else Round(Rounds(s, block, t - 1), RoundConstants()[t - 1], Schedule(block, t - 1))
  }

  function AddState(s: State, r: State): State {
    State(Plus(s.a, r.a), Plus(s.b, r.b), Plus(s.c, r.c), Plus(s.d, r.d),
          Plus(s.e, r.e), Plus(s.f, r.f), Plus(s.g, r.g), Plus(s.h, r.h))
  }

  function Compress(s: State, block: seq<byte>): State
    requires |block| == 64
  {
    AddState(s, Rounds(s, block, 64))
  }

  /** The hash value after the first `n` blocks. */
  function Hash(padded: seq<byte>, n: nat): State
    requires 64 * n <= |padded|
  {
    if n == 0 then INITIAL else Compress(Hash(padded, n - 1), padded[64 * (n - 1)..64 * n])
  }

  function Digest(s: State): seq<byte> {
    BigEndian32(s.a) + BigEndian32(s.b) + BigEndian32(s.c) + BigEndian32(s.d)
    + BigEndian32(s.e) + BigEndian32(s.f) + BigEndian32(s.g) + BigEndian32(s.h)
  }

  // ---------- FIPS 180-4: padding ----------

  const LIMIT64 := TWO32 * TWO32

  function BigEndian64(n: nat): (b: seq<byte>)
    requires n < LIMIT64
    ensures |b| == 8
  {
    BigEndian32(n / TWO32) + BigEndian32(n % TWO32)
  }

  /** `n` message bytes, the byte starting with the one bit and `k` zero bytes fill all but the last 64 bits of a block. */
  predicate Fills(n: nat, k: nat) {
    8 * (n + 1 + k) % 512 == 448
  }

  /** The least number of zero bytes to fill with. */
  function FewestZeros(n: nat): nat {
    (55 - n) % 64
  }

  lemma FewestZerosIs(n: nat)
    ensures Fills(n, FewestZeros(n)) && forall j :: 0 <= j < FewestZeros(n) ==> !Fills(n, j)
  {
    var k := FewestZeros(n);
    var d := (55 - n) / 64;
    assert 8 * (n + 1 + k) == 512 * -d + 448;
    Modulo512(-d, 448);
    forall j | 0 <= j < k ensures !Fills(n, j) {
      var x := 8 * (k - j);
      assert 8 * (n + 1 + j) == 512 * -d + 448 - x;
      if x <= 448 {
        Modulo512(-d, 448 - x);
      } else {
        Modulo512(-d - 1, 960 - x);
      }
    }
  }

  lemma Modulo512(e: int, r: nat)
    requires r < 512
    ensures (512 * e + r) % 512 == r
  {
  }

  /** Section 5.1.1, on whole bytes. */
  function Pad(m: seq<byte>): seq<byte>
    requires 8 * |m| < LIMIT64
  {
    m + [0x80] + Zeros(FewestZeros(|m|)) + BigEndian64(8 * |m|)
  }

  /** SHA-256 of the standard. */
  function Fips(m: seq<byte>): seq<byte>
    requires 8 * |m| < LIMIT64
  {
    Digest(Hash(Pad(m), |Pad(m)| / 64))
  }

  // ---------- padding in the code ----------

  /** The buffer of the code: the upper half of the length stays zero, the lower is truncated. */
  function Padded(m: seq<byte>): seq<byte> {
    m + [0x80] + Zeros(FewestZeros(|m|)) + Zeros(4) + BigEndian32(ToUint32(8 * |m|))
  }

  lemma PaddedLength(n: nat)
    ensures (n + 1 + FewestZeros(n) + 8) % 64 == 0
    ensures FewestZeros(n) == var pad := 64 - (n + 9) % 64; if pad == 64 then 0 else pad
  {
    var q, r := n / 64, n % 64;
    assert n == 64 * q + r;
    assert FewestZeros(n) == if r <= 55 then 55 - r else 119 - r;
  }

  /** The buffer is the padding of the standard exactly below 2^29 bytes. */
  lemma PaddingIff(m: seq<byte>)
    requires 8 * |m| < LIMIT64
    ensures Padded(m) == Pad(m) <==> |m| < 0x2000_0000
  {
    hide BigEndian32;
    var n := 8 * |m|;
    var head := m + [0x80] + Zeros(FewestZeros(|m|));
    assert Padded(m)[|head|..] == Zeros(4) + BigEndian32(n % TWO32);
    assert Pad(m)[|head|..] == BigEndian64(n);
    ZeroWord(n / TWO32);
    if |m| < 0x2000_0000 {
      assert n / TWO32 == 0;
    } else {
      assert BigEndian64(n)[..4] != Zeros(4);
    }
  }

  lemma ZeroWord(n: uint32)
    ensures BigEndian32(n) == Zeros(4) <==> n == 0
  {
    BigEndianInverse(n);
    BigEndianInverse(0);
    assert BigEndian32(0) == Zeros(4);
  }

  // ---------- JavaScript's operators ----------

  /** The value of a bitwise operator is a signed 32-bit integer. */
  function Signed(b: bv32): int {
    ToInt32(Val(b))
  }

  function And(x: int, y: int): int {
    Signed(AndW(Bits(x), Bits(y)))
  }

  function Or(x: int, y: int): int {
    Signed(OrW(Bits(x), Bits(y)))
  }

  function Xor(x: int, y: int): int {
    Signed(XorW(Bits(x), Bits(y)))
  }

  function Not(x: int): int {
    Signed(NotW(Bits(x)))
  }

  function Shl(x: int, n: bv6): int
    requires n < 32
  {
    Signed(ShlW(Bits(x), n))
  }

  /** `x >>> n`; `x >>> 0` is `ToUint32`. */
  function Shr(x: int, n: bv6): uint32
    requires n < 32
  {
    Val(ShrW(Bits(x), n))
  }

  lemma BitsBack(b: bv32)
    ensures (b as int) as bv32 == b
  {
  }

  lemma BitsOfVal(b: bv32)
    ensures Bits(Val(b)) == b
  {
    hide ToUint32;
    SameResidue(Val(b));
    BitsBack(b);
  }

  /** The sign does not disturb the bits. */
  lemma BitsOfSigned(b: bv32)
    ensures Bits(Signed(b)) == b && ToUint32(Signed(b)) == Val(b)
  {
    hide ToUint32, ToInt32, Val;
    SameResidue(Val(b));
    BitsOfVal(b);
  }

  lemma RotationBits(x: int, n: bv6)
    requires 0 < n < 32
    ensures Bits(Or(Shr(x, n), Shl(x, 32 - n))) == Rotr(Bits(x), n)
  {
    hide Bits, Signed, Val, OrW, ShrW, ShlW;
    BitsOfVal(ShrW(Bits(x), n));
    BitsOfSigned(ShlW(Bits(x), 32 - n));
    BitsOfSigned(OrW(Bits(Shr(x, n)), Bits(Shl(x, 32 - n))));
  }

  lemma Xor3(x: int, y: int, z: int)
    ensures ToUint32(Xor(Xor(x, y), z)) == Val(XorW(XorW(Bits(x), Bits(y)), Bits(z)))
  {
    hide Bits, Signed, Val, ToUint32, XorW;
    BitsOfSigned(XorW(Bits(x), Bits(y)));
    BitsOfSigned(XorW(Bits(Xor(x, y)), Bits(z)));
  }

  // ---------- the expressions of the code ----------

  function CodeS1(e: uint32): uint32 {
    ToUint32(Xor(Xor(Or(Shr(e, 6), Shl(e, 26)), Or(Shr(e, 11), Shl(e, 21))), Or(Shr(e, 25), Shl(e, 7))))
  }

  function CodeS0(a: uint32): uint32 {
    ToUint32(Xor(Xor(Or(Shr(a, 2), Shl(a, 30)), Or(Shr(a, 13), Shl(a, 19))), Or(Shr(a, 22), Shl(a, 10))))
  }

  function CodeSmall0(x: uint32): uint32 {
    ToUint32(Xor(Xor(Or(Shr(x, 7), Shl(x, 25)), Or(Shr(x, 18), Shl(x, 14))), Shr(x, 3)))
  }

  function CodeSmall1(x: uint32): uint32 {
    ToUint32(Xor(Xor(Or(Shr(x, 17), Shl(x, 15)), Or(Shr(x, 19), Shl(x, 13))), Shr(x, 10)))
  }

  function CodeCh(e: uint32, f: uint32, g: uint32): uint32 {
    ToUint32(Xor(And(e, f), And(Not(e), g)))
  }

  function CodeMaj(a: uint32, b: uint32, c: uint32): uint32 {
    ToUint32(Xor(Xor(And(a, b), And(a, c)), And(b, c)))
  }

  /** Each expression, signed in between, is the function of the standard. */
  lemma BigExpressions(x: uint32)
    ensures CodeS1(x) == BigSigma1(x) && CodeS0(x) == BigSigma0(x)
  {
    RotationBits(x, 6);
    RotationBits(x, 11);
    RotationBits(x, 25);
    RotationBits(x, 2);
    RotationBits(x, 13);
    RotationBits(x, 22);
    hide Bits, Val, Or, Xor, XorW, Shr, Shl, ToUint32, Rotr;
    Xor3(Or(Shr(x, 6), Shl(x, 26)), Or(Shr(x, 11), Shl(x, 21)), Or(Shr(x, 25), Shl(x, 7)));
    Xor3(Or(Shr(x, 2), Shl(x, 30)), Or(Shr(x, 13), Shl(x, 19)), Or(Shr(x, 22), Shl(x, 10)));
  }

  lemma SmallExpressions(x: uint32)
    ensures CodeSmall0(x) == SmallSigma0(x) && CodeSmall1(x) == SmallSigma1(x)
  {
    hide Bits, Val, Or, Xor, XorW, Shl, ShrW, ToUint32, Rotr;
    RotationBits(x, 7);
    RotationBits(x, 18);
    RotationBits(x, 17);
    RotationBits(x, 19);
    BitsOfVal(ShrW(Bits(x), 3));
    BitsOfVal(ShrW(Bits(x), 10));
    Xor3(Or(Shr(x, 7), Shl(x, 25)), Or(Shr(x, 18), Shl(x, 14)), Shr(x, 3));
    Xor3(Or(Shr(x, 17), Shl(x, 15)), Or(Shr(x, 19), Shl(x, 13)), Shr(x, 10));
  }

  lemma Choices(x: uint32, y: uint32, z: uint32)
    ensures CodeCh(x, y, z) == Ch(x, y, z) && CodeMaj(x, y, z) == Maj(x, y, z)
  {
    hide Bits, Val, Signed, ToUint32, XorW, AndW, NotW;
    BitsOfSigned(NotW(Bits(x)));
    BitsOfSigned(AndW(Bits(x), Bits(y)));
    BitsOfSigned(AndW(Bits(Not(x)), Bits(z)));
    BitsOfSigned(XorW(Bits(And(x, y)), Bits(And(Not(x), z))));
    BitsOfSigned(AndW(Bits(x), Bits(z)));
    BitsOfSigned(AndW(Bits(y), Bits(z)));
    Xor3(And(x, y), And(x, z), And(y, z));
  }

  /** Reducing once at the end is reducing after every addition. */
  lemma ReduceOnce(x: nat, y: uint32)
    ensures ToUint32(x + y) == Plus(ToUint32(x), y)
  {
  }

  lemma Sum4(p: uint32, q: uint32, r: uint32, s: uint32)
    ensures ToUint32(p + q + r + s) == Plus(Plus(Plus(p, q), r), s)
  {
    hide ToUint32, Plus;
    SameResidue(p);
    ReduceOnce(p, q);
    ReduceOnce(p + q, r);
    ReduceOnce(p + q + r, s);
  }

  lemma Sum5(p: uint32, q: uint32, r: uint32, s: uint32, t: uint32)
    ensures ToUint32(p + q + r + s + t) == Plus(Plus(Plus(Plus(p, q), r), s), t)
  {
    hide ToUint32, Plus;
    Sum4(p, q, r, s);
    ReduceOnce(p + q + r + s, t);
  }

  // ---------- the code ----------

  /** Pre-processing. */
  method PadBuffer(msg: seq<byte>) returns (buf: array<byte>)
    ensures fresh(buf) && buf[..] == Padded(msg) && buf.Length % 64 == 0
  {
    hide BigEndian32;
    PaddedLength(|msg|);
    var bitLen := |msg| * 8;
    var padLen := 64 - (|msg| + 9) % 64;
    var totalLen := |msg| + 1 + (if padLen == 64 then 0 else padLen) + 8;
    buf := new byte[totalLen](_ => 0);
    SetBytes(buf, 0, msg);
    buf[|msg|] := 0x80;
    SetUint32(buf, totalLen - 4, ToUint32(bitLen));
    assert buf[..|msg|] == msg;
    assert buf[totalLen - 8..totalLen - 4] == Zeros(4);
  }

  lemma FirstWords(block: seq<byte>, t: nat)
    requires |block| == 64 && t < 16
    ensures Schedule(block, t) == FromBigEndian32(block[t * 4..t * 4 + 4])
  {
  }

  /** The loop that fills the first words of the schedule. */
  method LoadWords(buf: array<byte>, off: nat, w: array<uint32>)
    requires off + 64 <= buf.Length && w.Length == 64
    modifies w
    ensures forall t :: 0 <= t < 16 ==> w[t] == Schedule(buf[off..off + 64], t)
  {
    ghost var block := buf[off..off + 64];
    for i := 0 to 16
      invariant forall t :: 0 <= t < i ==> w[t] == Schedule(block, t)
    {
      hide FromBigEndian32, Schedule;
      var k := off + i * 4;
      assert block[i * 4..i * 4 + 4] == buf[k..k + 4];
      w[i] := FromBigEndian32(buf[k..k + 4]);
      FirstWords(block, i);
    }
  }

  /** The loop that fills the rest. */
  method Expand(w: array<uint32>, ghost block: seq<byte>)
    requires |block| == 64 && w.Length == 64 && forall t :: 0 <= t < 16 ==> w[t] == Schedule(block, t)
    modifies w
    ensures forall t :: 0 <= t < 64 ==> w[t] == Schedule(block, t)
  {
    hide CodeSmall0, CodeSmall1, Schedule, ToUint32;
    for i := 16 to 64
      invariant forall t :: 0 <= t < i ==> w[t] == Schedule(block, t)
    {
      ScheduleIs(w[i - 16], w[i - 15], w[i - 7], w[i - 2], block, i);
      var s0 := CodeSmall0(w[i - 15]);
      var s1 := CodeSmall1(w[i - 2]);
      w[i] := ToUint32(w[i - 16] as int + s0 + w[i - 7] + s1);
    }
  }

  lemma ScheduleIs(w16: uint32, w15: uint32, w7: uint32, w2: uint32, block: seq<byte>, t: nat)
    requires |block| == 64 && 16 <= t < 64
    requires w16 == Schedule(block, t - 16) && w15 == Schedule(block, t - 15)
    requires w7 == Schedule(block, t - 7) && w2 == Schedule(block, t - 2)
    ensures Schedule(block, t) == ToUint32(w16 + CodeSmall0(w15) + w7 + CodeSmall1(w2))
  {
    hide CodeSmall0, CodeSmall1, SmallSigma0, SmallSigma1, ToUint32, Plus, Schedule;
    ScheduleStep(block, t);
    SmallExpressions(w15);
    SmallExpressions(w2);
    SumSchedule(w16, CodeSmall0(w15), w7, CodeSmall1(w2));
  }

  lemma ScheduleStep(block: seq<byte>, t: nat)
    requires |block| == 64 && 16 <= t < 64
    ensures Schedule(block, t) ==
            Plus(Plus(Plus(SmallSigma1(Schedule(block, t - 2)), Schedule(block, t - 7)),
                      SmallSigma0(Schedule(block, t - 15))), Schedule(block, t - 16))
  {
  }

  /** The code adds in another order than the standard. */
  lemma SumSchedule(w16: uint32, s0: uint32, w7: uint32, s1: uint32)
    ensures ToUint32(w16 + s0 + w7 + s1) == Plus(Plus(Plus(s1, w7), s0), w16)
  {
    hide ToUint32, Plus;
    Sum4(s1, w7, s0, w16);
    assert w16 + s0 + w7 + s1 == s1 + w7 + s0 + w16;
  }

  /** One pass of the loop body is one round. */
  lemma RoundIs(s: State, k: uint32, w: uint32)
    ensures var temp1 := ToUint32(s.h + CodeS1(s.e) + CodeCh(s.e, s.f, s.g) + k + w);
            var temp2 := ToUint32(CodeS0(s.a) + CodeMaj(s.a, s.b, s.c));
            Round(s, k, w) == State(ToUint32(temp1 + temp2), s.a, s.b, s.c, ToUint32(s.d + temp1), s.e, s.f, s.g)
  {
    BigExpressions(s.e);
    BigExpressions(s.a);
    Choices(s.e, s.f, s.g);
    Choices(s.a, s.b, s.c);
    hide CodeS0, CodeS1, CodeCh, CodeMaj, BigSigma0, BigSigma1, Ch, Maj, ToUint32;
    Sum5(s.h, BigSigma1(s.e), Ch(s.e, s.f, s.g), k, w);
  }

  /** The 64 rounds on the working variables. */
  method RunRounds(s: State, w: array<uint32>, ghost block: seq<byte>) returns (r: State)
    requires w.Length == 64 && |block| == 64 && forall t :: 0 <= t < 64 ==> w[t] == Schedule(block, t)
    ensures r == Rounds(s, block, 64)
  {
    hide CodeS0, CodeS1, CodeCh, CodeMaj, Round, RoundConstants, Schedule, ToUint32;
    var a, b, c, d, e, f, g, h := s.a, s.b, s.c, s.d, s.e, s.f, s.g, s.h;
    for i := 0 to 64
      invariant State(a, b, c, d, e, f, g, h) == Rounds(s, block, i)
    {
      RoundIs(State(a, b, c, d, e, f, g, h), RoundConstants()[i], w[i]);
      var S1 := CodeS1(e);
      var ch := CodeCh(e, f, g);
      var temp1 := ToUint32(h as int + S1 + ch + RoundConstants()[i] + w[i]);
      var S0 := CodeS0(a);
      var maj := CodeMaj(a, b, c);
      var temp2 := ToUint32(S0 as int + maj);
      h := g;
      g := f;
      f := e;
      e := ToUint32(d as int + temp1);
      d := c;
      c := b;
      b := a;
      a := ToUint32(temp1 as int + temp2);
    }
    r := State(a, b, c, d, e, f, g, h);
  }

  method WriteDigest(s: State) returns (out: array<byte>)
    ensures fresh(out) && out[..] == Digest(s)
  {
    hide BigEndian32;
    out := new byte[32](_ => 0);
    WriteHalf(out, 0, s.a, s.b, s.c, s.d);
    WriteHalf(out, 16, s.e, s.f, s.g, s.h);
    assert out[..] == out[0..16] + out[16..32];
  }

  method WriteHalf(out: array<byte>, at: nat, p: uint32, q: uint32, r: uint32, s: uint32)
    requires at + 16 <= out.Length
    modifies out
    ensures out[at..at + 16] == BigEndian32(p) + BigEndian32(q) + BigEndian32(r) + BigEndian32(s)
    ensures forall k :: 0 <= k < out.Length && !(at <= k < at + 16) ==> out[k] == old(out[k])
  {
    hide BigEndian32;
    SetUint32(out, at, p);
    SetUint32(out, at + 4, q);
    SetUint32(out, at + 8, r);
    SetUint32(out, at + 12, s);
    assert out[at..at + 4] == BigEndian32(p) && out[at + 4..at + 8] == BigEndian32(q);
    assert out[at + 8..at + 12] == BigEndian32(r);
    assert out[at..at + 16] == out[at..at + 4] + out[at + 4..at + 8] + out[at + 8..at + 12] + out[at + 12..at + 16];
  }

  /** The hash of any message is that of its padded buffer; below 2^29 bytes it is SHA-256. */
  method Sha256(msg: seq<byte>) returns (out: array<byte>)
    ensures fresh(out) && |Padded(msg)| % 64 == 0 && out[..] == Digest(Hash(Padded(msg), |Padded(msg)| / 64))
    ensures |msg| < 0x2000_0000 ==> out[..] == Fips(msg)
  {
    hide Digest, Padded, Pad, Hash, Schedule, Rounds;
    var buf := PadBuffer(msg);
    var s := INITIAL;
    var w := new uint32[64](_ => 0);
    HashStart(buf[..]);
    var blocks := buf.Length / 64;
    for n := 0 to blocks
      invariant s == Hash(Padded(msg), n) && buf[..] == Padded(msg) && w.Length == 64
    {
      var off := 64 * n;
      ghost var block := Padded(msg)[off..off + 64];
      assert block == buf[off..off + 64];
      LoadWords(buf, off, w);
      Expand(w, block);
      var r := RunRounds(s, w, block);
      HashStep(Padded(msg), n);
      s := AddState(s, r);
    }
    out := WriteDigest(s);
    FipsIs(msg);
  }

  lemma FipsIs(msg: seq<byte>)
    ensures |msg| < 0x2000_0000 ==> Fips(msg) == Digest(Hash(Padded(msg), |Padded(msg)| / 64))
  {
    if |msg| < 0x2000_0000 {
      hide Padded, Pad, Hash, Digest;
      PaddingIff(msg);
    }
  }

  lemma HashStart(padded: seq<byte>)
    ensures Hash(padded, 0) == INITIAL
  {
  }

  lemma HashStep(padded: seq<byte>, n: nat)
    requires 64 * n + 64 <= |padded|
    ensures var s := Hash(padded, n);
            Hash(padded, n + 1) == AddState(s, Rounds(s, padded[64 * n..64 * n + 64], 64))
  {
    hide Rounds, AddState;
  }

  // ---------- the constants ----------

  /** The 32 bits `k` and the integer part `n` are the cube root of `p`, cut there. */
  predicate CubeRoot(p: nat, n: nat, k: uint32) {
    var root := n * TWO32 + k;
    root * root * root <= p * TWO32 * TWO32 * TWO32 < (root + 1) * (root + 1) * (root + 1)
  }

  predicate SquareRoot(p: nat, n: nat, k: uint32) {
    var root := n * TWO32 + k;
    root * root <= p * TWO32 * TWO32 < (root + 1) * (root + 1)
  }

  /** Section 4.2.2: the constants are fractional parts of the cube roots of the first 64 primes. */
  lemma RootsRow0()
    ensures CubeRoot(2, 1, Constants0()[0]) && CubeRoot(3, 1, Constants0()[1]) && CubeRoot(5, 1, Constants0()[2]) && CubeRoot(7, 1, Constants0()[3])
    ensures CubeRoot(11, 2, Constants0()[4]) && CubeRoot(13, 2, Constants0()[5]) && CubeRoot(17, 2, Constants0()[6]) && CubeRoot(19, 2, Constants0()[7])
    ensures CubeRoot(23, 2, Constants0()[8]) && CubeRoot(29, 3, Constants0()[9]) && CubeRoot(31, 3, Constants0()[10]) && CubeRoot(37, 3, Constants0()[11])
    ensures CubeRoot(41, 3, Constants0()[12]) && CubeRoot(43, 3, Constants0()[13]) && CubeRoot(47, 3, Constants0()[14]) && CubeRoot(53, 3, Constants0()[15])
  {
  }

  lemma RootsRow1()
    ensures CubeRoot(59, 3, Constants1()[0]) && CubeRoot(61, 3, Constants1()[1]) && CubeRoot(67, 4, Constants1()[2]) && CubeRoot(71, 4, Constants1()[3])
    ensures CubeRoot(73, 4, Constants1()[4]) && CubeRoot(79, 4, Constants1()[5]) && CubeRoot(83, 4, Constants1()[6]) && CubeRoot(89, 4, Constants1()[7])
    ensures CubeRoot(97, 4, Constants1()[8]) && CubeRoot(101, 4, Constants1()[9]) && CubeRoot(103, 4, Constants1()[10]) && CubeRoot(107, 4, Constants1()[11])
    ensures CubeRoot(109, 4, Constants1()[12]) && CubeRoot(113, 4, Constants1()[13]) && CubeRoot(127, 5, Constants1()[14]) && CubeRoot(131, 5, Constants1()[15])
  {
  }

  lemma RootsRow2()
    ensures CubeRoot(137, 5, Constants2()[0]) && CubeRoot(139, 5, Constants2()[1]) && CubeRoot(149, 5, Constants2()[2]) && CubeRoot(151, 5, Constants2()[3])
    ensures CubeRoot(157, 5, Constants2()[4]) && CubeRoot(163, 5, Constants2()[5]) && CubeRoot(167, 5, Constants2()[6]) && CubeRoot(173, 5, Constants2()[7])
    ensures CubeRoot(179, 5, Constants2()[8]) && CubeRoot(181, 5, Constants2()[9]) && CubeRoot(191, 5, Constants2()[10]) && CubeRoot(193, 5, Constants2()[11])
    ensures CubeRoot(197, 5, Constants2()[12]) && CubeRoot(199, 5, Constants2()[13]) && CubeRoot(211, 5, Constants2()[14]) && CubeRoot(223, 6, Constants2()[15])
  {
  }

  lemma RootsRow3()
    ensures CubeRoot(227, 6, Constants3()[0]) && CubeRoot(229, 6, Constants3()[1]) && CubeRoot(233, 6, Constants3()[2]) && CubeRoot(239, 6, Constants3()[3])
    ensures CubeRoot(241, 6, Constants3()[4]) && CubeRoot(251, 6, Constants3()[5]) && CubeRoot(257, 6, Constants3()[6]) && CubeRoot(263, 6, Constants3()[7])
    ensures CubeRoot(269, 6, Constants3()[8]) && CubeRoot(271, 6, Constants3()[9]) && CubeRoot(277, 6, Constants3()[10]) && CubeRoot(281, 6, Constants3()[11])
    ensures CubeRoot(283, 6, Constants3()[12]) && CubeRoot(293, 6, Constants3()[13]) && CubeRoot(307, 6, Constants3()[14]) && CubeRoot(311, 6, Constants3()[15])
  {
  }

  /** Section 5.3.3: the initial value, from the square roots of the first eight. */
  lemma InitialRoots()
    ensures SquareRoot(2, 1, INITIAL.a) && SquareRoot(3, 1, INITIAL.b) && SquareRoot(5, 2, INITIAL.c)
    ensures SquareRoot(7, 2, INITIAL.d) && SquareRoot(11, 3, INITIAL.e) && SquareRoot(13, 3, INITIAL.f)
    ensures SquareRoot(17, 4, INITIAL.g) && SquareRoot(19, 4, INITIAL.h)
  {
  }
}
