/**
 * JavaScript's `&` and `<<` on numbers, by arithmetic: what masks keep, and
 * big-endian byte strings as numbers.
 */
module Bitwise {
  import opened Words

  /** The low `n` bits of the conjunction. */
  function BitAnd(x: nat, y: nat, n: nat): nat {
    if n == 0 then 0 else x % 2 * (y % 2) + 2 * BitAnd(x / 2, y / 2, n - 1)
  }

  lemma {:induction false} BitAndBound(x: nat, y: nat, n: nat)
    ensures BitAnd(x, y, n) <= x
  {
    if n > 0 {
      BitAndBound(x / 2, y / 2, n - 1);
      BitProduct(x % 2, y % 2);
    }
  }

  lemma BitProduct(a: nat, b: nat)
    requires a < 2 && b < 2
    ensures a * b <= a
  {
  }

  /** `x & y`, a signed result. */
  function And(x: int, y: int): int {
    ToInt32(ToUint32(BitAnd(ToUint32(x), ToUint32(y), 32)))
  }

  /** `x << n` */
  function Shl(x: int, n: nat): int {
    ToInt32(ToUint32(x * Pow2(n)))
  }

  /** `x` halved `k` times. */
  function High(x: nat, k: nat): nat {
    if k == 0 then x else High(x / 2, k - 1)
  }

  lemma {:induction false} Pow2Sum(m: nat, n: nat)
    ensures Pow2(m + n) == Pow2(m) * Pow2(n)
  {
    if m > 0 {
      Pow2Sum(m - 1, n);
      DoubleFirst(Pow2(m - 1), Pow2(n));
    }
  }

  lemma DoubleFirst(a: int, b: int)
    ensures (2 * a) * b == 2 * (a * b)
  {
  }

  lemma Pow2Values()
    ensures Pow2(8) == 0x100 && Pow2(16) == TWO16 && Pow2(32) == TWO32
  {
    assert Pow2(4) == 16;
    Pow2Sum(4, 4);
    Pow2Sum(8, 8);
    Pow2Sum(16, 16);
  }

  lemma {:induction false} HighBounds(x: nat, k: nat)
    ensures 0 <= x - Pow2(k) * High(x, k) < Pow2(k)
  {
    if k > 0 {
      HighBounds(x / 2, k - 1);
      DoubledProduct(Pow2(k - 1), High(x, k));
    }
  }

  lemma DoubledProduct(m: nat, h: nat)
    ensures 2 * m * h == 2 * (m * h)
  {
  }

  lemma Monotone(m: nat, a: int, b: int)
    requires a <= b
    ensures m * a <= m * b
  {
  }

  /** Halving is division by a power of two. */
  lemma HighIs(x: nat, k: nat)
    ensures Pow2(k) > 0 && High(x, k) == x / Pow2(k)
  {
    HighBounds(x, k);
    DivisionIs(x, Pow2(k), High(x, k), x - Pow2(k) * High(x, k));
  }

  lemma {:induction false} HighSum(x: nat, j: nat, k: nat)
    ensures High(x, j + k) == High(High(x, j), k)
  {
    if j > 0 {
      HighSum(x / 2, j - 1, k);
    }
  }

  /** Halving a two-part number. */
  lemma {:induction false} HighTwoParts(v: nat, l: nat, j: nat, k: nat)
    requires k <= j && l < Pow2(j)
    ensures v * Pow2(j) + l >= 0 && High(v * Pow2(j) + l, k) == v * Pow2(j - k) + High(l, k)
    ensures High(l, k) < Pow2(j - k)
    decreases k
  {
    hide Pow2, High;
    if k > 0 {
      Pow2Step(j);
      HighTwoParts(v, l / 2, j - 1, k - 1);
      HalveTwoParts(v, Pow2(j - 1), l);
      HighStep(v * Pow2(j) + l, k);
      HighStep(l, k);
    } else {
      HighNone(v * Pow2(j) + l);
      HighNone(l);
    }
  }

  lemma HighStep(x: nat, k: nat)
    requires k > 0
    ensures High(x, k) == High(x / 2, k - 1)
  {
  }

  lemma HighNone(x: nat)
    ensures High(x, 0) == x
  {
  }

  lemma Pow2Step(n: nat)
    requires n > 0
    ensures Pow2(n) == 2 * Pow2(n - 1)
  {
  }

  lemma HalveTwoParts(v: nat, m: nat, l: nat)
    ensures v * (2 * m) + l >= 0 && (v * (2 * m) + l) / 2 == v * m + l / 2
  {
    var t := v * m;
    assert v * (2 * m) == 2 * t;
  }

  lemma TwoPartsEqual(m: nat, v: nat, l: nat, w: nat, r: nat)
    requires l < m && r < m
    ensures v * m + l == w * m + r <==> v == w && l == r
  {
    if v < w {
      Monotone(m, v + 1, w);
    } else if w < v {
      Monotone(m, w + 1, v);
    }
  }

  // ---------- masks ----------

  /** `n - k` one bits above `k` zero bits. */
  function Mask(n: nat, k: nat): nat
    requires k <= n
  {
    MaskShape(n, k);
    Pow2(n) - Pow2(k)
  }

  lemma MaskHalves(n: nat, k: nat)
    requires 0 < k <= n
    ensures Mask(n, k) / 2 == Mask(n - 1, k - 1) && Mask(n, k) % 2 == 0
  {
    MaskShape(n, k);
  }

  lemma {:induction false} MaskShape(n: nat, k: nat)
    requires k <= n
    ensures Pow2(n) >= Pow2(k) >= 1
    ensures k > 0 ==> (Pow2(n) - Pow2(k)) / 2 == Pow2(n - 1) - Pow2(k - 1) && (Pow2(n) - Pow2(k)) % 2 == 0
  {
    if k > 0 {
      MaskShape(n - 1, k - 1);
    } else {
      Pow2Positive(n);
    }
  }

  lemma {:induction false} AndOnes(x: nat, n: nat)
    requires x < Pow2(n)
    ensures BitAnd(x, Mask(n, 0), n) == x
  {
    if n > 0 {
      Pow2Positive(n - 1);
      assert Mask(n, 0) / 2 == Mask(n - 1, 0) && Mask(n, 0) % 2 == 1;
      AndOnes(x / 2, n - 1);
    }
  }

  lemma AndEven(x: nat, y: nat, n: nat)
    requires n > 0 && y % 2 == 0
    ensures BitAnd(x, y, n) == 2 * BitAnd(x / 2, y / 2, n - 1)
  {
  }

  /** Masked values are equal exactly when the high bits are. */
  lemma {:induction false} MaskedEqual(x: nat, y: nat, n: nat, k: nat)
    requires k <= n && x < Pow2(n) && y < Pow2(n)
    ensures BitAnd(x, Mask(n, k), n) == BitAnd(y, Mask(n, k), n) <==> High(x, k) == High(y, k)
    decreases k
  {
    if k == 0 {
      AndOnes(x, n);
      AndOnes(y, n);
    } else {
      MaskHalves(n, k);
      AndEven(x, Mask(n, k), n);
      AndEven(y, Mask(n, k), n);
      hide BitAnd, Mask;
      MaskedEqual(x / 2, y / 2, n - 1, k - 1);
    }
  }

  /** Masking keeps the high bits. */
  lemma {:induction false} MaskKeepsHigh(x: nat, n: nat, k: nat)
    requires k <= n && x < Pow2(n)
    ensures BitAnd(x, Mask(n, k), n) <= x
    ensures High(BitAnd(x, Mask(n, k), n), k) == High(x, k)
    decreases k
  {
    if k == 0 {
      AndOnes(x, n);
    } else {
      MaskHalves(n, k);
      AndEven(x, Mask(n, k), n);
      hide BitAnd, Mask;
      MaskKeepsHigh(x / 2, n - 1, k - 1);
    }
  }

  /** Bits above both operands do not matter. */
  lemma {:induction false} AndShort(x: nat, y: nat, m: nat, n: nat)
    requires m <= n && x < Pow2(m)
    ensures BitAnd(x, y, n) == BitAnd(x, y, m)
    decreases n
  {
    if n > 0 {
      AndShort(x / 2, y / 2, if m == 0 then 0 else m - 1, n - 1);
    }
  }

  lemma {:induction false} AndCommutes(x: nat, y: nat, n: nat)
    ensures BitAnd(x, y, n) == BitAnd(y, x, n)
  {
    if n > 0 {
      AndCommutes(x / 2, y / 2, n - 1);
    }
  }

  /** Bits above the `n` taken do not matter either. */
  lemma {:induction false} AndModulo(x: nat, y: nat, n: nat)
    ensures Pow2(n) > 0 && BitAnd(x % Pow2(n), y, n) == BitAnd(x, y, n)
  {
    Pow2Positive(n);
    if n > 0 {
      Pow2Positive(n - 1);
      AndModulo(x / 2, y / 2, n - 1);
      ModuloHalves(x, Pow2(n - 1));
    }
  }

  lemma ModuloHalves(x: nat, m: nat)
    requires m > 0
    ensures x % (2 * m) / 2 == x / 2 % m && x % (2 * m) % 2 == x % 2
  {
    var q, r := x / 2 / m, x / 2 % m;
    var t := 2 * r + x % 2;
    assert x / 2 == m * q + r;
    assert x == 2 * m * q + t;
    DivisionIs(x, 2 * m, q, t);
  }

  lemma DivisionIs(x: nat, m: nat, q: nat, r: nat)
    requires r < m && x == m * q + r
    ensures x / m == q && x % m == r
  {
    assert x == m * (x / m) + x % m;
    assert x / m * m == m * (x / m) && q * m == m * q;
    TwoPartsEqual(m, x / m, x % m, q, r);
  }

  // ---------- big-endian numbers ----------

  function BigEndian(b: seq<byte>): nat {
    if b == [] then 0 else
      var last: int := b[|b| - 1];
      0x100 * BigEndian(b[..|b| - 1]) + last
  }

  /** The fixed-width readings are those of big-endian byte strings. */
  lemma FixedWidths(b: seq<byte>)
    ensures |b| == 2 ==> FromBigEndian16(b) == BigEndian(b)
    ensures |b| == 4 ==> FromBigEndian32(b) == BigEndian(b)
  {
    if |b| == 2 {
      BigEndianTwo(b);
    } else if |b| == 4 {
      BigEndianTwo(b[..2]);
      assert b[..3][..2] == b[..2] && b[..4] == b;
    }
  }

  lemma BigEndianTwo(b: seq<byte>)
    requires |b| == 2
    ensures BigEndian(b) == 0x100 * (b[0] as int) + b[1]
  {
    var a := b[..1];
    assert a[..0] == [];
    assert BigEndian(a) == a[0] as int;
    assert b[..|b| - 1] == a;
  }

  lemma {:induction false} BigEndianInjective(a: seq<byte>, b: seq<byte>)
    requires |a| == |b|
    ensures BigEndian(a) == BigEndian(b) <==> a == b
  {
    if a != [] {
      var n := |a| - 1;
      BigEndianInjective(a[..n], b[..n]);
      assert a == a[..n] + [a[n]] && b == b[..n] + [b[n]];
    }
  }

  /** The first byte that differs decides. */
  lemma {:induction false} BigEndianOrder(a: seq<byte>, b: seq<byte>, i: nat)
    requires |a| == |b| && i < |a| && a[..i] == b[..i] && a[i] < b[i]
    ensures BigEndian(a) < BigEndian(b)
  {
    var n := |a| - 1;
    if i < n {
      assert a[..n][..i] == a[..i] && b[..n][..i] == b[..i];
      BigEndianOrder(a[..n], b[..n], i);
    } else {
      assert a[..n] == b[..n];
    }
  }

  /** The first `p` bits of two byte strings agree. */
  predicate TopEqual(a: seq<byte>, b: seq<byte>, p: nat)
    requires |a| == |b| && p <= 8 * |a|
  {
    && a[..p / 8] == b[..p / 8]
    && (p % 8 > 0 ==> High(a[p / 8], 8 - p % 8) == High(b[p / 8], 8 - p % 8))
  }

  /** Agreement on a prefix is equality after division by the power of two of the other bits. */
  lemma {:induction false} TopEqualIs(a: seq<byte>, b: seq<byte>, p: nat)
    requires |a| == |b| && p <= 8 * |a|
    ensures TopEqual(a, b, p) <==> High(BigEndian(a), 8 * |a| - p) == High(BigEndian(b), 8 * |a| - p)
    decreases |a|
  {
    var k := 8 * |a| - p;
    if a == [] {
    } else if k >= 8 {
      hide High;
      var n := |a| - 1;
      TopEqualIs(a[..n], b[..n], p);
      HighByte(a, k);
      HighByte(b, k);
      assert a[..n][..p / 8] == a[..p / 8] && b[..n][..p / 8] == b[..p / 8];
    } else {
      TopEqualLast(a, b, k);
      if k == 0 {
        assert a[..|a|] == a && b[..|b|] == b;
        BigEndianInjective(a, b);
      }
    }
  }

  lemma HighByte(a: seq<byte>, k: nat)
    requires a != [] && k >= 8
    ensures High(BigEndian(a), k) == High(BigEndian(a[..|a| - 1]), k - 8)
  {
    var v, l: nat := BigEndian(a[..|a| - 1]), a[|a| - 1];
    Pow2Values();
    HighTwoParts(v, l, 8, 8);
    assert v * Pow2(8) == 0x100 * v;
    assert Pow2(0) == 1;
    HighSum(BigEndian(a), 8, k - 8);
  }

  lemma TopEqualLast(a: seq<byte>, b: seq<byte>, k: nat)
    requires |a| == |b| > 0 && k < 8
    ensures High(BigEndian(a), k) == High(BigEndian(b), k) <==>
            a[..|a| - 1] == b[..|a| - 1] && High(a[|a| - 1], k) == High(b[|a| - 1], k)
  {
    hide BigEndian, High, Pow2;
    var n := |a| - 1;
    BigEndianLast(a);
    BigEndianLast(b);
    PairsEqual(BigEndian(a[..n]), a[n], BigEndian(b[..n]), b[n], k);
    BigEndianInjective(a[..n], b[..n]);
  }

  lemma PairsEqual(v: nat, l: byte, w: nat, r: byte, k: nat)
    requires k < 8
    ensures High(v * Pow2(8) + l, k) == High(w * Pow2(8) + r, k) <==> v == w && High(l, k) == High(r, k)
  {
    hide High, Pow2;
    Pow2Values();
    HighTwoParts(v, l, 8, k);
    HighTwoParts(w, r, 8, k);
    TwoPartsEqual(Pow2(8 - k), v, High(l, k), w, High(r, k));
  }

  lemma BigEndianLast(a: seq<byte>)
    requires a != []
    ensures BigEndian(a) == BigEndian(a[..|a| - 1]) * Pow2(8) + a[|a| - 1]
  {
    Pow2Values();
  }
}
