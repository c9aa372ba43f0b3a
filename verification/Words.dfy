/** Fixed-width integers as JavaScript's typed arrays and `>>> 0` give them. */
module Words {
  const TWO8 := 0x100
  const TWO16 := 0x1_0000
  const TWO32 := 0x1_0000_0000

  type byte = x: int | 0 <= x < TWO8
  type uint16 = x: int | 0 <= x < TWO16
  type uint32 = x: int | 0 <= x < TWO32

  /** `x >>> 0` */
  function ToUint32(x: int): uint32 {
    x % TWO32
  }

  /** The signed reading of 32 bits. */
  function ToInt32(n: uint32): int {
    if n < 0x8000_0000 then n else n - TWO32
  }

  lemma SameResidue(n: uint32)
    ensures ToUint32(ToInt32(n)) == n && ToUint32(n) == n
  {
  }

  function Pow2(n: nat): nat {
    if n == 0 then 1 else 2 * Pow2(n - 1)
  }

  lemma {:induction false} Pow2Positive(n: nat)
    ensures Pow2(n) >= 1
  {
    if n > 0 {
      Pow2Positive(n - 1);
    }
  }

  function BigEndian16(n: uint16): (b: seq<byte>)
    ensures |b| == 2
  {
    [n / 0x100, n % 0x100]
  }

  function FromBigEndian16(b: seq<byte>): uint16
    requires |b| == 2
  {
    var hi: int, lo: int := b[0], b[1];
    hi * 0x100 + lo
  }

  function BigEndian32(n: uint32): (b: seq<byte>)
    ensures |b| == 4
  {
    [n / 0x100_0000, n / 0x1_0000 % 0x100, n / 0x100 % 0x100, n % 0x100]
  }

  function FromBigEndian32(b: seq<byte>): uint32
    requires |b| == 4
  {
    var b0: int, b1: int, b2: int, b3: int := b[0], b[1], b[2], b[3];
    b0 * 0x100_0000 + b1 * 0x1_0000 + b2 * 0x100 + b3
  }

  lemma BigEndian16Inverse(n: uint16)
    ensures FromBigEndian16(BigEndian16(n)) == n
  {
  }

  lemma BigEndianInverse(n: uint32)
    ensures FromBigEndian32(BigEndian32(n)) == n
  {
    var low, mid, high := n % 0x100, n / 0x100, n / 0x1_0000;
    assert n == mid * 0x100 + low;
    assert high == mid / 0x100 && n / 0x100_0000 == high / 0x100;
    assert mid == high * 0x100 + mid % 0x100;
  }

  // ---------- writing into byte arrays ----------

  /** `set` on a byte array. */
  method SetBytes(b: array<byte>, at: nat, src: seq<byte>)
    requires at + |src| <= b.Length
    modifies b
    ensures b[at..at + |src|] == src
    ensures forall k :: 0 <= k < b.Length && !(at <= k < at + |src|) ==> b[k] == old(b[k])
  {
    forall k | 0 <= k < |src| {
      b[at + k] := src[k];
    }
  }

  /** `setUint32`, big-endian. */
  method SetUint32(b: array<byte>, at: nat, n: uint32)
    requires at + 4 <= b.Length
    modifies b
    ensures b[at..at + 4] == BigEndian32(n)
    ensures forall k :: 0 <= k < b.Length && !(at <= k < at + 4) ==> b[k] == old(b[k])
  {
    hide BigEndian32;
    SetBytes(b, at, BigEndian32(n));
  }

  function Zeros(k: nat): (z: seq<byte>)
    ensures |z| == k && forall i :: 0 <= i < k ==> z[i] == 0
  {
    seq(k, _ => 0)
  }

  datatype Option<+T> = None | Some(value: T)

  lemma Associative<T>(a: seq<T>, b: seq<T>, c: seq<T>)
    ensures a + (b + c) == a + b + c
  {
  }

  /** All the elements of `parts`, in order. */
  function Concat<T>(parts: seq<seq<T>>): seq<T> {
    if parts == [] then [] else parts[0] + Concat(parts[1..])
  }

  lemma {:induction false} ConcatAppend<T>(parts: seq<seq<T>>, last: seq<T>)
    ensures Concat(parts + [last]) == Concat(parts) + last
  {
    if parts == [] {
      assert parts + [last] == [last];
    } else {
      assert (parts + [last])[1..] == parts[1..] + [last];
      ConcatAppend(parts[1..], last);
    }
  }
}
