/**
 * `net.BlockList` on parsed addresses: an IPv4 address is its 32-bit value, an
 * IPv6 address its 16 bytes.
 */
module BlockList {
  import opened Bitwise
  import opened Numerals
  import opened Words

  type ip6 = b: seq<byte> | |b| == 16 witness seq(16, _ => 0)

  datatype Address = V4(value: uint32) | V6(bytes: ip6)

  // ---------- the helpers ----------

  /** The sign of the difference as 128-bit numbers. */
  method U8cmp16(a: ip6, b: ip6) returns (c: int)
    ensures c < 0 <==> BigEndian(a) < BigEndian(b)
    ensures c > 0 <==> BigEndian(a) > BigEndian(b)
  {
    for i := 0 to 16
      invariant a[..i] == b[..i]
    {
      if a[i] < b[i] {
        BigEndianOrder(a, b, i);
        return -1;
      }
      if a[i] > b[i] {
        BigEndianOrder(b, a, i);
        return 1;
      }
      assert a[..i + 1] == a[..i] + [a[i]] && b[..i + 1] == b[..i] + [b[i]];
    }
    assert a == a[..16] && b == b[..16];
    return 0;
  }

  /** The mask of the partial byte: `bits` ones at the top. */
  function ByteMask(bits: nat): int
    requires 0 < bits < 8
  {
    And(Shl(0xff, 8 - bits), 0xff)
  }

  lemma ByteMaskIs(bits: nat)
    requires 0 < bits < 8
    ensures ByteMask(bits) == Mask(8, 8 - bits)
  {
    hide BitAnd, Pow2;
    var k := 8 - bits;
    Pow2Values();
    SmallPowers();
    var x := 0xff * Pow2(k);
    assert ToUint32(Shl(0xff, k)) == x;
    assert Mask(8, 0) == 0xff;
    AndCommutes(x, 0xff, 32);
    AndShort(0xff, x, 8, 32);
    AndModulo(x, 0xff, 8);
    AndCommutes(0xff, x, 8);
    AndOnes(x % 0x100, 8);
    assert x % 0x100 == 0x100 - Pow2(k);
  }

  lemma SmallPowers()
    ensures Pow2(0) == 1 && Pow2(1) == 2 && Pow2(2) == 4 && Pow2(3) == 8 && Pow2(4) == 16
    ensures Pow2(5) == 32 && Pow2(6) == 64 && Pow2(7) == 128
  {
    assert Pow2(3) == 8;
    assert Pow2(5) == 4 * Pow2(3);
  }

  /** What `&` with the partial mask does to a byte. */
  lemma MaskByte(x: byte, bits: nat)
    requires 0 < bits < 8
    ensures var m := And(x, ByteMask(bits));
            && m == BitAnd(x, Mask(8, 8 - bits), 8) && 0 <= m <= x && High(m, 8 - bits) == High(x, 8 - bits)
  {
    hide BitAnd, Pow2, ByteMask, High;
    Pow2Values();
    ByteMaskIs(bits);
    MaskShape(8, 8 - bits);
    AndShort(x, Mask(8, 8 - bits), 8, 32);
    MaskKeepsHigh(x, 8, 8 - bits);
  }

  lemma MaskBytesEqual(x: byte, y: byte, bits: nat)
    requires 0 < bits < 8
    ensures And(x, ByteMask(bits)) == And(y, ByteMask(bits)) <==> High(x, 8 - bits) == High(y, 8 - bits)
  {
    hide BitAnd, Pow2, ByteMask, High, And;
    Pow2Values();
    MaskByte(x, bits);
    MaskByte(y, bits);
    MaskedEqual(x, y, 8, 8 - bits);
  }

  /** The first `p` bits as a number: division by the power of two of the others. */
  function Prefix6(b: ip6, p: nat): nat
    requires p <= 128
  {
    High(BigEndian(b), 128 - p)
  }

  lemma Prefix6Is(b: ip6, p: nat)
    requires p <= 128
    ensures Pow2(128 - p) > 0 && Prefix6(b, p) == BigEndian(b) / Pow2(128 - p)
  {
    HighIs(BigEndian(b), 128 - p);
  }

  /** Equality of the first `prefix` bits. */
  method Ipv6PrefixMatch(addr: ip6, net: ip6, prefix: nat) returns (r: bool)
    requires prefix <= 128
    ensures r <==> Prefix6(addr, prefix) == Prefix6(net, prefix)
  {
    hide High, BigEndian, ByteMask, And;
    TopEqualIs(addr, net, prefix);
    var bits := prefix;
    var i := 0;
    while i < 16 && bits > 0
      invariant i <= 16 && bits + 8 * i == prefix
      invariant addr[..i] == net[..i]
    {
      if bits >= 8 {
        if addr[i] != net[i] {
          assert addr[..prefix / 8][i] != net[..prefix / 8][i];
          return false;
        }
        assert addr[..i + 1] == addr[..i] + [addr[i]] && net[..i + 1] == net[..i] + [net[i]];
        bits := bits - 8;
      } else {
        MaskBytesEqual(addr[i], net[i], bits);
        return And(addr[i], ByteMask(bits)) == And(net[i], ByteMask(bits));
      }
      i := i + 1;
    }
    r := true;
  }

  /** The network with everything below the prefix zero. */
  function Masked(b: ip6, p: nat): (m: ip6)
    requires p <= 128
  {
    var q, r := p / 8, p % 8;
    if r == 0 then b[..q] + seq(16 - q, _ => 0)
    else
      MaskByte(b[q], r);
      b[..q] + [And(b[q], ByteMask(r))] + seq(15 - q, _ => 0)
  }

  method MaskIpv6Network(bytes: ip6, prefix: nat) returns (net: ip6)
    requires prefix <= 128
    ensures net == Masked(bytes, prefix)
  {
    hide ByteMask, And;
    var out := new byte[16](i requires 0 <= i < 16 => bytes[i]);
    var b: int := prefix;
    var i := 0;
    while i < 16
      invariant i <= 16
      invariant b == if 8 * i <= prefix then prefix - 8 * i else 0
      invariant 8 * i > prefix ==> prefix % 8 == 0
      invariant forall k :: 0 <= k < 16 ==> out[k] == if prefix <= 8 * k < 8 * i then 0 else bytes[k]
    {
      if b <= 0 {
        out[i] := 0;
        i := i + 1;
        continue;
      }
      if b >= 8 {
        b := b - 8;
        i := i + 1;
        continue;
      }
      MaskByte(bytes[i], b);
      out[i] := And(out[i], ByteMask(b));
      for j := i + 1 to 16
        invariant out[..i + 1] == bytes[..i] + [And(bytes[i], ByteMask(b))]
        invariant forall k :: i < k < j ==> out[k] == 0
      {
        out[j] := 0;
      }
      net := out[..];
      assert net == out[..i + 1] + seq(15 - i, _ => 0);
      return;
    }
    net := out[..];
    assert net == bytes[..prefix / 8] + seq(16 - prefix / 8, _ => 0);
  }

  /** Masking the stored network changes no answer, and forgets everything else. */
  lemma MaskedSamePrefix(b: ip6, c: ip6, p: nat)
    requires p <= 128
    ensures Prefix6(Masked(b, p), p) == Prefix6(b, p)
    ensures Masked(b, p) == Masked(c, p) <==> Prefix6(b, p) == Prefix6(c, p)
  {
    hide High, BigEndian, ByteMask, And;
    MaskedTop(b, p);
    TopEqualIs(Masked(b, p), b, p);
    MaskedTopEqual(b, c, p);
    TopEqualIs(b, c, p);
  }

  lemma MaskedTop(b: ip6, p: nat)
    requires p <= 128
    ensures TopEqual(Masked(b, p), b, p)
  {
    hide High, BigEndian, ByteMask, And;
    if p % 8 > 0 {
      MaskByte(b[p / 8], p % 8);
    }
  }

  lemma MaskedTopEqual(b: ip6, c: ip6, p: nat)
    requires p <= 128
    ensures Masked(b, p) == Masked(c, p) <==> TopEqual(b, c, p)
  {
    hide High, BigEndian, ByteMask, And;
    var q, r := p / 8, p % 8;
    var m, n := Masked(b, p), Masked(c, p);
    assert m[..q] == b[..q] && n[..q] == c[..q];
    if r > 0 {
      MaskBytesEqual(b[q], c[q], r);
      assert m[q] == And(b[q], ByteMask(r)) && n[q] == And(c[q], ByteMask(r));
    }
  }

  // ---------- IPv4 masks ----------

  /** The mask with the first `p` of 32 bits set. */
  function Mask4(p: nat): uint32
    requires p <= 32
  {
    if p == 0 then 0 else ToUint32(Shl(-1, 32 - p))
  }

  lemma Mask4Is(p: nat)
    requires p <= 32
    ensures Mask4(p) == Mask(32, 32 - p)
  {
    hide Pow2;
    Pow2Values();
    MaskShape(32, 32 - p);
    if p > 0 {
      var m := Pow2(32 - p);
      assert -1 * m == -m;
      assert 1 <= m <= TWO32;
      NegativeResidue(m);
    }
  }

  lemma NegativeResidue(m: int)
    requires 1 <= m <= TWO32
    ensures ToUint32(ToInt32(ToUint32(-m))) == TWO32 - m || m == TWO32
  {
  }

  /** The signed comparison of masked values is equality of the first `p` bits. */
  lemma Subnet4Is(ip: uint32, base: uint32, p: nat)
    requires p <= 32
    ensures And(ip, Mask4(p)) == And(base, Mask4(p)) <==> High(ip, 32 - p) == High(base, 32 - p)
  {
    hide And, High, BitAnd, Mask4, Pow2, Mask;
    Mask4Is(p);
    Pow2Values();
    MaskedEqual(ip, base, 32, 32 - p);
    AndEqualIff(ip, base, Mask4(p));
  }

  /** Signed results are equal exactly if the 32 bits are. */
  lemma AndEqualIff(x: uint32, y: uint32, m: uint32)
    ensures And(x, m) == And(y, m) <==> BitAnd(x, m, 32) == BitAnd(y, m, 32)
  {
    hide BitAnd, Pow2;
    Pow2Values();
    SameResidue(x);
    SameResidue(y);
    SameResidue(m);
    BitAndBound(x, m, 32);
    BitAndBound(y, m, 32);
    SignedInjective(BitAnd(x, m, 32), BitAnd(y, m, 32));
  }


  lemma SignedInjective(x: uint32, y: uint32)
    ensures ToInt32(ToUint32(x)) == ToInt32(ToUint32(y)) <==> x == y
  {
  }

  // ---------- canonical keys ----------

  function Group(b: ip6, i: nat): uint16
    requires i < 8
  {
    FromBigEndian16(b[2 * i..2 * i + 2])
  }

  function CanonicalKey(b: ip6): string {
    JoinColon(seq(8, i requires 0 <= i < 8 => Numeral(Group(b, i), 16)))
  }

  /** Two addresses have the same key exactly when they have the same 16 bytes. */
  lemma KeyInjective(b: ip6, c: ip6)
    ensures CanonicalKey(b) == CanonicalKey(c) <==> b == c
  {
    var s := seq(8, i requires 0 <= i < 8 => Numeral(Group(b, i), 16));
    var t := seq(8, i requires 0 <= i < 8 => Numeral(Group(c, i), 16));
    JoinInjective(s, t);
    if s == t {
      forall i | 0 <= i < 8 ensures b[2 * i] == c[2 * i] && b[2 * i + 1] == c[2 * i + 1] {
        assert s[i] == t[i];
        NumeralInjective(Group(b, i), Group(c, i), 16);
      }
      forall k | 0 <= k < 16 ensures b[k] == c[k] {
        assert k == 2 * (k / 2) || k == 2 * (k / 2) + 1;
      }
    }
  }

  // ---------- the list ----------

  datatype Rule =
    | RuleAddr4(a: uint32)
    | RuleRange4(lo4: uint32, hi4: uint32)
    | RuleSubnet4(net4: int, prefix4: nat)
    | RuleRange6(lo6: ip6, hi6: ip6)
    | RuleSubnet6(net6: ip6, prefix6: nat)

  /** What a caller put into the list. */
  datatype Entry =
    | One(address: Address)
    | Between(start: Address, end: Address)
    | Subnet(network: Address, prefix: nat)

  /** The numeric value of an address within its family. */
  function Number(a: Address): nat {
    match a
    case V4(n) => n
    case V6(b) => BigEndian(b)
  }

  function Width(a: Address): nat {
    if a.V4? then 32 else 128
  }

  /** The addresses an entry stands for; a range may be given from either end. */
  predicate Covers(e: Entry, x: Address) {
    match e
    case One(a) => x == a
    case Between(s, t) =>
      && x.V4? == s.V4?
      && (Number(s) <= Number(x) <= Number(t) || Number(t) <= Number(x) <= Number(s))
    case Subnet(n, p) =>
      x.V4? == n.V4? && p <= Width(n) && High(Number(x), Width(n) - p) == High(Number(n), Width(n) - p)
  }

  /** Is an address blocked by the rules, as `check` tests them one by one? */
  predicate Hits(r: Rule, x: Address) {
    match r
    case RuleAddr4(a) => x.V4? && x.value == a
    case RuleRange4(lo, hi) => x.V4? && lo <= x.value <= hi
    case RuleSubnet4(net, p) => x.V4? && p <= 32 && And(x.value, Mask4(p)) == net
    case RuleRange6(lo, hi) => x.V6? && BigEndian(lo) <= BigEndian(x.bytes) <= BigEndian(hi)
    case RuleSubnet6(net, p) => x.V6? && p <= 128 && Prefix6(x.bytes, p) == Prefix6(net, p)
  }

  predicate Covered(es: seq<Entry>, x: Address) {
    exists k :: 0 <= k < |es| && Covers(es[k], x)
  }

  predicate Hit(rs: seq<Rule>, x: Address) {
    exists k :: 0 <= k < |rs| && Hits(rs[k], x)
  }

  lemma CoveredAppend(es: seq<Entry>, e: Entry, x: Address)
    ensures Covered(es + [e], x) <==> Covered(es, x) || Covers(e, x)
  {
    hide Covers;
    var all := es + [e];
    assert all[|es|] == e && forall k :: 0 <= k < |es| ==> all[k] == es[k];
  }

  lemma HitAppend(rs: seq<Rule>, r: Rule, x: Address)
    ensures Hit(rs + [r], x) <==> Hit(rs, x) || Hits(r, x)
  {
    hide Hits;
    var all := rs + [r];
    assert all[|rs|] == r && forall k :: 0 <= k < |rs| ==> all[k] == rs[k];
  }

  class BlockList {
    var rules: seq<Rule>
    var addr6: set<string>
    /** Everything added so far. */
    ghost var entries: seq<Entry>

    ghost predicate Blocked(x: Address)
      reads this
    {
      (x.V6? && CanonicalKey(x.bytes) in addr6) || Hit(rules, x)
    }

    /** The rules and keys block exactly what the entries cover. */
    ghost predicate Valid()
      reads this
    {
      && (forall k :: 0 <= k < |rules| && rules[k].RuleSubnet6? ==> rules[k].prefix6 <= 128)
      && (forall k :: 0 <= k < |rules| && rules[k].RuleSubnet4? ==> rules[k].prefix4 <= 32)
      && forall x :: Blocked(x) <==> Covered(entries, x)
    }

    constructor ()
      ensures Valid() && entries == []
    {
      rules, addr6, entries := [], {}, [];
    }

    method AddAddress(address: Address)
      requires Valid()
      modifies this
      ensures Valid() && entries == old(entries) + [One(address)]
    {
      ghost var e := One(address);
      match address
      case V6(bytes) =>
        addr6 := addr6 + {CanonicalKey(bytes)};
        entries := entries + [e];
        forall x: Address ensures Blocked(x) <==> Covered(entries, x) {
          assert old(Blocked(x)) <==> Covered(old(entries), x);
          CoveredAppend(old(entries), e, x);
          if x.V6? {
            KeyInjective(x.bytes, bytes);
          }
        }
      case V4(value) =>
        Push(RuleAddr4(value), e);
    }

    /** A rule that hits what the entry covers is added for it. */
    method Push(r: Rule, ghost e: Entry)
      requires Valid()
      requires forall x :: Hits(r, x) <==> Covers(e, x)
      requires (r.RuleSubnet6? ==> r.prefix6 <= 128) && (r.RuleSubnet4? ==> r.prefix4 <= 32)
      modifies this
      ensures Valid() && entries == old(entries) + [e]
    {
      rules := rules + [r];
      entries := entries + [e];
      forall x: Address ensures Blocked(x) <==> Covered(entries, x) {
        assert old(Blocked(x)) <==> Covered(old(entries), x);
        CoveredAppend(old(entries), e, x);
        HitAppend(old(rules), r, x);
      }
    }

    method AddRange(start: Address, end: Address) returns (ok: bool)
      requires Valid()
      modifies this
      ensures Valid() && ok == (start.V4? == end.V4?)
      ensures entries == if ok then old(entries) + [Between(start, end)] else old(entries)
    {
      if start.V4? != end.V4? {
        return false;
      }
      ok := true;
      ghost var e := Between(start, end);
      match start
      case V6(b) =>
        var lo, hi := b, end.bytes;
        var c := U8cmp16(lo, hi);
        if c > 0 {
          lo, hi := hi, lo;
        }
        Push(RuleRange6(lo, hi), e);
      case V4(n) =>
        var lo := if n <= end.value then n else end.value;
        var hi := if n <= end.value then end.value else n;
        Push(RuleRange4(lo, hi), e);
    }

    method AddSubnet(network: Address, prefix: int) returns (ok: bool)
      requires Valid()
      modifies this
      ensures Valid() && ok == (0 <= prefix <= Width(network))
      ensures entries == if ok then old(entries) + [Subnet(network, prefix)] else old(entries)
    {
      hide High, And, Masked, Mask4;
      if prefix < 0 || prefix > Width(network) {
        return false;
      }
      ok := true;
      ghost var e := Subnet(network, prefix);
      match network
      case V6(base) =>
        var net := MaskIpv6Network(base, prefix);
        MaskedSamePrefix(base, base, prefix);
        Push(RuleSubnet6(net, prefix), e);
      case V4(base) =>
        forall x: Address | x.V4? ensures Hits(RuleSubnet4(And(base, Mask4(prefix)), prefix), x) <==> Covers(e, x) {
          Subnet4Is(x.value, base, prefix);
        }
        Push(RuleSubnet4(And(base, Mask4(prefix)), prefix), e);
    }

    /** Membership in the union of everything added. */
    method Check(address: Address) returns (blocked: bool)
      requires Valid()
      ensures blocked <==> Covered(entries, address)
    {
      hide High, And, Mask4, Covers, Covered, Hits;
      if address.V6? {
        if CanonicalKey(address.bytes) in addr6 {
          assert Blocked(address);
          return true;
        }
      }
      for i := 0 to |rules|
        invariant forall k :: 0 <= k < i ==> !Hits(rules[k], address)
      {
        var hit := Test(rules[i], address);
        if hit {
          assert Blocked(address);
          return true;
        }
      }
      assert !Blocked(address);
      blocked := false;
    }

    /** One rule of the loop in `check`. */
    method Test(r: Rule, x: Address) returns (hit: bool)
      requires (r.RuleSubnet6? ==> r.prefix6 <= 128) && (r.RuleSubnet4? ==> r.prefix4 <= 32)
      ensures hit <==> Hits(r, x)
    {
      hide High, And, Mask4, BigEndian;
      match x
      case V6(b) =>
        match r {
          case RuleRange6(lo, hi) =>
            var c := U8cmp16(b, lo);
            var d := U8cmp16(b, hi);
            hit := c >= 0 && d <= 0;
          case RuleSubnet6(net, p) => hit := Ipv6PrefixMatch(b, net, p);
          case _ => hit := false;
        }
      case V4(ip) =>
        match r {
          case RuleAddr4(a) => hit := a == ip;
          case RuleRange4(lo, hi) => hit := ip >= lo && ip <= hi;
          case RuleSubnet4(net, p) => hit := And(ip, Mask4(p)) == net;
          case _ => hit := false;
        }
    }
  }
}
