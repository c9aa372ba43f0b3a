/** Numbers as text, as `toString` and template strings print them, and text cut at colons. */
module Numerals {

  function Digit(d: nat): char
    requires d < 16
  {
    "0123456789abcdef"[d]
  }

  type radix = b: int | b == 10 || b == 16 witness 10

  function Quotient(n: nat, b: radix): (q: nat)
    ensures n >= b ==> q < n
  {
    if b == 10 then n / 10 else n / 16
  }

  function Remainder(n: nat, b: radix): (r: nat)
    ensures r < b
  {
    if b == 10 then n % 10 else n % 16
  }

  lemma Division(n: nat, b: radix)
    ensures n == b * Quotient(n, b) + Remainder(n, b)
  {
  }

  function Numeral(n: nat, base: radix): (s: string)
    ensures |s| >= 1 && ':' !in s
    decreases n
  {
    if n < base then [Digit(n)] else Numeral(Quotient(n, base), base) + [Digit(Remainder(n, base))]
  }

  lemma DigitInjective(c: nat, d: nat)
    requires c < 16 && d < 16
    ensures Digit(c) == Digit(d) ==> c == d
  {
  }

  lemma {:induction false} NumeralInjective(m: nat, n: nat, base: radix)
    ensures Numeral(m, base) == Numeral(n, base) <==> m == n
    decreases m
  {
    hide Digit;
    var s, t := Numeral(m, base), Numeral(n, base);
    if s == t {
      if m < base && n < base {
        DigitInjective(m, n);
        assert s[0] == Digit(m) && t[0] == Digit(n);
      } else if m >= base && n >= base {
        var q, r := Quotient(m, base), Quotient(n, base);
        assert s[..|s| - 1] == Numeral(q, base) && t[..|t| - 1] == Numeral(r, base);
        assert s[|s| - 1] == Digit(Remainder(m, base)) && t[|t| - 1] == Digit(Remainder(n, base));
        NumeralInjective(q, r, base);
        DigitInjective(Remainder(m, base), Remainder(n, base));
        Division(m, base);
        Division(n, base);
      }
    }
  }

  /** Two texts cut at their first colon. */
  lemma FirstColon(a: string, x: string, b: string, y: string)
    requires ':' !in a && ':' !in b
    requires a + ":" + x == b + ":" + y
    ensures a == b && x == y
  {
    var s, t := a + ":" + x, b + ":" + y;
    assert s[|a|] == ':' && t[|b|] == ':';
    assert forall i :: 0 <= i < |a| ==> s[i] == a[i];
    assert forall i :: 0 <= i < |b| ==> t[i] == b[i];
    assert |a| == |b|;
    assert a == s[..|a|] && b == t[..|b|];
    assert x == s[|a| + 1..] && y == t[|b| + 1..];
  }

  /** Two texts cut at their last colon. */
  lemma LastColon(x: string, a: string, y: string, b: string)
    requires ':' !in a && ':' !in b
    requires x + ":" + a == y + ":" + b
    ensures a == b && x == y
  {
    var s, t := x + ":" + a, y + ":" + b;
    assert s[|x|] == ':' && t[|y|] == ':';
    assert forall i :: |x| < i < |s| ==> s[i] == a[i - |x| - 1];
    assert forall i :: |y| < i < |t| ==> t[i] == b[i - |y| - 1];
    assert |x| == |y|;
    assert x == s[..|x|] && y == t[..|y|];
    assert a == s[|x| + 1..] && b == t[|y| + 1..];
  }

  /** `parts.join(':')` */
  function JoinColon(parts: seq<string>): string
    requires parts != []
  {
    if |parts| == 1 then parts[0] else parts[0] + ":" + JoinColon(parts[1..])
  }

  lemma {:induction false} JoinInjective(a: seq<string>, b: seq<string>)
    requires |a| == |b| > 0
    requires forall i :: 0 <= i < |a| ==> ':' !in a[i] && ':' !in b[i]
    ensures JoinColon(a) == JoinColon(b) <==> a == b
    decreases |a|
  {
    if |a| == 1 {
      assert a == [a[0]] && b == [b[0]];
    } else if JoinColon(a) == JoinColon(b) {
      FirstColon(a[0], JoinColon(a[1..]), b[0], JoinColon(b[1..]));
      JoinInjective(a[1..], b[1..]);
      assert a == [a[0]] + a[1..] && b == [b[0]] + b[1..];
    }
  }
}
