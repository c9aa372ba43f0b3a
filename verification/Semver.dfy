/** Version ranges of the installer, and the choice of the best version. */
module Semver {
  import opened Words
  import opened Numerals

  datatype Triple = Triple(major: nat, minor: nat, patch: nat)

  /** The lexicographic order. */
  predicate Less(a: Triple, b: Triple) {
    || a.major < b.major
    || (a.major == b.major && a.minor < b.minor)
    || (a.major == b.major && a.minor == b.minor && a.patch < b.patch)
  }

  lemma LessIsStrictOrder(a: Triple, b: Triple, c: Triple)
    ensures !Less(a, a) && (a == b || Less(a, b) || Less(b, a)) && (Less(a, b) && Less(b, c) ==> Less(a, c))
  {
  }

  // ---------- text ----------

  predicate IsDigit(c: char) {
    '0' <= c <= '9'
  }

  /** The length of the leading run of digits. */
  function DigitRun(s: string): (n: nat)
    ensures n <= |s| && (forall i :: 0 <= i < n ==> IsDigit(s[i])) && (n < |s| ==> !IsDigit(s[n]))
  {
    if s == [] || !IsDigit(s[0]) then 0 else 1 + DigitRun(s[1..])
  }

  /** `parseInt` on digits. */
  function NumberOf(s: string): nat
    requires forall i :: 0 <= i < |s| ==> IsDigit(s[i])
  {
    if s == [] then 0
    else
      assert IsDigit(s[|s| - 1]);
      10 * NumberOf(s[..|s| - 1]) + (s[|s| - 1] as int - '0' as int)
  }

  /** The leading digits as a number, and what follows them. */
  function LeadingNumber(s: string): Option<(nat, string)> {
    var n := DigitRun(s);
    if n == 0 then None else Some((NumberOf(s[..n]), s[n..]))
  }

  function SkipDot(s: string): Option<string> {
    if s == [] || s[0] != '.' then None else Some(s[1..])
  }

  /** Three numbers with dots at the start of the text; anything may follow. */
  function ParseVersion(s: string): Option<Triple> {
    match LeadingNumber(s)
    case None => None
    case Some((major, afterMajor)) =>
      match SkipDot(afterMajor)
      case None => None
      case Some(minorText) =>
        match LeadingNumber(minorText)
        case None => None
        case Some((minor, afterMinor)) =>
          match SkipDot(afterMinor)
          case None => None
          case Some(patchText) =>
            match LeadingNumber(patchText)
            case None => None
            case Some((patch, _)) => Some(Triple(major, minor, patch))
  }

  predicate AnyRange(range: string) {
    range == "" || range == "*" || range == "latest"
  }

  function After(range: string, prefix: string): Option<Triple> {
    if prefix <= range then ParseVersion(range[|prefix|..]) else None
  }

  // ---------- the tests of the code ----------

  predicate CaretTest(v: Triple, r: Triple) {
    if r.major != 0 then v.major == r.major && (v.minor > r.minor || (v.minor == r.minor && v.patch >= r.patch))
    else if r.minor != 0 then v.major == 0 && v.minor == r.minor && v.patch >= r.patch
    else v.major == 0 && v.minor == 0 && v.patch == r.patch
  }

  predicate TildeTest(v: Triple, r: Triple) {
    v.major == r.major && v.minor == r.minor && v.patch >= r.patch
  }

  predicate AtLeastTest(v: Triple, r: Triple) {
    if v.major != r.major then v.major > r.major
    else if v.minor != r.minor then v.minor > r.minor
    else v.patch >= r.patch
  }

  predicate VersionSatisfies(version: string, range: string) {
    if AnyRange(range) then true
    else
      match ParseVersion(version)
      case None => false
      case Some(v) =>
        if ParseVersion(range).Some? then v == ParseVersion(range).value
        else if After(range, "^").Some? then CaretTest(v, After(range, "^").value)
        else if After(range, "~").Some? then TildeTest(v, After(range, "~").value)
        else if After(range, ">=").Some? then AtLeastTest(v, After(range, ">=").value)
        else true
  }

  // ---------- ranges as intervals ----------

  /** From `low`, up to but not including `high` if there is one. */
  datatype Interval = Interval(low: Triple, high: Option<Triple>)

  predicate Within(v: Triple, i: Interval) {
    !Less(v, i.low) && (i.high.Some? ==> Less(v, i.high.value))
  }

  /** A caret lets everything below the leftmost non-zero number change. */
  function CaretInterval(r: Triple): Interval {
    Interval(r, Some(if r.major > 0 then Triple(r.major + 1, 0, 0)
                     else if r.minor > 0 then Triple(0, r.minor + 1, 0)
                     else Triple(0, 0, r.patch + 1)))
  }

  function TildeInterval(r: Triple): Interval {
    Interval(r, Some(Triple(r.major, r.minor + 1, 0)))
  }

  /** The interval a range text stands for, if it is of a known form. */
  function IntervalOf(range: string): Option<Interval> {
    if ParseVersion(range).Some? then
      var e := ParseVersion(range).value;
      Some(Interval(e, Some(Triple(e.major, e.minor, e.patch + 1))))
    else if After(range, "^").Some? then Some(CaretInterval(After(range, "^").value))
    else if After(range, "~").Some? then Some(TildeInterval(After(range, "~").value))
    else if After(range, ">=").Some? then Some(Interval(After(range, ">=").value, None))
    else None
  }

  /** A range of a known form is an interval of the lexicographic order; all other ranges accept every version. */
  lemma SatisfiesIsInterval(version: string, range: string)
    requires !AnyRange(range)
    ensures VersionSatisfies(version, range) <==>
            && ParseVersion(version).Some?
            && (IntervalOf(range).Some? ==> Within(ParseVersion(version).value, IntervalOf(range).value))
  {
    hide ParseVersion;
    if ParseVersion(version).Some? {
      var v := ParseVersion(version).value;
      if ParseVersion(range).Some? {
        var e := ParseVersion(range).value;
        assert Within(v, Interval(e, Some(Triple(e.major, e.minor, e.patch + 1)))) <==> v == e;
      }
    }
  }

  // ---------- on texts ----------

  predicate AllDigits(s: string) {
    s != [] && forall i :: 0 <= i < |s| ==> IsDigit(s[i])
  }

  predicate NoDigitFirst(s: string) {
    s != [] ==> !IsDigit(s[0])
  }

  /** Three runs of digits with dots between them, then anything that is not a further digit. */
  predicate Dotted(s: string, a: string, b: string, c: string, rest: string) {
    && AllDigits(a) && AllDigits(b) && AllDigits(c) && NoDigitFirst(rest)
    && s == a + "." + b + "." + c + rest
  }

  lemma {:induction false} DigitRunIs(a: string, rest: string)
    requires (forall i :: 0 <= i < |a| ==> IsDigit(a[i])) && NoDigitFirst(rest)
    ensures DigitRun(a + rest) == |a|
    decreases |a|
  {
    if a == [] {
      assert a + rest == rest;
    } else {
      assert (a + rest)[1..] == a[1..] + rest;
      DigitRunIs(a[1..], rest);
    }
  }

  lemma LeadingIs(a: string, rest: string)
    requires AllDigits(a) && NoDigitFirst(rest)
    ensures LeadingNumber(a + rest) == Some((NumberOf(a), rest))
  {
    DigitRunIs(a, rest);
    assert (a + rest)[..|a|] == a && (a + rest)[|a|..] == rest;
  }

  lemma SkipDotIs(rest: string)
    ensures SkipDot("." + rest) == Some(rest) && NoDigitFirst("." + rest)
  {
    assert ("." + rest)[1..] == rest;
  }

  /** Such a text is read as its three numbers. */
  lemma DottedParses(s: string, a: string, b: string, c: string, rest: string)
    requires Dotted(s, a, b, c, rest)
    ensures ParseVersion(s) == Some(Triple(NumberOf(a), NumberOf(b), NumberOf(c)))
  {
    hide LeadingNumber, SkipDot, NumberOf, AllDigits, NoDigitFirst;
    var r2 := c + rest;
    var r1 := b + ("." + r2);
    assert s == a + ("." + r1);
    SkipDotIs(r1);
    SkipDotIs(r2);
    LeadingIs(a, "." + r1);
    LeadingIs(b, "." + r2);
    LeadingIs(c, rest);
  }

  lemma LeadingSplits(s: string)
    requires LeadingNumber(s).Some?
    ensures var n := DigitRun(s);
            AllDigits(s[..n]) && NoDigitFirst(s[n..]) && s == s[..n] + s[n..] && LeadingNumber(s).value == (NumberOf(s[..n]), s[n..])
  {
  }

  lemma DotSplits(s: string)
    requires SkipDot(s).Some?
    ensures s == "." + SkipDot(s).value
  {
  }

  lemma PartsJoin(s: string, a: string, t: string, u: string, b: string, v: string, w: string, c: string, rest: string)
    requires s == a + t && t == "." + u && u == b + v && v == "." + w && w == c + rest
    ensures s == a + "." + b + "." + c + rest
  {
  }

  lemma ParsedIsDotted(s: string)
    requires ParseVersion(s).Some?
    ensures exists a, b, c, rest :: Dotted(s, a, b, c, rest)
  {
    hide NumberOf, AllDigits, NoDigitFirst, DigitRun, LeadingNumber, SkipDot;
    LeadingSplits(s);
    var a, t := s[..DigitRun(s)], s[DigitRun(s)..];
    DotSplits(t);
    var u := SkipDot(t).value;
    LeadingSplits(u);
    var b, v := u[..DigitRun(u)], u[DigitRun(u)..];
    DotSplits(v);
    var w := SkipDot(v).value;
    LeadingSplits(w);
    var c, rest := w[..DigitRun(w)], w[DigitRun(w)..];
    PartsJoin(s, a, t, u, b, v, w, c, rest);
    assert Dotted(s, a, b, c, rest);
  }

  /** A text is read as a version exactly if it begins with three such runs. */
  lemma ParsesIff(s: string)
    ensures ParseVersion(s).Some? <==> exists a, b, c, rest :: Dotted(s, a, b, c, rest)
  {
    hide Dotted, ParseVersion;
    if ParseVersion(s).Some? {
      ParsedIsDotted(s);
    }
    if a, b, c, rest :| Dotted(s, a, b, c, rest) {
      DottedParses(s, a, b, c, rest);
    }
  }

  /** Decimal numerals are digits, and are read as their numbers. */
  lemma {:induction false} NumeralReads(n: nat)
    ensures AllDigits(Numeral(n, 10)) && NumberOf(Numeral(n, 10)) == n
    decreases n
  {
    DigitReads(n % 10);
    if n >= 10 {
      NumeralReads(n / 10);
      var t := Numeral(n / 10, 10);
      var s := Numeral(n, 10);
      assert s == t + [Digit(n % 10)];
      assert s[..|s| - 1] == t;
    } else {
      var s := Numeral(n, 10);
      assert s == [Digit(n)] && s[..0] == [];
    }
  }

  lemma DigitReads(d: nat)
    requires d < 10
    ensures IsDigit(Digit(d)) && Digit(d) as int - '0' as int == d
  {
  }

  /** The text of a version, as it is published. */
  function TextOf(t: Triple): string {
    Numeral(t.major, 10) + "." + Numeral(t.minor, 10) + "." + Numeral(t.patch, 10)
  }

  /** Whatever follows that is not a digit, such as a tag, a version's text is read as its three numbers. */
  lemma TextReads(t: Triple, rest: string)
    requires NoDigitFirst(rest)
    ensures ParseVersion(TextOf(t) + rest) == Some(t)
    ensures TextOf(t) + rest != "" && IsDigit((TextOf(t) + rest)[0])
  {
    hide Numeral, ParseVersion;
    NumeralReads(t.major);
    NumeralReads(t.minor);
    NumeralReads(t.patch);
    DottedParses(TextOf(t) + rest, Numeral(t.major, 10), Numeral(t.minor, 10), Numeral(t.patch, 10), rest);
  }

  lemma PrefixedReads(prefix: string, t: Triple, rest: string)
    requires NoDigitFirst(rest) && prefix in {"^", "~", ">="}
    ensures var range := prefix + (TextOf(t) + rest);
            && !AnyRange(range) && ParseVersion(range) == None
            && After(range, prefix) == Some(t)
            && (prefix != "^" ==> After(range, "^") == None)
            && (prefix == ">=" ==> After(range, "~") == None)
  {
    hide TextOf, ParseVersion, NoDigitFirst;
    TextReads(t, rest);
    Prefixed(prefix, TextOf(t) + rest, t);
  }

  lemma Prefixed(prefix: string, u: string, t: Triple)
    requires prefix in {"^", "~", ">="} && u != "" && ParseVersion(u) == Some(t)
    ensures var range := prefix + u;
            && !AnyRange(range) && ParseVersion(range) == None
            && After(range, prefix) == Some(t)
            && (prefix != "^" ==> After(range, "^") == None)
            && (prefix == ">=" ==> After(range, "~") == None)
  {
    hide ParseVersion;
    var range := prefix + u;
    assert range[|prefix|..] == u;
    assert range[0] == prefix[0];
    NotDigit(range);
  }

  lemma NotDigit(s: string)
    requires s != [] && !IsDigit(s[0])
    ensures ParseVersion(s) == None
  {
  }

  /** Between two triples, the lower one included. */
  predicate Spans(low: Triple, v: Triple, high: Triple) {
    !Less(v, low) && Less(v, high)
  }

  lemma Decides(version: string, v: Triple, range: string)
    requires ParseVersion(version) == Some(v) && !AnyRange(range)
    ensures VersionSatisfies(version, range) <==>
            if ParseVersion(range).Some? then v == ParseVersion(range).value
            else if After(range, "^").Some? then CaretTest(v, After(range, "^").value)
            else if After(range, "~").Some? then TildeTest(v, After(range, "~").value)
            else After(range, ">=").Some? ==> AtLeastTest(v, After(range, ">=").value)
  {
    hide ParseVersion, After;
  }

  lemma OneForm(prefix: string, v: Triple, r: Triple, vRest: string, rRest: string)
    requires NoDigitFirst(vRest) && NoDigitFirst(rRest) && prefix in {"^", "~", ">="}
    ensures VersionSatisfies(TextOf(v) + vRest, prefix + (TextOf(r) + rRest)) <==>
            if prefix == "^" then CaretTest(v, r) else if prefix == "~" then TildeTest(v, r) else AtLeastTest(v, r)
  {
    hide ParseVersion, After, TextOf, AnyRange, VersionSatisfies, CaretTest, TildeTest, AtLeastTest, NoDigitFirst;
    TextReads(v, vRest);
    PrefixedReads(prefix, r, rRest);
    Decides(TextOf(v) + vRest, v, prefix + (TextOf(r) + rRest));
  }

  lemma ExactForm(v: Triple, r: Triple, vRest: string, rRest: string)
    requires NoDigitFirst(vRest) && NoDigitFirst(rRest)
    ensures VersionSatisfies(TextOf(v) + vRest, TextOf(r) + rRest) <==> v == r
  {
    hide ParseVersion, After, TextOf, VersionSatisfies, NoDigitFirst;
    TextReads(v, vRest);
    TextReads(r, rRest);
    NotOpen(TextOf(r) + rRest);
    Decides(TextOf(v) + vRest, v, TextOf(r) + rRest);
  }

  lemma NotOpen(range: string)
    requires range != "" && IsDigit(range[0])
    ensures !AnyRange(range)
  {
    assert "latest"[0] == 'l' && "*"[0] == '*';
  }

  /**
   * The four forms of range on texts, whatever tags follow: the version itself;
   * with a caret, up to the next change of the leftmost non-zero number; with a
   * tilde, up to the next minor version; with `>=`, without end.
   */
  lemma RangesOnTexts(v: Triple, r: Triple, vRest: string, rRest: string)
    requires NoDigitFirst(vRest) && NoDigitFirst(rRest)
    ensures var version, range := TextOf(v) + vRest, TextOf(r) + rRest;
            && (VersionSatisfies(version, range) <==> v == r)
            && (VersionSatisfies(version, "^" + range) <==>
                  Spans(r, v, if r.major > 0 then Triple(r.major + 1, 0, 0)
                              else if r.minor > 0 then Triple(0, r.minor + 1, 0) else Triple(0, 0, r.patch + 1)))
            && (VersionSatisfies(version, "~" + range) <==> Spans(r, v, Triple(r.major, r.minor + 1, 0)))
            && (VersionSatisfies(version, ">=" + range) <==> !Less(v, r))
  {
    hide VersionSatisfies, TextOf, NoDigitFirst;
    ExactForm(v, r, vRest, rRest);
    OneForm("^", v, r, vRest, rRest);
    OneForm("~", v, r, vRest, rRest);
    OneForm(">=", v, r, vRest, rRest);
  }

  /** An empty or open range accepts every text; without three numbers a text satisfies no other range. */
  lemma OddTexts(version: string, range: string)
    ensures range in {"", "*", "latest"} ==> VersionSatisfies(version, range)
    ensures range !in {"", "*", "latest"} && VersionSatisfies(version, range) ==> exists a, b, c, rest :: Dotted(version, a, b, c, rest)
  {
    hide ParseVersion;
    ParsesIff(version);
  }

  /** Whether a range is one of these marks followed by the text of a version. */
  ghost predicate HasForm(range: string, prefix: string) {
    prefix <= range && exists a, b, c, rest :: Dotted(range[|prefix|..], a, b, c, rest)
  }

  /** Every range of no known form is satisfied by every version. */
  lemma OtherRanges(version: string, range: string)
    requires !HasForm(range, "") && !HasForm(range, "^") && !HasForm(range, "~") && !HasForm(range, ">=")
    requires range !in {"", "*", "latest"}
    ensures VersionSatisfies(version, range) <==> exists a, b, c, rest :: Dotted(version, a, b, c, rest)
  {
    hide ParseVersion, Dotted;
    ParsesIff(version);
    assert range[|""|..] == range;
    ParsesIff(range);
    FormRead(range, "^");
    FormRead(range, "~");
    FormRead(range, ">=");
  }

  lemma FormRead(range: string, prefix: string)
    ensures After(range, prefix).Some? <==> HasForm(range, prefix)
  {
    hide ParseVersion, Dotted;
    if prefix <= range {
      ParsesIff(range[|prefix|..]);
    }
  }

  // ---------- the best version ----------

  datatype Packument = Packument(latest: Option<string>, versions: seq<string>)

  predicate Candidate(p: Packument, range: string, k: nat)
    requires k < |p.versions|
  {
    VersionSatisfies(p.versions[k], range) && ParseVersion(p.versions[k]).Some?
  }

  /** The version at `k` is not greater than that at `b`, and not before it if they are equal. */
  predicate NotBetter(p: Packument, k: nat, b: nat)
    requires k < |p.versions| && b < |p.versions|
    requires ParseVersion(p.versions[k]).Some? && ParseVersion(p.versions[b]).Some?
  {
    var v, w := ParseVersion(p.versions[k]).value, ParseVersion(p.versions[b]).value;
    Less(v, w) || (v == w && b <= k)
  }

  predicate NoCandidate(p: Packument, range: string, n: nat)
    requires n <= |p.versions|
  {
    forall k :: 0 <= k < n ==> !Candidate(p, range, k)
  }

  /** `b` is the first candidate of greatest triple among the first `n` versions. */
  predicate Best(p: Packument, range: string, n: nat, b: nat)
    requires n <= |p.versions|
  {
    && b < n && Candidate(p, range, b)
    && forall k :: 0 <= k < n && Candidate(p, range, k) ==> NotBetter(p, k, b)
  }

  lemma BestFirst(p: Packument, range: string, n: nat)
    requires n < |p.versions| && Candidate(p, range, n) && NoCandidate(p, range, n)
    ensures Best(p, range, n + 1, n)
  {
    hide VersionSatisfies, ParseVersion;
  }

  lemma BestReplaced(p: Packument, range: string, n: nat, b: nat)
    requires n < |p.versions| && Candidate(p, range, n) && Best(p, range, n, b)
    requires Less(ParseVersion(p.versions[b]).value, ParseVersion(p.versions[n]).value)
    ensures Best(p, range, n + 1, n)
  {
    hide VersionSatisfies, ParseVersion;
    var v, w := ParseVersion(p.versions[b]).value, ParseVersion(p.versions[n]).value;
    forall k | 0 <= k < n && Candidate(p, range, k) ensures NotBetter(p, k, n) {
      LessIsStrictOrder(ParseVersion(p.versions[k]).value, v, w);
    }
  }

  lemma BestKept(p: Packument, range: string, n: nat, b: nat)
    requires n < |p.versions| && Candidate(p, range, n) && Best(p, range, n, b)
    requires !Less(ParseVersion(p.versions[b]).value, ParseVersion(p.versions[n]).value)
    ensures Best(p, range, n + 1, b)
  {
    hide VersionSatisfies, ParseVersion;
    var v, w := ParseVersion(p.versions[b]).value, ParseVersion(p.versions[n]).value;
    LessIsStrictOrder(v, w, v);
  }

  /** An open range and a tag that names a listed version. */
  predicate Tagged(p: Packument, range: string) {
    AnyRange(range) && p.latest.Some? && p.latest.value != "" && p.latest.value in p.versions
  }

  /**
   * The version chosen: the tag for an open range that names a listed version;
   * otherwise the first listed candidate of greatest triple, and none exactly
   * when there is no candidate.
   */
  method ResolveVersion(p: Packument, range: string) returns (r: Option<string>)
    ensures Tagged(p, range) ==> r == p.latest
    ensures !Tagged(p, range) ==>
              && (r.None? <==> NoCandidate(p, range, |p.versions|))
              && (r.Some? ==> exists b: nat :: Best(p, range, |p.versions|, b) && r.value == p.versions[b])
  {
    if AnyRange(range) {
      if p.latest.Some? && p.latest.value != "" && p.latest.value in p.versions {
        return p.latest;
      }
    }
    hide VersionSatisfies, ParseVersion, NoCandidate, Best, Less, AnyRange;
    var best: Option<nat> := None;
    NoneYet(p, range);
    for i := 0 to |p.versions|
      invariant if best.None? then NoCandidate(p, range, i) else Best(p, range, i, best.value)
      invariant best.Some? ==> best.value < i && Candidate(p, range, best.value)
    {
      var ver := p.versions[i];
      BestSkipIf(p, range, i, best);
      if !VersionSatisfies(ver, range) {
        continue;
      }
      var parsed := ParseVersion(ver);
      if parsed.None? {
        continue;
      }
      if best.None? {
        BestFirst(p, range, i);
        best := Some(i);
      } else if Less(ParseVersion(p.versions[best.value]).value, parsed.value) {
        BestReplaced(p, range, i, best.value);
        best := Some(i);
      } else {
        BestKept(p, range, i, best.value);
      }
    }
    if best.None? {
      return None;
    }
    SomeCandidate(p, range, best.value);
    r := Some(p.versions[best.value]);
  }

  /** With the versions written out: no listed candidate has a greater triple than the one chosen. */
  lemma BestOnTexts(p: Packument, range: string, b: nat, ts: seq<Triple>, tags: seq<string>, k: nat)
    requires |ts| == |tags| == |p.versions| && k < |ts|
    requires forall i :: 0 <= i < |ts| ==> NoDigitFirst(tags[i]) && p.versions[i] == TextOf(ts[i]) + tags[i]
    requires Best(p, range, |p.versions|, b) && VersionSatisfies(p.versions[k], range)
    ensures !Less(ts[b], ts[k]) && (ts[k] == ts[b] ==> b <= k)
  {
    hide VersionSatisfies, ParseVersion, TextOf, NoDigitFirst;
    TextReads(ts[k], tags[k]);
    TextReads(ts[b], tags[b]);
    assert Candidate(p, range, k) && NotBetter(p, k, b);
    hide Best, Candidate;
    LessIsStrictOrder(ts[k], ts[b], ts[k]);
  }

  lemma NoneYet(p: Packument, range: string)
    ensures NoCandidate(p, range, 0)
  {
  }

  lemma BestSkipIf(p: Packument, range: string, n: nat, best: Option<nat>)
    requires n < |p.versions|
    ensures !Candidate(p, range, n) && NoCandidate(p, range, n) ==> NoCandidate(p, range, n + 1)
    ensures !Candidate(p, range, n) && best.Some? && Best(p, range, n, best.value) ==> Best(p, range, n + 1, best.value)
  {
    hide VersionSatisfies, ParseVersion, NotBetter;
  }

  lemma SomeCandidate(p: Packument, range: string, b: nat)
    requires Best(p, range, |p.versions|, b)
    ensures !NoCandidate(p, range, |p.versions|)
  {
  }
}
