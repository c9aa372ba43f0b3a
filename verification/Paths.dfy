/**
 * Path strings: the canonical normalizer of the file system and the path
 * algebra of the `path` module, on the same notion of segments.
 */
module Paths {
  import opened Words

  const DOT := "."
  const DOTDOT := ".."

  // ---------- splitting and joining ----------

  /** `s.split('/')` */
  function Split(s: string): (parts: seq<string>)
    ensures |parts| > 0
  {
    if s == "" then [""]
    else
      var rest := Split(s[1..]);
      if s[0] == '/' then [""] + rest else [[s[0]] + rest[0]] + rest[1..]
  }

  function NonEmpty(parts: seq<string>): seq<string> {
    if parts == [] then []
    else (if parts[0] == "" then [] else [parts[0]]) + NonEmpty(parts[1..])
  }

  /** `s.split('/').filter(Boolean)` */
  function Parts(s: string): seq<string> {
    NonEmpty(Split(s))
  }

  /** `segs.join('/')` */
  function Join(segs: seq<string>): string {
    if segs == [] then ""
    else if |segs| == 1 then segs[0]
    else segs[0] + "/" + Join(segs[1..])
  }

  predicate IsPart(x: string) {
    x != "" && '/' !in x
  }

  /** A segment that can appear in a normalized path. */
  predicate Plain(x: string) {
    IsPart(x) && x != DOT && x != DOTDOT
  }

  predicate AllParts(segs: seq<string>) {
    forall k :: 0 <= k < |segs| ==> IsPart(segs[k])
  }

  predicate AllPlain(segs: seq<string>) {
    forall k :: 0 <= k < |segs| ==> Plain(segs[k])
  }

  predicate Absolute(p: string) {
    p != "" && p[0] == '/'
  }

  lemma {:induction false} NonEmptyAppend(a: seq<string>, b: seq<string>)
    ensures NonEmpty(a + b) == NonEmpty(a) + NonEmpty(b)
  {
    if a == [] {
      assert a + b == b;
    } else {
      assert (a + b)[1..] == a[1..] + b;
      NonEmptyAppend(a[1..], b);
    }
  }

  lemma {:induction false} SplitAtSlash(x: string, y: string)
    ensures Split(x + "/" + y) == Split(x) + Split(y)
  {
    if x == "" {
      assert (x + "/" + y)[1..] == y;
    } else {
      assert (x + "/" + y)[1..] == x[1..] + "/" + y;
      SplitAtSlash(x[1..], y);
    }
  }

  /** A slash separates parts, however many there are. */
  lemma PartsAtSlash(x: string, y: string)
    ensures Parts(x + "/" + y) == Parts(x) + Parts(y)
  {
    SplitAtSlash(x, y);
    NonEmptyAppend(Split(x), Split(y));
  }

  lemma PartsOfSlash(y: string)
    ensures Parts("/" + y) == Parts(y)
  {
    PartsAtSlash("", y);
    assert "" + "/" + y == "/" + y;
  }

  lemma {:induction false} SplitPart(x: string)
    requires '/' !in x
    ensures Split(x) == [x]
  {
    if x != "" {
      SplitPart(x[1..]);
      assert x[0] != '/';
      assert Split(x) == [[x[0]] + Split(x[1..])[0]] + Split(x[1..])[1..];
      assert x == [x[0]] + x[1..];
      assert x[0] in x;
    }
  }

  lemma PartsTrailing(x: string)
    ensures Parts(x + "/" + "") == Parts(x) && Parts("") == []
  {
    PartsAtSlash(x, "");
    assert Parts("") == [] && Parts(x) + [] == Parts(x);
  }

  /** Joining parts and splitting again gives the parts back. */
  lemma {:induction false} PartsOfJoin(segs: seq<string>)
    requires AllParts(segs)
    ensures Parts(Join(segs)) == segs
  {
    if segs == [] {
    } else {
      assert IsPart(segs[0]);
      SplitPart(segs[0]);
      assert segs == [segs[0]] + segs[1..];
      assert NonEmpty([segs[0]]) == [segs[0]] + NonEmpty([]);
      if |segs| > 1 {
        PartsOfJoin(segs[1..]);
        PartsAtSlash(segs[0], Join(segs[1..]));
      }
    }
  }

  lemma {:induction false} SplitParts(s: string)
    ensures forall k :: 0 <= k < |Split(s)| ==> '/' !in Split(s)[k]
  {
    if s != "" {
      SplitParts(s[1..]);
    }
  }

  lemma {:induction false} NonEmptyParts(parts: seq<string>)
    requires forall k :: 0 <= k < |parts| ==> '/' !in parts[k]
    ensures AllParts(NonEmpty(parts))
  {
    if parts != [] {
      NonEmptyParts(parts[1..]);
    }
  }

  lemma PartsAreParts(s: string)
    ensures AllParts(Parts(s))
  {
    SplitParts(s);
    NonEmptyParts(Split(s));
  }

  // ---------- normalization ----------

  /** `..` pops (a pop of nothing is nothing), `.` is skipped, anything else is pushed. */
  function Push(acc: seq<string>, part: string): seq<string> {
    if part == DOTDOT then (if acc == [] then [] else acc[..|acc| - 1])
    else if part == DOT then acc
    else acc + [part]
  }

  function Walk(acc: seq<string>, parts: seq<string>): seq<string>
    decreases |parts|
  {
    if parts == [] then acc else Walk(Push(acc, parts[0]), parts[1..])
  }

  /** The segments that a path names, from the root or from wherever it starts. */
  function Segments(p: string): seq<string> {
    Walk([], Parts(p))
  }

  lemma {:induction false} WalkAppend(acc: seq<string>, a: seq<string>, b: seq<string>)
    ensures Walk(acc, a + b) == Walk(Walk(acc, a), b)
    decreases |a|
  {
    if a == [] {
      assert a + b == b;
    } else {
      assert (a + b)[1..] == a[1..] + b;
      WalkAppend(Push(acc, a[0]), a[1..], b);
    }
  }

  lemma {:induction false} WalkPlain(acc: seq<string>, segs: seq<string>)
    requires AllPlain(segs)
    ensures Walk(acc, segs) == acc + segs
    decreases |segs|
  {
    if segs != [] {
      assert Plain(segs[0]);
      WalkPlain(acc + [segs[0]], segs[1..]);
    }
  }

  lemma {:induction false} WalkIsPlain(acc: seq<string>, parts: seq<string>)
    requires AllPlain(acc) && AllParts(parts)
    ensures AllPlain(Walk(acc, parts))
    decreases |parts|
  {
    if parts != [] {
      assert IsPart(parts[0]);
      WalkIsPlain(Push(acc, parts[0]), parts[1..]);
    }
  }

  lemma SegmentsPlain(p: string)
    ensures AllPlain(Segments(p))
  {
    PartsAreParts(p);
    WalkIsPlain([], Parts(p));
  }

  /** A printed list of plain segments names those segments. */
  lemma SegmentsOfJoin(segs: seq<string>)
    requires AllPlain(segs)
    ensures Segments(Join(segs)) == segs && Segments("/" + Join(segs)) == segs
  {
    assert AllParts(segs);
    PartsOfJoin(segs);
    PartsOfSlash(Join(segs));
    WalkPlain([], segs);
  }

  lemma SegmentsAtSlash(x: string, y: string)
    ensures Segments(x + "/" + y) == Walk(Segments(x), Parts(y))
  {
    PartsAtSlash(x, y);
    WalkAppend([], Parts(x), Parts(y));
  }

  /**
   * What each last step of a path does to the segments before it. A text is
   * built from such steps, so this says what every path names.
   */
  lemma LastStep(p: string, name: string)
    requires Plain(name)
    ensures Segments("") == [] && Segments(DOT) == [] && Segments(DOTDOT) == [] && Segments(name) == [name]
    ensures Segments(p + "/" + "") == Segments(p) && Segments(p + "/" + DOT) == Segments(p)
    ensures Segments(p + "/" + DOTDOT) == if Segments(p) == [] then [] else Segments(p)[..|Segments(p)| - 1]
    ensures Segments(p + "/" + name) == Segments(p) + [name]
  {
    OnePart(DOT);
    OnePart(DOTDOT);
    OnePart(name);
    PartsTrailing(p);
    SegmentsAtSlash(p, DOT);
    SegmentsAtSlash(p, DOTDOT);
    SegmentsAtSlash(p, name);
    OneWalk(Segments(p), DOT);
    OneWalk(Segments(p), DOTDOT);
    OneWalk(Segments(p), name);
    OneWalk([], DOT);
    OneWalk([], DOTDOT);
    OneWalk([], name);
    assert [] + [name] == [name];
  }

  lemma OnePart(x: string)
    requires IsPart(x)
    ensures Parts(x) == [x]
  {
    SplitPart(x);
    assert NonEmpty([x]) == [x] + NonEmpty([]);
  }

  lemma OneWalk(acc: seq<string>, part: string)
    ensures Walk(acc, [part]) == Push(acc, part)
  {
  }

  /** The loop that all the normalizers share: push and pop over the parts. */
  method WalkParts(parts: seq<string>) returns (result: seq<string>)
    ensures result == Walk([], parts)
  {
    result := [];
    assert parts[0..] == parts;
    for i := 0 to |parts|
      invariant Walk(result, parts[i..]) == Walk([], parts)
    {
      var part := parts[i];
      if part == DOTDOT {
        if |result| > 0 {
          result := result[..|result| - 1];
        }
      } else if part != DOT {
        result := result + [part];
      }
    }
  }

  /** The file system's canonical form of a path. */
  method NormalizePath(p: string) returns (norm: string)
    ensures norm == "/" + Join(Segments(p))
  {
    if p == "" {
      return "/";
    }
    var result := WalkParts(Parts(p));
    return "/" + Join(result);
  }

  /** `cwd` without one trailing slash. */
  function Trimmed(cwd: string): string {
    if cwd != "" && cwd[|cwd| - 1] == '/' then cwd[..|cwd| - 1] else cwd
  }

  lemma TrimmedParts(cwd: string)
    ensures Parts(Trimmed(cwd)) == Parts(cwd)
  {
    if cwd != "" && cwd[|cwd| - 1] == '/' {
      assert cwd == Trimmed(cwd) + "/" + "";
      PartsAtSlash(Trimmed(cwd), "");
    }
  }

  /** The file system's resolver: an absolute path stands for itself, any other is taken below `cwd`. */
  method ResolvePath(p: string, cwd: string) returns (norm: string)
    ensures norm == "/" + Join(Resolved(p, cwd))
  {
    assert Segments("/") == [];
    if p == "" {
      norm := NormalizePath(if cwd == "" then "/" else cwd);
    } else if p[0] == '/' {
      norm := NormalizePath(p);
    } else {
      var base := Trimmed(if cwd == "" then "/" else cwd);
      norm := NormalizePath(base + "/" + p);
      SegmentsAtSlash(base, p);
      TrimmedParts(if cwd == "" then "/" else cwd);
    }
  }

  function Resolved(p: string, cwd: string): seq<string> {
    if Absolute(p) then Segments(p) else Walk(Segments(cwd), Parts(p))
  }

  // ---------- the `path` module ----------

  method Normalize(p: string) returns (norm: string)
    ensures norm == Normalized(p)
  {
    var result := WalkParts(Parts(p));
    return (if Absolute(p) then "/" else "") + Join(result);
  }

  function Normalized(p: string): string {
    (if Absolute(p) then "/" else "") + Join(Segments(p))
  }

  /** Normalizing twice changes nothing, and no '', '.' or '..' is left. */
  lemma NormalizeIdempotent(p: string)
    ensures Normalized(Normalized(p)) == Normalized(p)
    ensures Parts(Normalized(p)) == Segments(p) && AllPlain(Parts(Normalized(p)))
  {
    SegmentsPlain(p);
    var segs := Segments(p);
    SegmentsOfJoin(segs);
    assert AllParts(segs);
    PartsOfJoin(segs);
    PartsOfSlash(Join(segs));
    if !Absolute(p) {
      JoinIsRelative(segs);
      assert "" + Join(segs) == Join(segs);
    }
  }

  lemma JoinIsRelative(segs: seq<string>)
    requires AllParts(segs)
    ensures !Absolute(Join(segs))
  {
    if segs != [] {
      assert IsPart(segs[0]);
      assert Join(segs)[0] == segs[0][0];
    }
  }

  /** `parts[k] + '/' + (parts[k + 1] + '/' + ...)` */
  function Chain(parts: seq<string>): string {
    if parts == [] then "" else parts[0] + "/" + Chain(parts[1..])
  }

  /** The index of the last absolute argument, or 0. */
  function Anchor(parts: seq<string>): (k: nat)
    ensures k <= |parts|
    ensures parts != [] ==> k < |parts|
  {
    if parts == [] then 0
    else if Absolute(parts[|parts| - 1]) then |parts| - 1
    else Anchor(parts[..|parts| - 1])
  }

  function ResolveSpec(parts: seq<string>, cwd: string): string {
    var resolved := Chain(parts[Anchor(parts)..]);
    Normalized(if Absolute(resolved) then resolved else Trimmed(cwd) + "/" + resolved)
  }

  /** Right to left until an absolute argument; without one, below the working directory. */
  method Resolve(parts: seq<string>, cwd: string) returns (path: string)
    ensures path == ResolveSpec(parts, cwd)
  {
    hide Anchor, Chain, Normalized, Trimmed;
    var resolved := "";
    var i := |parts|;
    assert parts[|parts|..] == [] && parts[..|parts|] == parts;
    ChainStep(parts, 0);
    while i > 0
      invariant 0 <= i <= |parts|
      invariant resolved == Chain(parts[i..])
      invariant Anchor(parts) == Anchor(parts[..i])
      decreases i
    {
      i := i - 1;
      resolved := parts[i] + "/" + resolved;
      ChainStep(parts, i);
      AnchorStep(parts, i);
      if Absolute(parts[i]) {
        break;
      }
    }
    AnchorStep(parts, 0);
    assert Anchor(parts) == i;
    if !Absolute(resolved) {
      resolved := Trimmed(cwd) + "/" + resolved;
    }
    path := Normalize(resolved);
  }

  lemma ChainStep(parts: seq<string>, i: nat)
    requires i <= |parts|
    ensures i < |parts| ==> Chain(parts[i..]) == parts[i] + "/" + Chain(parts[i + 1..])
    ensures Chain([]) == ""
  {
    if i < |parts| {
      assert parts[i..][1..] == parts[i + 1..];
    }
  }

  lemma AnchorStep(parts: seq<string>, i: nat)
    requires i <= |parts|
    ensures i < |parts| ==> Anchor(parts[..i + 1]) == if Absolute(parts[i]) then i else Anchor(parts[..i])
    ensures Anchor(parts[..0]) == 0
  {
    if i < |parts| {
      assert parts[..i + 1][..i] == parts[..i];
    }
  }

  /** One argument after another, each taken below what came before. */
  function WalkAll(acc: seq<string>, parts: seq<string>): seq<string>
    decreases |parts|
  {
    if parts == [] then acc else WalkAll(Walk(acc, Parts(parts[0])), parts[1..])
  }

  lemma ChainEnds(x: string)
    ensures Segments(x + "/" + Chain([])) == Segments(x)
  {
    SegmentsAtSlash(x, "");
    PartsTrailing(x);
  }

  lemma {:induction false} ChainWalks(x: string, rels: seq<string>)
    ensures Segments(x + "/" + Chain(rels)) == WalkAll(Segments(x), rels)
    decreases |rels|
  {
    hide Segments, Parts, Walk;
    if rels == [] {
      ChainEnds(x);
    } else {
      ChainWalks(x + "/" + rels[0], rels[1..]);
      SegmentsAtSlash(x, rels[0]);
      assert x + "/" + Chain(rels) == x + "/" + rels[0] + "/" + Chain(rels[1..]);
    }
  }

  lemma {:induction false} AnchorIs(pre: seq<string>, start: string, rels: seq<string>)
    requires Absolute(start) && forall k :: 0 <= k < |rels| ==> !Absolute(rels[k])
    ensures Anchor(pre + [start] + rels) == |pre|
    decreases |rels|
  {
    var parts := pre + [start] + rels;
    if rels == [] {
      assert parts[|parts| - 1] == start;
    } else {
      var n := |rels| - 1;
      assert parts[|parts| - 1] == rels[n] && parts[..|parts| - 1] == pre + [start] + rels[..n];
      AnchorIs(pre, start, rels[..n]);
    }
  }

  /** `resolve` starts from the last absolute argument, whatever comes before it, and takes each later one below. */
  lemma ResolveFromLast(pre: seq<string>, start: string, rels: seq<string>, cwd: string)
    requires Absolute(start) && forall k :: 0 <= k < |rels| ==> !Absolute(rels[k])
    ensures ResolveSpec(pre + [start] + rels, cwd) == "/" + Join(WalkAll(Segments(start), rels))
  {
    hide Normalized, Chain, WalkAll, Join, Trimmed, Segments, Anchor, Absolute;
    var parts := pre + [start] + rels;
    AnchorIs(pre, start, rels);
    SuffixIs(pre, start, rels);
    ChainFrom(start, rels);
    ChainWalks(start, rels);
    NormalizedAbsolute(start + "/" + Chain(rels));
  }

  lemma SuffixIs(pre: seq<string>, start: string, rels: seq<string>)
    ensures (pre + [start] + rels)[|pre|..] == [start] + rels
  {
  }

  lemma ChainFrom(start: string, rels: seq<string>)
    requires Absolute(start)
    ensures Chain([start] + rels) == start + "/" + Chain(rels) && Absolute(start + "/" + Chain(rels))
  {
    assert ([start] + rels)[1..] == rels;
    assert (start + "/" + Chain(rels))[0] == start[0];
  }

  lemma NormalizedAbsolute(p: string)
    requires Absolute(p)
    ensures Normalized(p) == "/" + Join(Segments(p))
  {
  }

  function CommonPrefix(a: seq<string>, b: seq<string>): (k: nat)
    ensures k <= |a| && k <= |b| && a[..k] == b[..k]
    ensures k < |a| && k < |b| ==> a[k] != b[k]
  {
    if a == [] || b == [] || a[0] != b[0] then 0
    else 1 + CommonPrefix(a[1..], b[1..])
  }

  function Ups(n: nat): seq<string> {
    seq(n, _ => DOTDOT)
  }

  function RelativeSpec(from: seq<string>, to: seq<string>): seq<string> {
    var k := CommonPrefix(from, to);
    Ups(|from| - k) + to[k..]
  }

  method Relative(from: string, to: string, cwd: string) returns (rel: string)
    ensures rel == Join(RelativeSpec(Parts(ResolveSpec([from], cwd)), Parts(ResolveSpec([to], cwd))))
  {
    hide ResolveSpec, Join;
    var f := Resolve([from], cwd);
    var t := Resolve([to], cwd);
    var fromParts, toParts := Parts(f), Parts(t);
    var common := 0;
    assert fromParts[0..] == fromParts && toParts[0..] == toParts;
    while common < |fromParts| && common < |toParts| && fromParts[common] == toParts[common]
      invariant common <= |fromParts| && common <= |toParts|
      invariant CommonPrefix(fromParts, toParts) == common + CommonPrefix(fromParts[common..], toParts[common..])
    {
      common := common + 1;
    }
    rel := Join(Ups(|fromParts| - common) + toParts[common..]);
  }

  // ---------- the laws ----------

  lemma {:induction false} WalkUps(acc: seq<string>, n: nat)
    requires n <= |acc|
    ensures Walk(acc, Ups(n)) == acc[..|acc| - n]
    decreases n
  {
    if n == 0 {
      assert Ups(0) == [] && acc[..|acc|] == acc;
    } else {
      assert Ups(n)[0] == DOTDOT && Ups(n)[1..] == Ups(n - 1) && Push(acc, DOTDOT) == acc[..|acc| - 1];
      WalkUps(acc[..|acc| - 1], n - 1);
      assert acc[..|acc| - 1][..|acc| - n] == acc[..|acc| - n];
    }
  }

  lemma PlainSuffix(segs: seq<string>, k: nat)
    requires AllPlain(segs) && k <= |segs|
    ensures AllPlain(segs[k..])
  {
  }

  /** Walking the relative route from `from` arrives at `to`. */
  lemma WalkRelative(from: seq<string>, to: seq<string>)
    requires AllPlain(to)
    ensures Walk(from, RelativeSpec(from, to)) == to
  {
    hide Walk, CommonPrefix, AllPlain;
    var k := CommonPrefix(from, to);
    assert AllPlain(to[k..]) by {
      PlainSuffix(to, k);
    }
    WalkAppend(from, Ups(|from| - k), to[k..]);
    WalkUps(from, |from| - k);
    WalkPlain(from[..k], to[k..]);
  }

  /** No route of steps up and then down is shorter, and none other is as short. */
  lemma ShortestRoute(from: seq<string>, to: seq<string>, n: nat, names: seq<string>)
    requires n <= |from| && AllPlain(names) && Walk(from, Ups(n) + names) == to
    ensures |RelativeSpec(from, to)| <= |Ups(n) + names|
    ensures |RelativeSpec(from, to)| == |Ups(n) + names| ==> RelativeSpec(from, to) == Ups(n) + names
  {
    hide Walk;
    WalkAppend(from, Ups(n), names);
    WalkUps(from, n);
    WalkPlain(from[..|from| - n], names);
    var m := |from| - n;
    assert to == from[..m] + names;
    CommonAtLeast(from, to, m);
    assert names == to[m..];
  }

  lemma {:induction false} CommonAtLeast(a: seq<string>, b: seq<string>, m: nat)
    requires m <= |a| && m <= |b| && a[..m] == b[..m]
    ensures CommonPrefix(a, b) >= m
    decreases m
  {
    if m > 0 {
      assert a[0] == a[..m][0] == b[..m][0] == b[0];
      assert a[1..][..m - 1] == a[..m][1..] && b[1..][..m - 1] == b[..m][1..];
      CommonAtLeast(a[1..], b[1..], m - 1);
    }
  }

  /** One argument: the path itself, or the path below the working directory. */
  lemma ResolveOne(p: string, cwd: string)
    requires Absolute(cwd)
    ensures Absolute(ResolveSpec([p], cwd))
    ensures Parts(ResolveSpec([p], cwd)) == if Absolute(p) || p == "" then Segments(p) else Walk(Segments(cwd), Parts(p))
  {
    var resolved := p + "/" + "";
    assert [p][Anchor([p])..] == [p] && Chain([p]) == resolved;
    PartsTrailing(p);
    var whole := if Absolute(resolved) then resolved else Trimmed(cwd) + "/" + resolved;
    NormalizeIdempotent(whole);
    assert Absolute(resolved) <==> Absolute(p) || p == "";
    BelowCwd(resolved, cwd);
  }

  lemma BelowCwd(resolved: string, cwd: string)
    requires Absolute(cwd)
    ensures Absolute(Trimmed(cwd) + "/" + resolved)
    ensures Segments(Trimmed(cwd) + "/" + resolved) == Walk(Segments(cwd), Parts(resolved))
  {
    SegmentsAtSlash(Trimmed(cwd), resolved);
    TrimmedParts(cwd);
    var t := Trimmed(cwd);
    assert (t + "/" + resolved)[0] == if t == "" then '/' else t[0];
  }

  /** Two arguments, the second one relative: the second is walked from where the first resolves to. */
  lemma ResolveTwo(p: string, rel: string, cwd: string)
    requires Absolute(cwd) && !Absolute(rel)
    ensures Absolute(ResolveSpec([p, rel], cwd))
    ensures Segments(ResolveSpec([p, rel], cwd)) ==
            Walk(if Absolute(p) || p == "" then Segments(p) else Walk(Segments(cwd), Parts(p)), Parts(rel))
  {
    var resolved := p + "/" + (rel + "/" + "");
    assert [p, rel][..1] == [p];
    assert Anchor([p, rel]) == 0;
    assert [p, rel][1..] == [rel] && [p, rel][0..] == [p, rel];
    assert Chain([rel]) == rel + "/" + "";
    assert Chain([p, rel]) == resolved;
    var whole := if Absolute(resolved) then resolved else Trimmed(cwd) + "/" + resolved;
    PartsTrailing(rel);
    SegmentsAtSlash(p, rel + "/" + "");
    PartsAtSlash(p, rel + "/" + "");
    assert Absolute(resolved) <==> Absolute(p) || p == "";
    BelowCwd(resolved, cwd);
    WalkAppend(Segments(cwd), Parts(p), Parts(rel));
    NormalizeIdempotent(whole);
    assert Segments(Normalized(whole)) == Segments(whole) by {
      SegmentsPlain(whole);
      WalkPlain([], Segments(whole));
    }
  }

  /** Resolving the relative route against where it starts gives where it leads, for any two paths. */
  lemma ResolveRelative(from: string, to: string, cwd: string)
    requires Absolute(cwd)
    ensures var rel := Join(RelativeSpec(Parts(ResolveSpec([from], cwd)), Parts(ResolveSpec([to], cwd))));
            ResolveSpec([from, rel], cwd) == ResolveSpec([to], cwd)
  {
    hide ResolveSpec, Normalized, CommonPrefix;
    var f, t := Parts(ResolveSpec([from], cwd)), Parts(ResolveSpec([to], cwd));
    ResolveOne(from, cwd);
    ResolveOne(to, cwd);
    ResolvedPlain(from, cwd);
    ResolvedPlain(to, cwd);
    var segs := RelativeSpec(f, t);
    assert AllParts(segs);
    JoinIsRelative(segs);
    PartsOfJoin(segs);
    ResolveTwo(from, Join(segs), cwd);
    WalkRelative(f, t);
    AbsoluteBySegments([from, Join(segs)], [to], cwd);
  }

  lemma ResolvedPlain(p: string, cwd: string)
    requires Absolute(cwd)
    ensures AllPlain(Parts(ResolveSpec([p], cwd)))
    ensures Segments(ResolveSpec([p], cwd)) == Parts(ResolveSpec([p], cwd))
  {
    var resolved := Chain([p][Anchor([p])..]);
    var whole := if Absolute(resolved) then resolved else Trimmed(cwd) + "/" + resolved;
    NormalizeIdempotent(whole);
    WalkPlain([], Parts(Normalized(whole)));
  }

  /** Absolute results with the same segments are the same string. */
  lemma AbsoluteBySegments(p: seq<string>, q: seq<string>, cwd: string)
    requires Absolute(ResolveSpec(p, cwd)) && Absolute(ResolveSpec(q, cwd))
    requires Segments(ResolveSpec(p, cwd)) == Segments(ResolveSpec(q, cwd))
    ensures ResolveSpec(p, cwd) == ResolveSpec(q, cwd)
  {
    AbsoluteShape(p, cwd);
    AbsoluteShape(q, cwd);
  }

  lemma AbsoluteShape(p: seq<string>, cwd: string)
    requires Absolute(ResolveSpec(p, cwd))
    ensures ResolveSpec(p, cwd) == "/" + Join(Segments(ResolveSpec(p, cwd)))
  {
    hide Chain, Anchor, Trimmed;
    var resolved := Chain(p[Anchor(p)..]);
    var whole := if Absolute(resolved) then resolved else Trimmed(cwd) + "/" + resolved;
    NormalizeIdempotent(whole);
    SegmentsPlain(whole);
    WalkPlain([], Segments(whole));
    if !Absolute(whole) {
      assert AllParts(Segments(whole));
      assert "" + Join(Segments(whole)) == Join(Segments(whole));
      JoinIsRelative(Segments(whole));
    }
  }

  /** The `path` module and the file system agree on where a path below an absolute directory leads. */
  lemma ResolversAgree(p: string, cwd: string)
    requires Absolute(cwd)
    ensures ResolveSpec([cwd, p], cwd) == "/" + Join(Resolved(p, cwd))
  {
    if Absolute(p) {
      assert [cwd, p][1..] == [p][0..];
      assert Anchor([p]) == 0 && Anchor([cwd, p]) == 1;
      assert ResolveSpec([cwd, p], cwd) == ResolveSpec([p], cwd);
      ResolveOne(p, cwd);
      ResolvedPlain(p, cwd);
      AbsoluteShape([p], cwd);
    } else {
      ResolveTwo(cwd, p, cwd);
      AbsoluteShape([cwd, p], cwd);
    }
  }
}
