/** The line diff behind `git diff`: a two-row table, a flat direction matrix and a backtrack. */
module GitDiff {
  import opened Words
  import opened Lcs

  const LIMIT := 5000

  /** How the table leaves a cell: 0 to the diagonal, 1 up, 2 left. */
  function Direction(a: seq<Line>, b: seq<Line>, i: nat, j: nat): byte {
    if !(1 <= i <= |a| && 1 <= j <= |b|) then 0
    else if a[i - 1] == b[j - 1] then 0
    else if Cell(a, b, i - 1, j) >= Cell(a, b, i, j - 1) then 1
    else 2
  }

  /** One cell of the table, and how it was reached. */
  lemma CellStep(a: seq<Line>, b: seq<Line>, i: nat, j: nat)
    requires 1 <= i <= |a| && 1 <= j <= |b|
    ensures Cell(a, b, i, j) ==
            match Direction(a, b, i, j)
            case 0 => Cell(a, b, i - 1, j - 1) + 1
            case 1 => Cell(a, b, i - 1, j)
            case _ => Cell(a, b, i, j - 1)
    ensures Direction(a, b, i, j) ==
            if a[i - 1] == b[j - 1] then 0 else if Cell(a, b, i - 1, j) >= Cell(a, b, i, j - 1) then 1 else 2
  {
  }

  lemma CellBorder(a: seq<Line>, b: seq<Line>, i: nat, j: nat)
    requires i <= |a| && j <= |b| && (i == 0 || j == 0)
    ensures Cell(a, b, i, j) == 0
  {
  }

  /** Cell (i, j) of the flat matrix of rows of length `n`. */
  lemma FlatIndex(m: nat, n: nat, i: nat, j: nat)
    requires 1 <= i <= m && 1 <= j <= n
    ensures var k := (i - 1) * n + (j - 1);
            0 <= k < m * n && k / n == i - 1 && k % n == j - 1
  {
    var k := (i - 1) * n + (j - 1);
    assert k < i * n;
    assert i * n <= m * n;
    DivModUnique(k, n, i - 1, j - 1);
  }

  lemma DivModUnique(k: nat, n: nat, q: nat, r: nat)
    requires n > 0 && r < n && k == q * n + r
    ensures k / n == q && k % n == r
  {
    var q', r' := k / n, k % n;
    assert k == q' * n + r';
    assert (q' - q) * n == q' * n - q * n;
    SmallMultiple(q' - q, n, r - r');
  }

  lemma SmallMultiple(d: int, n: int, e: int)
    requires n > 0 && e == d * n
    ensures d >= 1 ==> e >= n
    ensures d <= -1 ==> e <= 0 - n
  {
    if d >= 1 {
      assert d * n >= n;
    } else if d <= -1 {
      assert d * n <= 0 - n;
    }
  }

  function Reverse<T>(s: seq<T>): seq<T> {
    if s == [] then [] else [s[|s| - 1]] + Reverse(s[..|s| - 1])
  }

  lemma ReversePush<T>(s: seq<T>, x: T)
    ensures Reverse(s + [x]) == [x] + Reverse(s)
  {
    assert (s + [x])[..|s|] == s;
  }

  /** The script that deletes everything and then inserts everything. */
  function Replace(a: seq<Line>, b: seq<Line>): Script {
    seq(|a|, i requires 0 <= i < |a| => ['-'] + a[i]) + seq(|b|, i requires 0 <= i < |b| => ['+'] + b[i])
  }

  lemma {:induction false} ReplaceDiffs(a: seq<Line>, b: seq<Line>)
    ensures Diffs(Replace(a, b), a, b)
    decreases |a| + |b|
  {
    var s := Replace(a, b);
    if a != [] {
      assert s[0][1..] == a[0];
      assert s[1..] == Replace(a[1..], b);
      ReplaceDiffs(a[1..], b);
    } else if b != [] {
      assert s[0][1..] == b[0];
      assert s[1..] == Replace(a, b[1..]);
      ReplaceDiffs(a, b[1..]);
    }
  }

  /** The first `upTo` entries of a matrix of rows of length `n`. */
  ghost predicate Filled(dir: seq<byte>, a: seq<Line>, b: seq<Line>, upTo: nat)
    requires upTo <= |dir| && (upTo > 0 ==> |b| > 0)
  {
    forall k :: 0 <= k < upTo ==> dir[k] == Direction(a, b, k / |b| + 1, k % |b| + 1)
  }

  ghost predicate RowIs(row: seq<uint16>, a: seq<Line>, b: seq<Line>, i: nat, upTo: nat)
    requires i <= |a| && upTo <= |b| < |row|
  {
    forall j :: 0 <= j <= upTo ==> row[j] == Cell(a, b, i, j)
  }

  /**
   * The forward pass. The two rows hold the last two rows of the full table,
   * and no cell ever exceeds 16 bits.
   */
  method FillDirections(a: seq<Line>, b: seq<Line>) returns (dir: array<byte>)
    requires |a| <= LIMIT && |b| <= LIMIT
    ensures fresh(dir) && dir.Length == |a| * |b|
    ensures Filled(dir[..], a, b, |a| * |b|)
  {
    var m, n := |a|, |b|;
    var prev := new uint16[n + 1](_ => 0);
    var curr := new uint16[n + 1](_ => 0);
    dir := new byte[m * n](_ => 0);
    for i := 1 to m + 1
      invariant prev != curr && fresh(prev) && fresh(curr) && prev.Length == curr.Length == n + 1
      invariant RowIs(curr[..], a, b, i - 1, n)
      invariant (i - 1) * n <= m * n
      invariant Filled(dir[..], a, b, (i - 1) * n)
    {
      prev, curr := curr, prev;
      forall j | 0 <= j <= n {
        curr[j] := 0;
      }
      FillRow(a, b, i, prev, curr, dir);
    }
  }

  lemma RowStarts(row: seq<uint16>, a: seq<Line>, b: seq<Line>, i: nat)
    requires i <= |a| && |b| < |row| && row[0] == Cell(a, b, i, 0)
    ensures RowIs(row, a, b, i, 0)
  {
    hide Cell;
  }

  lemma RowAt(row: seq<uint16>, a: seq<Line>, b: seq<Line>, i: nat, upTo: nat, j: nat)
    requires i <= |a| && upTo <= |b| < |row| && RowIs(row, a, b, i, upTo) && j <= upTo
    ensures row[j] == Cell(a, b, i, j)
  {
    hide Cell;
  }

  lemma RowGrows(row: seq<uint16>, next: seq<uint16>, a: seq<Line>, b: seq<Line>, i: nat, j: nat)
    requires i <= |a| && 1 <= j <= |b| < |row| && RowIs(row, a, b, i, j - 1)
    requires |next| == |row| && next == row[j := next[j]] && next[j] == Cell(a, b, i, j)
    ensures RowIs(next, a, b, i, j)
  {
    hide Cell;
  }

  lemma FilledGrows(dir: seq<byte>, next: seq<byte>, a: seq<Line>, b: seq<Line>, k: nat, i: nat, j: nat)
    requires 1 <= i <= |a| && 1 <= j <= |b| && k < |dir| && Filled(dir, a, b, k)
    requires k / |b| == i - 1 && k % |b| == j - 1
    requires |next| == |dir| && next == dir[k := next[k]] && next[k] == Direction(a, b, i, j)
    ensures Filled(next, a, b, k + 1)
  {
    hide Direction;
  }

  method FillRow(a: seq<Line>, b: seq<Line>, i: nat, prev: array<uint16>, curr: array<uint16>, dir: array<byte>)
    requires 1 <= i <= |a| <= LIMIT && |b| <= LIMIT
    requires prev != curr && prev.Length == curr.Length == |b| + 1 && dir.Length == |a| * |b|
    requires RowIs(prev[..], a, b, i - 1, |b|) && curr[0] == 0
    requires (i - 1) * |b| <= dir.Length && Filled(dir[..], a, b, (i - 1) * |b|)
    modifies curr, dir
    ensures RowIs(curr[..], a, b, i, |b|)
    ensures i * |b| <= dir.Length && Filled(dir[..], a, b, i * |b|)
  {
    hide Cell, Direction, Filled, RowIs;
    CellBorder(a, b, i, 0);
    RowStarts(curr[..], a, b, i);
    var n := |b|;
    var base := (i - 1) * n;
    if n > 0 {
      FlatIndex(|a|, n, i, n);
    }
    for j := 1 to n + 1
      invariant prev[..] == old(prev[..])
      invariant RowIs(curr[..], a, b, i, j - 1)
      invariant base + (j - 1) <= dir.Length && Filled(dir[..], a, b, base + (j - 1))
    {
      FlatIndex(|a|, n, i, j);
      CellSmall(a, b, i, j);
      CellStep(a, b, i, j);
      RowAt(prev[..], a, b, i - 1, n, j);
      RowAt(prev[..], a, b, i - 1, n, j - 1);
      RowAt(curr[..], a, b, i, j - 1, j - 1);
      ghost var row, before := curr[..], dir[..];
      if a[i - 1] == b[j - 1] {
        curr[j] := (prev[j - 1] + 1) % TWO16;
        dir[(i - 1) * n + (j - 1)] := 0;
      } else if prev[j] >= curr[j - 1] {
        curr[j] := prev[j];
        dir[(i - 1) * n + (j - 1)] := 1;
      } else {
        curr[j] := curr[j - 1];
        dir[(i - 1) * n + (j - 1)] := 2;
      }
      RowGrows(row, curr[..], a, b, i, j);
      FilledGrows(before, dir[..], a, b, base + (j - 1), i, j);
    }
    assert i * n == base + n;
  }

  /** From (|a|, |b|) back to (0, 0) along the directions; the lines come out last first. */
  method Backtrack(a: seq<Line>, b: seq<Line>, dir: array<byte>) returns (result: Script)
    requires dir.Length == |a| * |b| && Filled(dir[..], a, b, |a| * |b|)
    ensures Diffs(Reverse(result), a, b)
    ensures |Kept(Reverse(result))| == Cell(a, b, |a|, |b|)
    ensures InsertsFirst(Reverse(result))
  {
    hide Cell, Direction, OldSide, NewSide, WellMarked, Kept, InsertsFirst, NoUpAfterInsert, Reverse;
    result := [];
    var n := |b|;
    var ri, rj := |a|, n;
    EmptyScript(a, b);
    NothingReversed<string>();
    while ri > 0 || rj > 0
      invariant 0 <= ri <= |a| && 0 <= rj <= n
      invariant Diffs(Reverse(result), a[ri..], b[rj..])
      invariant |Kept(Reverse(result))| + Cell(a, b, ri, rj) == Cell(a, b, |a|, n)
      invariant InsertsFirst(Reverse(result)) && NoUpAfterInsert(Reverse(result), a, b, ri, rj)
      decreases ri + rj
    {
      if ri > 0 && rj > 0 {
        FlatIndex(|a|, n, ri, rj);
        assert dir[..][(ri - 1) * n + (rj - 1)] == Direction(a, b, ri, rj);
        CellStep(a, b, ri, rj);
      } else {
        CellBorder(a, b, ri, rj);
        CellBorder(a, b, if ri > 0 then ri - 1 else 0, if rj > 0 then rj - 1 else 0);
      }
      if ri > 0 && rj > 0 && dir[(ri - 1) * n + (rj - 1)] == 0 {
        PushBack(result, a, b, ri, rj, ' ');
        result := result + [[' '] + a[ri - 1]];
        ri, rj := ri - 1, rj - 1;
      } else if ri > 0 && (rj == 0 || dir[(ri - 1) * n + (rj - 1)] == 1) {
        PushBack(result, a, b, ri, rj, '-');
        result := result + [['-'] + a[ri - 1]];
        ri := ri - 1;
      } else {
        PushBack(result, a, b, ri, rj, '+');
        result := result + [['+'] + b[rj - 1]];
        rj := rj - 1;
      }
    }
    assert a[0..] == a && b[0..] == b;
    CellBorder(a, b, 0, 0);
  }

  /** If the script so far starts with an insertion, the next step back is not a deletion. */
  predicate NoUpAfterInsert(s: Script, a: seq<Line>, b: seq<Line>, ri: nat, rj: nat) {
    s != [] && Marked(s[0], '+') && ri > 0 ==> rj > 0 && Direction(a, b, ri, rj) != 1
  }

  /** Left and then up is never how the table was reached: up would have been preferred at once. */
  lemma LeftThenNotUp(a: seq<Line>, b: seq<Line>, i: nat, j: nat)
    requires 1 <= i <= |a| && 1 <= j <= |b| && Direction(a, b, i, j) == 2
    ensures j - 1 > 0 && Direction(a, b, i, j - 1) != 1
  {
    hide Cell;
    CellStep(a, b, i, j);
    CellGrows(a, b, i - 1, j);
    if j == 1 {
      CellBorder(a, b, i, 0);
    } else {
      CellStep(a, b, i, j - 1);
    }
  }

  lemma OrderBack(s: Script, a: seq<Line>, b: seq<Line>, ri: nat, rj: nat, mark: char)
    requires ri <= |a| && rj <= |b| && InsertsFirst(s) && NoUpAfterInsert(s, a, b, ri, rj) && mark in {' ', '-', '+'}
    requires mark == ' ' ==> ri > 0 && rj > 0
    requires mark == '-' ==> ri > 0 && (rj == 0 || Direction(a, b, ri, rj) == 1)
    requires mark == '+' ==> rj > 0 && (ri == 0 || Direction(a, b, ri, rj) == 2)
    ensures var x := [mark] + if mark == '+' then b[rj - 1] else a[ri - 1];
            var t := [x] + s;
            && InsertsFirst(t)
            && NoUpAfterInsert(t, a, b, if mark == '+' then ri else ri - 1, if mark == '-' then rj else rj - 1)
  {
    hide Direction;
    var x := [mark] + if mark == '+' then b[rj - 1] else a[ri - 1];
    var t := [x] + s;
    assert t[1..] == s && x[0] == mark;
    if mark == '+' && ri > 0 {
      LeftThenNotUp(a, b, ri, rj);
    }
  }

  lemma NothingReversed<T>()
    ensures Reverse<T>([]) == []
  {
  }

  /** One step of the walk back, on the script that comes out last first. */
  lemma PushBack(r: Script, a: seq<Line>, b: seq<Line>, ri: nat, rj: nat, mark: char)
    requires ri <= |a| && rj <= |b| && Diffs(Reverse(r), a[ri..], b[rj..]) && mark in {' ', '-', '+'}
    requires InsertsFirst(Reverse(r)) && NoUpAfterInsert(Reverse(r), a, b, ri, rj)
    requires mark == ' ' ==> ri > 0 && rj > 0 && a[ri - 1] == b[rj - 1]
    requires mark == '-' ==> ri > 0 && (rj == 0 || Direction(a, b, ri, rj) == 1)
    requires mark == '+' ==> rj > 0 && (ri == 0 || Direction(a, b, ri, rj) == 2)
    ensures var t := Reverse(r + [[mark] + if mark == '+' then b[rj - 1] else a[ri - 1]]);
            && Diffs(t, if mark == '+' then a[ri..] else a[ri - 1..], if mark == '-' then b[rj..] else b[rj - 1..])
            && |Kept(t)| == |Kept(Reverse(r))| + (if mark == ' ' then 1 else 0)
            && InsertsFirst(t)
            && NoUpAfterInsert(t, a, b, if mark == '+' then ri else ri - 1, if mark == '-' then rj else rj - 1)
  {
    hide Diffs, InsertsFirst, NoUpAfterInsert, Reverse, Kept, Direction;
    ReversePush(r, [mark] + if mark == '+' then b[rj - 1] else a[ri - 1]);
    StepBack(Reverse(r), a, b, ri, rj, mark);
    OrderBack(Reverse(r), a, b, ri, rj, mark);
  }

  lemma EmptyScript(a: seq<Line>, b: seq<Line>)
    ensures Diffs([], a[|a|..], b[|b|..]) && Kept([]) == []
    ensures InsertsFirst([]) && NoUpAfterInsert([], a, b, |a|, |b|)
  {
  }

  /** Putting one line in front of a script for two suffixes. */
  lemma StepBack(s: Script, a: seq<Line>, b: seq<Line>, ri: nat, rj: nat, mark: char)
    requires ri <= |a| && rj <= |b| && Diffs(s, a[ri..], b[rj..]) && mark in {' ', '-', '+'}
    requires mark != '+' ==> ri > 0
    requires mark != '-' ==> rj > 0
    requires mark == ' ' ==> a[ri - 1] == b[rj - 1]
    ensures var x := [mark] + if mark == '+' then b[rj - 1] else a[ri - 1];
            var t := [x] + s;
            && Diffs(t, if mark == '+' then a[ri..] else a[ri - 1..], if mark == '-' then b[rj..] else b[rj - 1..])
            && |Kept(t)| == |Kept(s)| + if mark == ' ' then 1 else 0
  {
    var x := [mark] + if mark == '+' then b[rj - 1] else a[ri - 1];
    var t := [x] + s;
    assert t[0] == x && t[1..] == s && x[0] == mark;
    assert x[1..] == if mark == '+' then b[rj - 1] else a[ri - 1];
    if mark != '+' {
      assert a[ri - 1..] == [a[ri - 1]] + a[ri..];
    }
    if mark != '-' {
      assert b[rj - 1..] == [b[rj - 1]] + b[rj..];
    }
  }

  /**
   * Always a diff of the two files. With at most 5000 lines on each side it
   * keeps a longest common subsequence, so that no diff has fewer changes;
   * past the limit it does so only when the files share no line at all.
   */
  method SimpleDiff(a: seq<Line>, b: seq<Line>) returns (script: Script)
    ensures Diffs(script, a, b)
    ensures |a| <= 5000 && |b| <= 5000 ==>
              && LongestCommon(Kept(script), a, b) && InsertsFirst(script)
              && forall t :: Diffs(t, a, b) ==> Changes(script) <= Changes(t)
    ensures |a| > 5000 || |b| > 5000 ==> script == Replace(a, b)
    ensures LongestCommon(Kept(script), a, b) <==>
              || (|a| <= 5000 && |b| <= 5000)
              || (forall x :: x in a ==> x !in b)
  {
    if |a| > LIMIT || |b| > LIMIT {
      script := ReplaceAll(a, b);
      EmptyIsLongest(a, b);
      return;
    }
    var dir := FillDirections(a, b);
    var result := Backtrack(a, b, dir);
    script := ReverseList(result);
    OptimalScript(script, a, b);
  }

  /** The large-input fallback. */
  method ReplaceAll(a: seq<Line>, b: seq<Line>) returns (hunks: Script)
    ensures hunks == Replace(a, b) && Diffs(hunks, a, b) && Kept(hunks) == []
  {
    hunks := [];
    for i := 0 to |a|
      invariant hunks == Replace(a[..i], [])
    {
      assert a[..i + 1] == a[..i] + [a[i]];
      hunks := hunks + [['-'] + a[i]];
    }
    assert a[..|a|] == a;
    for j := 0 to |b|
      invariant hunks == Replace(a, b[..j])
    {
      assert b[..j + 1] == b[..j] + [b[j]];
      hunks := hunks + [['+'] + b[j]];
    }
    assert b[..|b|] == b;
    ReplaceDiffs(a, b);
    ReplaceKeepsNothing(hunks);
  }

  lemma {:induction false} ReplaceKeepsNothing(s: Script)
    requires WellMarked(s) && forall k :: 0 <= k < |s| ==> s[k][0] != ' '
    ensures Kept(s) == []
  {
    if s != [] {
      ReplaceKeepsNothing(s[1..]);
    }
  }

  method ReverseList(s: Script) returns (r: Script)
    ensures r == Reverse(s)
  {
    r := [];
    assert s[..|s|] == s;
    for i := 0 to |s|
      invariant r == Reverse(s[..i])
    {
      assert s[..i + 1] == s[..i] + [s[i]];
      ReversePush(s[..i], s[i]);
      r := [s[i]] + r;
    }
  }
}
