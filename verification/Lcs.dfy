/**
 * Line diffs and longest common subsequences: what a diff script is, what it
 * spells, and why the length of a longest common subsequence bounds how many
 * lines any script can keep.
 */
module Lcs {
  type Line = string
  type Script = seq<string>

  /** Every script line is a mark (' ' keep, '-' delete, '+' insert) and a line of text. */
  predicate WellMarked(s: Script) {
    forall k :: 0 <= k < |s| ==> s[k] != "" && s[k][0] in {' ', '-', '+'}
  }

  /** The file the script starts from: its kept and deleted lines. */
  function OldSide(s: Script): seq<Line>
    requires WellMarked(s)
  {
    if s == [] then []
    else (if s[0][0] == '+' then [] else [s[0][1..]]) + OldSide(s[1..])
  }

  /** The file the script leads to: its kept and inserted lines. */
  function NewSide(s: Script): seq<Line>
    requires WellMarked(s)
  {
    if s == [] then []
    else (if s[0][0] == '-' then [] else [s[0][1..]]) + NewSide(s[1..])
  }

  function Kept(s: Script): seq<Line>
    requires WellMarked(s)
  {
    if s == [] then []
    else (if s[0][0] == ' ' then [s[0][1..]] else []) + Kept(s[1..])
  }

  /** The number of inserted and deleted lines. */
  function Changes(s: Script): nat
    requires WellMarked(s)
  {
    if s == [] then 0
    else (if s[0][0] == ' ' then 0 else 1) + Changes(s[1..])
  }

  /** `s` is a diff from `a` to `b`. */
  predicate Diffs(s: Script, a: seq<Line>, b: seq<Line>) {
    WellMarked(s) && OldSide(s) == a && NewSide(s) == b
  }

  /** In every block of changed lines the insertions come before the deletions. */
  predicate InsertsFirst(s: Script) {
    |s| < 2 || (!(Marked(s[0], '-') && Marked(s[1], '+')) && InsertsFirst(s[1..]))
  }

  predicate Marked(x: string, mark: char) {
    x != "" && x[0] == mark
  }

  /** `c` can be obtained from `a` by dropping lines. */
  predicate Subseq(c: seq<Line>, a: seq<Line>) {
    || c == []
    || (a != [] && Subseq(c, a[..|a| - 1]))
    || (c != [] && a != [] && c[|c| - 1] == a[|a| - 1] && Subseq(c[..|c| - 1], a[..|a| - 1]))
  }

  ghost predicate Common(c: seq<Line>, a: seq<Line>, b: seq<Line>) {
    Subseq(c, a) && Subseq(c, b)
  }

  ghost predicate LongestCommon(c: seq<Line>, a: seq<Line>, b: seq<Line>) {
    Common(c, a, b) && forall d :: Common(d, a, b) ==> |d| <= |c|
  }

  // ---------- the recurrence ----------

  /** The cell for the prefixes of length `i` and `j`. */
  function Cell(a: seq<Line>, b: seq<Line>, i: nat, j: nat): nat
    requires i <= |a| && j <= |b|
    decreases i + j
  {
    if i == 0 || j == 0 then 0
    else if a[i - 1] == b[j - 1] then Cell(a, b, i - 1, j - 1) + 1
    else if Cell(a, b, i - 1, j) >= Cell(a, b, i, j - 1) then Cell(a, b, i - 1, j)
    else Cell(a, b, i, j - 1)
  }

  /** One line more on a side adds nothing or one. */
  lemma {:induction false} CellGrows(a: seq<Line>, b: seq<Line>, i: nat, j: nat)
    requires i <= |a| && j <= |b|
    ensures i > 0 ==> Cell(a, b, i - 1, j) <= Cell(a, b, i, j) <= Cell(a, b, i - 1, j) + 1
    ensures j > 0 ==> Cell(a, b, i, j - 1) <= Cell(a, b, i, j) <= Cell(a, b, i, j - 1) + 1
    decreases i + j
  {
    if i > 0 {
      CellGrows(a, b, i - 1, j);
    }
    if j > 0 {
      CellGrows(a, b, i, j - 1);
    }
    if i > 0 && j > 0 {
      CellGrows(a, b, i - 1, j - 1);
    }
  }

  lemma {:induction false} CellSmall(a: seq<Line>, b: seq<Line>, i: nat, j: nat)
    requires i <= |a| && j <= |b|
    ensures Cell(a, b, i, j) <= i && Cell(a, b, i, j) <= j
    decreases i + j
  {
    if i > 0 && j > 0 {
      CellSmall(a, b, i - 1, j - 1);
      CellSmall(a, b, i - 1, j);
      CellSmall(a, b, i, j - 1);
    }
  }

  // ---------- subsequences ----------

  lemma SubseqDropLast(c: seq<Line>, a: seq<Line>)
    requires c != [] && Subseq(c, a)
    ensures a != [] && Subseq(c[..|c| - 1], a[..|a| - 1])
    ensures Subseq(c[..|c| - 1], a)
    decreases |a|
  {
    var c' := c[..|c| - 1];
    var a' := a[..|a| - 1];
    if Subseq(c, a') {
      SubseqDropLast(c, a');
    }
  }

  lemma SubseqExtend(c: seq<Line>, a: seq<Line>, x: Line)
    requires Subseq(c, a)
    ensures Subseq(c, a + [x]) && Subseq(c + [x], a + [x])
  {
    assert (a + [x])[..|a|] == a;
    assert (c + [x])[..|c|] == c;
  }

  /** If the last lines differ, a common subsequence avoids one of them. */
  lemma CommonSplits(c: seq<Line>, a: seq<Line>, b: seq<Line>)
    requires Common(c, a, b) && a != [] && b != []
    ensures a[|a| - 1] != b[|b| - 1] ==> Subseq(c, a[..|a| - 1]) || Subseq(c, b[..|b| - 1])
  {
  }

  /** No common subsequence of two prefixes is longer than their cell. */
  lemma {:induction false} CellIsUpperBound(a: seq<Line>, b: seq<Line>, i: nat, j: nat, c: seq<Line>)
    requires i <= |a| && j <= |b| && Common(c, a[..i], b[..j])
    ensures |c| <= Cell(a, b, i, j)
    decreases i + j
  {
    if c != [] && i > 0 && j > 0 {
      assert a[..i][..i - 1] == a[..i - 1] && b[..j][..j - 1] == b[..j - 1];
      if a[i - 1] == b[j - 1] {
        SubseqDropLast(c, a[..i]);
        SubseqDropLast(c, b[..j]);
        CellIsUpperBound(a, b, i - 1, j - 1, c[..|c| - 1]);
      } else {
        CommonSplits(c, a[..i], b[..j]);
        if Subseq(c, a[..i - 1]) {
          CellIsUpperBound(a, b, i - 1, j, c);
        } else {
          CellIsUpperBound(a, b, i, j - 1, c);
        }
      }
    }
  }

  // ---------- scripts ----------

  lemma ScriptAppend(s: Script, x: string)
    requires WellMarked(s) && x != "" && x[0] in {' ', '-', '+'}
    ensures WellMarked(s + [x])
    ensures OldSide(s + [x]) == OldSide(s) + if x[0] == '+' then [] else [x[1..]]
    ensures NewSide(s + [x]) == NewSide(s) + if x[0] == '-' then [] else [x[1..]]
    ensures Kept(s + [x]) == Kept(s) + if x[0] == ' ' then [x[1..]] else []
  {
    OldAppend(s, x);
    NewAppend(s, x);
    KeepsAppend(s, x);
  }

  lemma {:induction false} OldAppend(s: Script, x: string)
    requires WellMarked(s) && x != "" && x[0] in {' ', '-', '+'}
    ensures OldSide(s + [x]) == OldSide(s) + if x[0] != '+' then [x[1..]] else []
  {
    if s == [] {
      assert s + [x] == [x] && [x][1..] == [];
    } else {
      assert (s + [x])[1..] == s[1..] + [x] && (s + [x])[0] == s[0];
      OldAppend(s[1..], x);
    }
  }

  lemma {:induction false} NewAppend(s: Script, x: string)
    requires WellMarked(s) && x != "" && x[0] in {' ', '-', '+'}
    ensures NewSide(s + [x]) == NewSide(s) + if x[0] != '-' then [x[1..]] else []
  {
    if s == [] {
      assert s + [x] == [x] && [x][1..] == [];
    } else {
      assert (s + [x])[1..] == s[1..] + [x] && (s + [x])[0] == s[0];
      NewAppend(s[1..], x);
    }
  }

  lemma {:induction false} KeepsAppend(s: Script, x: string)
    requires WellMarked(s) && x != "" && x[0] in {' ', '-', '+'}
    ensures Kept(s + [x]) == Kept(s) + if x[0] == ' ' then [x[1..]] else []
  {
    if s == [] {
      assert s + [x] == [x] && [x][1..] == [];
    } else {
      assert (s + [x])[1..] == s[1..] + [x] && (s + [x])[0] == s[0];
      KeepsAppend(s[1..], x);
    }
  }

  lemma KeptAppend(r: Script, x: string)
    requires WellMarked(r) && x != "" && x[0] in {' ', '-', '+'}
    requires Common(Kept(r), OldSide(r), NewSide(r))
    requires Changes(r) + 2 * |Kept(r)| == |OldSide(r)| + |NewSide(r)|
    ensures var s := r + [x];
            && WellMarked(s)
            && Common(Kept(s), OldSide(s), NewSide(s))
            && Changes(s) + 2 * |Kept(s)| == |OldSide(s)| + |NewSide(s)|
  {
    hide Subseq, Kept, OldSide, NewSide, Changes;
    ScriptAppend(r, x);
    ChangesAppend(r, x);
    var kept, old', new' := Kept(r), OldSide(r), NewSide(r);
    assert kept + [] == kept && old' + [] == old' && new' + [] == new';
    SubseqExtend(kept, old', x[1..]);
    SubseqExtend(kept, new', x[1..]);
  }

  /** What a script keeps is common to both files, and it changes everything else. */
  lemma {:induction false} KeptIsCommon(s: Script)
    requires WellMarked(s)
    ensures Common(Kept(s), OldSide(s), NewSide(s))
    ensures Changes(s) + 2 * |Kept(s)| == |OldSide(s)| + |NewSide(s)|
  {
    if s != [] {
      var r := s[..|s| - 1];
      assert s == r + [s[|s| - 1]];
      KeptIsCommon(r);
      KeptAppend(r, s[|s| - 1]);
    }
  }

  lemma {:induction false} ChangesAppend(s: Script, x: string)
    requires WellMarked(s) && x != "" && x[0] in {' ', '-', '+'}
    ensures WellMarked(s + [x])
    ensures Changes(s + [x]) == Changes(s) + if x[0] == ' ' then 0 else 1
  {
    if s == [] {
      assert s + [x] == [x];
    } else {
      assert (s + [x])[1..] == s[1..] + [x];
      ChangesAppend(s[1..], x);
    }
  }

  /** A script that keeps as many lines as the last cell says is optimal in both senses. */
  lemma OptimalScript(s: Script, a: seq<Line>, b: seq<Line>)
    requires Diffs(s, a, b) && |Kept(s)| == Cell(a, b, |a|, |b|)
    ensures LongestCommon(Kept(s), a, b)
    ensures forall t :: Diffs(t, a, b) ==> Changes(s) <= Changes(t)
  {
    KeptIsCommon(s);
    assert a[..|a|] == a && b[..|b|] == b;
    forall d | Common(d, a, b)
      ensures |d| <= |Kept(s)|
    {
      CellIsUpperBound(a, b, |a|, |b|, d);
    }
    forall t | Diffs(t, a, b)
      ensures Changes(s) <= Changes(t)
    {
      KeptIsCommon(t);
    }
  }

  lemma {:induction false} SubseqMembers(c: seq<Line>, a: seq<Line>, x: Line)
    requires Subseq(c, a) && x in c
    ensures x in a
    decreases |a|
  {
    if a != [] {
      var a' := a[..|a| - 1];
      if Subseq(c, a') {
        SubseqMembers(c, a', x);
      } else if x != a[|a| - 1] {
        SubseqMembers(c[..|c| - 1], a', x);
      }
    }
  }

  lemma {:induction false} SingleSubseq(a: seq<Line>, x: Line)
    requires x in a
    ensures Subseq([x], a)
    decreases |a|
  {
    var a' := a[..|a| - 1];
    if x in a' {
      SingleSubseq(a', x);
    } else {
      assert Subseq([x][..0], a');
    }
  }

  /** Keeping nothing is optimal exactly when the files share no line. */
  lemma EmptyIsLongest(a: seq<Line>, b: seq<Line>)
    ensures LongestCommon([], a, b) <==> forall x :: x in a ==> x !in b
  {
    if x :| x in a && x in b {
      SingleSubseq(a, x);
      SingleSubseq(b, x);
      assert Common([x], a, b);
    } else {
      forall d | Common(d, a, b)
        ensures d == []
      {
        if d != [] {
          SubseqMembers(d, a, d[0]);
          SubseqMembers(d, b, d[0]);
        }
      }
    }
  }
}
