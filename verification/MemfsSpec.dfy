/**
 * The file system as a flat map from paths to directories and byte contents,
 * what each operation does to that map, and the mutation journal with its
 * replay on the path-to-inode namespace.
 */
module MemfsSpec {
  import opened Words
  import opened MemfsTree

  datatype Entry = DirEntry | FileEntry(bytes: seq<byte>)

  type Flat = map<Path, Entry>

  datatype Error =
    | ENOENT | EISDIR | ENOTDIR | EEXIST | EBADF | EPERM | ENOTEMPTY
    | NullChildren  // the TypeError of reading the children of a file
    | OutOfRange    // the RangeError of a typed array

  datatype Outcome = Done | Fail(error: Error)

  function EntryOf(n: Inode): Entry {
    match n
    case Dir(_, _) => DirEntry
    case File(content, _, _) => FileEntry(content)
  }

  /** The flat map that an inode table and its namespace stand for. */
  function FlatOf(inodes: Inodes, ns: Namespace): Flat
    requires forall p :: p in ns ==> ns[p] in inodes
  {
    map p | p in ns :: EntryOf(inodes[ns[p]])
  }

  predicate IsDir(f: Flat, p: Path) {
    p in f && f[p] == DirEntry
  }

  /**
   * The place a mutation of the normalized path `p` acts on. The root has no
   * parent and no name, and the code then uses the empty name in the root.
   */
  function Target(p: Path): (t: Path)
    ensures t != []
  {
    if p == [] then [""] else p
  }

  // ---------- the operations on the flat map ----------

  function MkdirSpec(f: Flat, t: Path): (Outcome, Flat)
    requires t != []
  {
    if !IsDir(f, Par(t)) then (Fail(ENOENT), f)
    else if t in f then (Fail(EEXIST), f)
    else (Done, f[t := DirEntry])
  }

  /** Whether a file stands on the way to `p`, or at it. */
  predicate Blocked(f: Flat, p: Path) {
    exists k :: 0 < k <= |p| && p[..k] in f && f[p[..k]] != DirEntry
  }

  /** The first `k` steps down `p`, as directories. */
  function Prefixes(p: Path, k: nat): Flat
    requires k <= |p|
  {
    map j | 0 < j <= k :: p[..j] := DirEntry
  }

  /** `p` and all its ancestors are directories; nothing else changes. */
  function MkdirAllSpec(f: Flat, p: Path): (Outcome, Flat) {
    if Blocked(f, p) then (Fail(ENOTDIR), f)
    else (Done, f + Prefixes(p, |p|))
  }

  lemma PrefixesStep(f: Flat, p: Path, k: nat)
    requires k < |p|
    ensures p[..k + 1] in f + Prefixes(p, k) <==> p[..k + 1] in f
    ensures p[..k + 1] in f ==> (f + Prefixes(p, k))[p[..k + 1]] == f[p[..k + 1]]
    ensures f + Prefixes(p, k + 1) == (f + Prefixes(p, k))[p[..k + 1] := DirEntry]
  {
    assert forall j :: 0 < j <= k ==> |p[..j]| == j;
  }

  /** When all of them are directories already, adding them changes nothing. */
  lemma PrefixesThere(f: Flat, p: Path, k: nat)
    requires k <= |p| && forall j :: 0 < j <= k ==> p[..j] in f && f[p[..j]] == DirEntry
    ensures f + Prefixes(p, k) == f
  {
  }

  function WriteFileSpec(f: Flat, t: Path, data: seq<byte>): (Outcome, Flat)
    requires t != []
  {
    if !IsDir(f, Par(t)) then (Fail(ENOENT), f)
    else if IsDir(f, t) then (Fail(EISDIR), f)
    else (Done, f[t := FileEntry(data)])
  }

  function UnlinkSpec(f: Flat, t: Path): (Outcome, Flat)
    requires t != []
  {
    if !IsDir(f, Par(t)) || t !in f then (Fail(ENOENT), f)
    else if IsDir(f, t) then (Fail(EISDIR), f)
    else (Done, f - {t})
  }

  ghost predicate HasChild(f: Flat, p: Path) {
    exists name :: p + [name] in f
  }

  ghost function RmdirSpec(f: Flat, p: Path): (Outcome, Flat) {
    if p == [] then (Fail(EPERM), f)
    else if p !in f then (Fail(ENOENT), f)
    else if !IsDir(f, p) then (Fail(ENOTDIR), f)
    else if HasChild(f, p) then (Fail(ENOTEMPTY), f)
    else (Done, f - {p})
  }

  function RenameSpec(f: Flat, from: Path, to: Path): (Outcome, Flat)
    requires from != [] && to != []
  {
    if Par(from) !in f then (Fail(ENOENT), f)
    else if !IsDir(f, Par(from)) then (Fail(NullChildren), f)
    else if from !in f then (Fail(ENOENT), f)
    else if !IsDir(f, Par(to)) then (Fail(ENOENT), f)
    else (Done, Moved(f, from, to))
  }

  // ---------- what the operations do, path by path ----------

  /** Nothing has changed but perhaps at `t`. */
  ghost predicate SameBut(f: Flat, g: Flat, t: Path) {
    forall p :: p != t ==> (p in g <==> p in f) && (p in f && p in g ==> g[p] == f[p])
  }

  /** The path and its ancestors are directories, everything else is as it was. */
  ghost predicate MadeDirs(f: Flat, g: Flat, norm: Path) {
    && (forall p :: p in g <==> p in f || (p <= norm && p != []))
    && (forall p :: p in g ==> g[p] == if p <= norm && p != [] then DirEntry else f[p])
  }

  /** What was at or under `from` is now at or under `to`, in place of what was there; all else is as it was. */
  ghost predicate Relocated(f: Flat, g: Flat, from: Path, to: Path) {
    && (forall q :: to + q in g <==> from + q in f)
    && (forall q :: from + q in f && to + q in g ==> g[to + q] == f[from + q])
    && (forall p :: from <= p && !(to <= p) ==> p !in g)
    && (forall p :: !(from <= p) && !(to <= p) ==> (p in g <==> p in f) && (p in f && p in g ==> g[p] == f[p]))
  }

  /** What was at or under `from` is gone; all else is as it was. */
  ghost predicate Vanished(f: Flat, g: Flat, from: Path) {
    && (forall p :: p in g <==> p in f && !(from <= p))
    && (forall p :: p in g ==> p in f && g[p] == f[p])
  }

  lemma MovedVanishes(f: Flat, from: Path, to: Path)
    requires from < to
    ensures Vanished(f, Moved(f, from, to), from)
  {
  }

  lemma MovedRelocates(f: Flat, from: Path, to: Path)
    requires !(from < to)
    ensures Relocated(f, Moved(f, from, to), from, to)
  {
    hide Moved;
    var g := Moved(f, from, to);
    forall q ensures to + q in g <==> from + q in f
      ensures from + q in f && to + q in g ==> g[to + q] == f[from + q] {
      MovedAt(f, from, to, to + q);
      assert (to + q)[|to|..] == q;
    }
    forall p | !(to <= p) ensures p in g <==> p in f && !(from <= p)
      ensures p in g && p in f ==> g[p] == f[p] {
      MovedAt(f, from, to, p);
    }
  }

  lemma MadeAll(f: Flat, p: Path)
    ensures MadeDirs(f, f + Prefixes(p, |p|), p)
  {
    var g := f + Prefixes(p, |p|);
    forall q ensures q in Prefixes(p, |p|) <==> q <= p && q != [] {
      if q <= p && q != [] {
        assert q == p[..|q|];
      }
    }
  }

  /** `mkdir`: a new directory exactly if its parent is one and nothing is there. */
  ghost predicate MkdirEffect(f: Flat, r: Outcome, g: Flat, t: Path)
    requires t != []
  {
    && (r == Done <==> IsDir(f, Par(t)) && t !in f)
    && (r == Fail(ENOENT) <==> !IsDir(f, Par(t))) && (r == Fail(EEXIST) <==> IsDir(f, Par(t)) && t in f)
    && (r == Done ==> IsDir(g, t) && SameBut(f, g, t))
    && (r != Done ==> g == f)
  }

  lemma MkdirIs(f: Flat, t: Path)
    requires t != []
    ensures var (r, g) := MkdirSpec(f, t); MkdirEffect(f, r, g, t)
  {
  }

  /** Recursive `mkdir`: it fails exactly if a file stands on the way. */
  ghost predicate MkdirAllEffect(f: Flat, r: Outcome, g: Flat, norm: Path) {
    && (r == Done <==> forall q :: q <= norm && q != [] && q in f ==> f[q] == DirEntry)
    && (r != Done ==> r == Fail(ENOTDIR) && g == f)
    && (r == Done ==> MadeDirs(f, g, norm))
  }

  /** As many records of new directories as there are new directories. */
  ghost predicate DirsRecorded(f: Flat, g: Flat, before: seq<Record>, after: seq<Record>) {
    && before <= after && |after| - |before| == |g| - |f|
    && forall k :: |before| <= k < |after| ==> after[k].op.MkdirOp?
  }

  lemma DirRecorded(f: Flat, h: seq<Record>, p: Path, r: Record)
    requires p !in f && r.op.MkdirOp?
    ensures DirsRecorded(f, f[p := DirEntry], h, h + [r])
  {
    assert f[p := DirEntry].Keys == f.Keys + {p};
    assert |f[p := DirEntry].Keys| == |f.Keys| + 1;
  }

  lemma NoneRecorded(f: Flat, h: seq<Record>)
    ensures DirsRecorded(f, f, h, h)
  {
  }

  lemma DirsTrans(f: Flat, g: Flat, e: Flat, h: seq<Record>, i: seq<Record>, j: seq<Record>)
    requires DirsRecorded(f, g, h, i) && DirsRecorded(g, e, i, j)
    ensures DirsRecorded(f, e, h, j)
  {
  }

  /** No file among the first `k` steps down `p`. */
  predicate OnTheWay(f: Flat, p: Path, k: nat)
    requires k <= |p|
  {
    forall j :: 0 < j <= k && p[..j] in f ==> f[p[..j]] == DirEntry
  }

  lemma NothingMade(f: Flat, p: Path, h: seq<Record>)
    ensures f + Prefixes(p, 0) == f && OnTheWay(f, p, 0) && DirsRecorded(f, f, h, h)
  {
    PrefixesThere(f, p, 0);
  }

  lemma FurtherOn(f: Flat, p: Path, k: nat)
    requires k < |p| && OnTheWay(f, p, k) && (p[..k + 1] in f ==> f[p[..k + 1]] == DirEntry)
    ensures OnTheWay(f, p, k + 1)
  {
  }

  lemma WayClear(f: Flat, p: Path)
    requires OnTheWay(f, p, |p|)
    ensures MkdirAllSpec(f, p) == (Done, f + Prefixes(p, |p|))
  {
  }

  lemma MkdirAllIs(f: Flat, norm: Path)
    ensures var (r, g) := MkdirAllSpec(f, norm); MkdirAllEffect(f, r, g, norm)
  {
    hide MadeDirs, Prefixes;
    MadeAll(f, norm);
    forall q | q <= norm && q != [] && q in f && f[q] != DirEntry ensures Blocked(f, norm) {
      assert norm[..|q|] == q;
    }
  }

  /** `writeFile`: over a file or anew, exactly if the parent is a directory and no directory is there. */
  ghost predicate WriteFileEffect(f: Flat, r: Outcome, g: Flat, t: Path, data: seq<byte>)
    requires t != []
  {
    && (r == Done <==> IsDir(f, Par(t)) && !IsDir(f, t))
    && (r == Fail(ENOENT) <==> !IsDir(f, Par(t))) && (r == Fail(EISDIR) <==> IsDir(f, Par(t)) && IsDir(f, t))
    && (r == Done ==> t in g && g[t] == FileEntry(data) && SameBut(f, g, t))
    && (r != Done ==> g == f)
  }

  lemma WriteFileIs(f: Flat, t: Path, data: seq<byte>)
    requires t != []
    ensures var (r, g) := WriteFileSpec(f, t, data); WriteFileEffect(f, r, g, t, data)
  {
  }

  /** `unlink`: exactly if a file is there. */
  ghost predicate UnlinkEffect(f: Flat, r: Outcome, g: Flat, t: Path) {
    && (r == Done <==> t in f && f[t] != DirEntry)
    && (r == Fail(EISDIR) <==> IsDir(f, t)) && (r == Fail(ENOENT) <==> t !in f)
    && (r == Done ==> t !in g && SameBut(f, g, t))
    && (r != Done ==> g == f)
  }

  lemma UnlinkIs(f: Flat, t: Path)
    requires t != [] && (t in f ==> IsDir(f, Par(t)))
    ensures var (r, g) := UnlinkSpec(f, t); UnlinkEffect(f, r, g, t)
  {
  }

  /** `rmdir`: exactly if an empty directory other than the root is there. */
  ghost predicate RmdirEffect(f: Flat, r: Outcome, g: Flat, norm: Path) {
    && (r == Done <==> norm != [] && IsDir(f, norm) && !exists name :: norm + [name] in f)
    && (r == Fail(EPERM) <==> norm == []) && (r == Fail(ENOENT) <==> norm != [] && norm !in f)
    && (r == Fail(ENOTDIR) <==> norm != [] && norm in f && f[norm] != DirEntry)
    && (r == Fail(ENOTEMPTY) <==> norm != [] && IsDir(f, norm) && exists name :: norm + [name] in f)
    && (r == Done ==> norm !in g && SameBut(f, g, norm))
    && (r != Done ==> g == f)
  }

  lemma RmdirIs(f: Flat, norm: Path)
    ensures var (r, g) := RmdirSpec(f, norm); RmdirEffect(f, r, g, norm)
  {
  }

  /** `rename`: exactly if the source is there and the target's parent is a directory, whatever is at the target. */
  ghost predicate RenameEffect(f: Flat, r: Outcome, g: Flat, from: Path, to: Path)
    requires from != [] && to != []
  {
    && (r == Done <==> from in f && IsDir(f, Par(to)))
    && (r == Fail(NullChildren) <==> Par(from) in f && !IsDir(f, Par(from)))
    && (r != Done ==> g == f && r in {Fail(ENOENT), Fail(NullChildren)})
    && (r == Done ==> if from < to then Vanished(f, g, from) else Relocated(f, g, from, to))
  }

  lemma RenameIs(f: Flat, from: Path, to: Path)
    requires from != [] && to != [] && (from in f ==> IsDir(f, Par(from)))
    ensures var (r, g) := RenameSpec(f, from, to); RenameEffect(f, r, g, from, to)
  {
    hide Moved, Relocated, Vanished;
    if from < to {
      MovedVanishes(f, from, to);
    } else {
      MovedRelocates(f, from, to);
    }
  }

  // ---------- the journal ----------

  datatype Op =
    | MkdirOp(path: Path, ino: Ino)
    | CreateOp(path: Path, ino: Ino)
    | WriteOp(path: Path, ino: Ino)
    | UnlinkOp(path: Path, ino: Ino)
    | RmdirOp(path: Path, ino: Ino)
    | RenameOp(path: Path, newPath: Path, ino: Ino)
    | CommitOp

  datatype Record = Record(seqNo: nat, op: Op, txid: nat)

  const MAX_JOURNAL := 10000
  const KEPT_JOURNAL := 7500

  /** What a consumer of the journal does to its own copy of the namespace. */
  function Apply(ns: Namespace, op: Op): Namespace {
    match op
    case MkdirOp(path, ino) => ns[Target(path) := ino]
    case CreateOp(path, ino) => ns[Target(path) := ino]
    case WriteOp(_, _) => ns
    case UnlinkOp(path, _) => ns - {Target(path)}
    case RmdirOp(path, _) => ns - {Target(path)}
    case RenameOp(path, newPath, _) => Moved(ns, Target(path), Target(newPath))
    case CommitOp => ns
  }

  function Replay(ns: Namespace, entries: seq<Record>): Namespace
    decreases |entries|
  {
    if entries == [] then ns else Replay(Apply(ns, entries[0].op), entries[1..])
  }

  /**
   * `history` is every record ever emitted and `nsAt[k]` the namespace after
   * the first `k` of them; `journal` is what is retained.
   */
  ghost predicate JournalOk(lastSeq: nat, journal: seq<Record>, start: nat, history: seq<Record>, nsAt: seq<Namespace>) {
    && |history| == lastSeq && |nsAt| == lastSeq + 1
    && (forall k :: 0 <= k < |history| ==> history[k].seqNo == k + 1)
    && (forall k :: 0 <= k < |history| ==> nsAt[k + 1] == Apply(nsAt[k], history[k].op))
    && start <= lastSeq
    && journal == history[start..]
    && |journal| <= MAX_JOURNAL
  }

  /** Replaying everything after `s` on the namespace at `s` gives the present namespace. */
  lemma {:induction false} ReplaySince(lastSeq: nat, journal: seq<Record>, start: nat, history: seq<Record>, nsAt: seq<Namespace>, s: nat)
    requires JournalOk(lastSeq, journal, start, history, nsAt) && s <= lastSeq
    ensures Replay(nsAt[s], history[s..]) == nsAt[lastSeq]
    decreases lastSeq - s
  {
    hide Apply;
    if s < lastSeq {
      assert history[s..][1..] == history[s + 1..];
      ReplaySince(lastSeq, journal, start, history, nsAt, s + 1);
    }
  }

  // ---------- a consumer that starts from nothing ----------

  predicate Creates(op: Op) {
    op.MkdirOp? || op.CreateOp?
  }

  /** The inodes made by these records. */
  function Births(h: seq<Record>): set<Ino> {
    set k | 0 <= k < |h| && Creates(h[k].op) :: h[k].op.ino
  }

  /** Inode numbers are given out in increasing order, all below `next`. */
  ghost predicate BirthsOk(h: seq<Record>, next: Ino) {
    && (forall k :: 0 <= k < |h| && Creates(h[k].op) ==> h[k].op.ino < next)
    && (forall i, j :: 0 <= i < j < |h| && Creates(h[i].op) && Creates(h[j].op) ==> h[i].op.ino < h[j].op.ino)
  }

  lemma BirthsExtend(h: seq<Record>, r: Record, next: Ino)
    requires BirthsOk(h, if Creates(r.op) then r.op.ino else next)
    requires Creates(r.op) ==> r.op.ino < next
    ensures BirthsOk(h + [r], next) && BirthsOk(h, next)
  {
    var g := h + [r];
    assert forall k :: 0 <= k < |h| ==> g[k] == h[k];
    assert g[|h|] == r;
  }

  /** The root and the paths of these inodes. */
  function Only(ns: Namespace, inos: set<Ino>): Namespace {
    map p | p in ns && (p == [] || ns[p] in inos) :: ns[p]
  }

  /** Forgetting some inodes first or last is the same, if what an operation creates is not forgotten. */
  lemma OnlyApply(ns: Namespace, op: Op, inos: set<Ino>)
    requires Creates(op) ==> op.ino in inos
    ensures Only(Apply(ns, op), inos) == Apply(Only(ns, inos), op)
  {
    if op.RenameOp? {
      OnlyMoved(ns, Target(op.path), Target(op.newPath), inos);
    }
  }

  lemma OnlyMoved(ns: Namespace, from: Path, to: Path, inos: set<Ino>)
    requires from != [] && to != []
    ensures Only(Moved(ns, from, to), inos) == Moved(Only(ns, inos), from, to)
  {
    hide Only, Moved;
    var x, y := Only(Moved(ns, from, to), inos), Moved(Only(ns, inos), from, to);
    forall p ensures p in x <==> p in y
      ensures p in x ==> x[p] == y[p] {
      if from < to {
        OnlyIntoAt(ns, from, to, inos, p);
      } else {
        OnlyMovedAt(ns, from, to, inos, p);
      }
    }
  }

  lemma OnlyIntoAt(ns: Namespace, from: Path, to: Path, inos: set<Ino>, p: Path)
    requires from < to
    ensures var x, y := Only(Moved(ns, from, to), inos), Moved(Only(ns, inos), from, to);
            (p in x <==> p in y) && (p in x ==> x[p] == y[p])
  {
    hide Only;
    OnlyAt(Moved(ns, from, to), inos, p);
    OnlyAt(ns, inos, p);
  }

  lemma OnlyMovedAt(ns: Namespace, from: Path, to: Path, inos: set<Ino>, p: Path)
    requires from != [] && to != [] && !(from < to)
    ensures var x, y := Only(Moved(ns, from, to), inos), Moved(Only(ns, inos), from, to);
            (p in x <==> p in y) && (p in x ==> x[p] == y[p])
  {
    hide Only, Moved;
    OnlyAt(Moved(ns, from, to), inos, p);
    OnlyAt(ns, inos, p);
    MovedAt(ns, from, to, p);
    MovedAt(Only(ns, inos), from, to, p);
    if to <= p {
      OnlyAt(ns, inos, from + p[|to|..]);
    }
  }

  lemma OnlyAt(ns: Namespace, inos: set<Ino>, p: Path)
    ensures p in Only(ns, inos) <==> p in ns && (p == [] || ns[p] in inos)
    ensures p in Only(ns, inos) ==> Only(ns, inos)[p] == ns[p]
  {
  }

  lemma {:induction false} OnlyReplay(ns: Namespace, h: seq<Record>, inos: set<Ino>)
    requires Births(h) <= inos
    ensures Only(Replay(ns, h), inos) == Replay(Only(ns, inos), h)
    decreases |h|
  {
    if h != [] {
      hide Apply, Only;
      assert Creates(h[0].op) ==> h[0].op.ino in Births(h);
      OnlyApply(ns, h[0].op, inos);
      BirthsTail(h);
      OnlyReplay(Apply(ns, h[0].op), h[1..], inos);
    }
  }

  lemma BirthsTail(h: seq<Record>)
    requires h != []
    ensures Births(h[1..]) <= Births(h)
  {
    forall i | i in Births(h[1..]) ensures i in Births(h) {
      var k :| 0 <= k < |h[1..]| && Creates(h[1..][k].op) && h[1..][k].op.ino == i;
      assert h[k + 1] == h[1..][k];
    }
  }

  /** Every path but the root leads to an inode made by some record so far. */
  lemma {:induction false} AllBorn(history: seq<Record>, nsAt: seq<Namespace>, k: nat)
    requires |nsAt| == |history| + 1 && nsAt[0] == map[[] := ROOT] && k <= |history|
    requires forall i :: 0 <= i < |history| ==> nsAt[i + 1] == Apply(nsAt[i], history[i].op)
    ensures [] in nsAt[k] && nsAt[k][[]] == ROOT
    ensures forall p :: p in nsAt[k] && p != [] ==> nsAt[k][p] in Births(history[..k])
  {
    if k > 0 {
      AllBorn(history, nsAt, k - 1);
      var ns, op, h := nsAt[k - 1], history[k - 1].op, history[..k];
      assert h[..k - 1] == history[..k - 1] && h[k - 1] == history[k - 1];
      assert Births(h[..k - 1]) <= Births(h) by { BirthsFront(h, k - 1); }
      assert nsAt[k] == Apply(ns, op);
      BornStep(ns, op, Births(h[..k - 1]), Births(h));
    }
  }

  lemma BirthsFront(h: seq<Record>, k: nat)
    requires k <= |h|
    ensures Births(h[..k]) <= Births(h)
    ensures k < |h| && Creates(h[k].op) ==> h[k].op.ino in Births(h)
  {
    forall i | i in Births(h[..k]) ensures i in Births(h) {
      var j :| 0 <= j < |h[..k]| && Creates(h[..k][j].op) && h[..k][j].op.ino == i;
      assert h[j] == h[..k][j];
    }
  }

  lemma BornStep(ns: Namespace, op: Op, before: set<Ino>, after: set<Ino>)
    requires [] in ns && forall p :: p in ns && p != [] ==> ns[p] in before
    requires before <= after && (Creates(op) ==> op.ino in after)
    ensures [] in Apply(ns, op) && Apply(ns, op)[[]] == ns[[]]
    ensures forall p :: p in Apply(ns, op) && p != [] ==> Apply(ns, op)[p] in after
  {
    if op.RenameOp? {
      var from, to := Target(op.path), Target(op.newPath);
      if !(from < to) {
        forall p | p in Moved(ns, from, to) ensures p != [] ==> Moved(ns, from, to)[p] in after {
          MovedAt(ns, from, to, p);
        }
        MovedAt(ns, from, to, []);
      }
    }
  }

  /** All that is kept of the journal, at the namespace `ns` and the next free inode number. */
  ghost predicate JournalState(lastSeq: nat, journal: seq<Record>, start: nat, history: seq<Record>, nsAt: seq<Namespace>,
                               ns: Namespace, next: Ino) {
    && JournalOk(lastSeq, journal, start, history, nsAt) && nsAt[lastSeq] == ns
    && BirthsOk(history, next) && nsAt[0] == map[[] := ROOT]
  }

  /** Appending a record, and cutting the journal or not. */
  lemma EmitKeeps(lastSeq: nat, journal: seq<Record>, start: nat, history: seq<Record>, nsAt: seq<Namespace>,
                  ns: Namespace, next: Ino, r: Record)
    requires JournalState(lastSeq, journal, start, history, nsAt, ns, next)
    requires r.seqNo == lastSeq + 1 && (Creates(r.op) ==> r.op.ino < next && BirthsOk(history, r.op.ino))
    ensures var j, n := journal + [r], Apply(ns, r.op);
            var cut := |j| - KEPT_JOURNAL;
            && (|j| <= MAX_JOURNAL ==> JournalState(lastSeq + 1, j, start, history + [r], nsAt + [n], n, next))
            && |j| <= MAX_JOURNAL + 1 && (|j| > MAX_JOURNAL ==> j[cut - 1].seqNo == lastSeq + 1 - 7500)
            && (|j| > MAX_JOURNAL ==> JournalState(lastSeq + 1, j[cut..], j[cut - 1].seqNo, history + [r], nsAt + [n], n, next))
  {
    hide BirthsOk, Apply;
    BirthsExtend(history, r, next);
    var j := journal + [r];
    var cut := |j| - KEPT_JOURNAL;
    assert j == (history + [r])[start..];
    if |j| > MAX_JOURNAL {
      assert j[cut - 1] == (history + [r])[start + cut - 1];
      assert j[cut..] == (history + [r])[start + cut..];
    }
  }

  /** Giving out a later number than any birth. */
  lemma LaterNext(lastSeq: nat, journal: seq<Record>, start: nat, history: seq<Record>, nsAt: seq<Namespace>, ns: Namespace, next: Ino)
    requires JournalState(lastSeq, journal, start, history, nsAt, ns, next)
    ensures JournalState(lastSeq, journal, start, history, nsAt, ns, next + 1) && BirthsOk(history, next)
  {
  }

  /** Every path but the root leads to an inode that the records at hand made. */
  predicate Accounted(ns: Namespace, entries: seq<Record>) {
    forall p :: p in ns && p != [] ==> ns[p] in Births(entries)
  }

  /**
   * A consumer that replays the retained records on the empty file system is
   * brought up to date exactly if those records account for every inode.
   */
  lemma FromNothing(lastSeq: nat, journal: seq<Record>, start: nat, history: seq<Record>, nsAt: seq<Namespace>, next: Ino)
    requires JournalOk(lastSeq, journal, start, history, nsAt) && BirthsOk(history, next) && nsAt[0] == map[[] := ROOT]
    ensures Replay(nsAt[0], journal) == nsAt[lastSeq] <==> Accounted(nsAt[lastSeq], journal)
  {
    hide Apply, Replay, Births;
    var b := Births(journal);
    ReplaySince(lastSeq, journal, start, history, nsAt, start);
    AllBorn(history, nsAt, start);
    AllBorn(history, nsAt, lastSeq);
    BirthsApart(history, next, start);
    assert Only(nsAt[start], b) == nsAt[0];
    OnlyReplay(nsAt[start], journal, b);
    OnlyAll(nsAt[lastSeq], b);
  }

  lemma OnlyAll(ns: Namespace, inos: set<Ino>)
    ensures Only(ns, inos) == ns <==> forall p :: p in ns && p != [] ==> ns[p] in inos
  {
    if Only(ns, inos) == ns {
      forall p | p in ns && p != [] ensures ns[p] in inos {
        assert p in Only(ns, inos);
      }
    }
  }

  lemma BirthsApart(h: seq<Record>, next: Ino, k: nat)
    requires BirthsOk(h, next) && k <= |h|
    ensures Births(h[..k]) !! Births(h[k..])
  {
    forall i | i in Births(h[..k]) ensures i !in Births(h[k..]) {
      var a :| 0 <= a < k && Creates(h[..k][a].op) && h[..k][a].op.ino == i;
      forall b | 0 <= b < |h[k..]| && Creates(h[k..][b].op) ensures h[k..][b].op.ino != i {
        assert h[k..][b] == h[k + b] && h[..k][a] == h[a];
      }
    }
  }

  // ---------- flat maps and trees ----------

  /** An inode table without name and content changes has the same flat map. */
  lemma FlatFrame(inodes: Inodes, inodes': Inodes, ns: Namespace)
    requires forall p :: p in ns ==> ns[p] in inodes && ns[p] in inodes' && EntryOf(inodes[ns[p]]) == EntryOf(inodes'[ns[p]])
    ensures FlatOf(inodes, ns) == FlatOf(inodes', ns)
  {
  }

  lemma FlatMoved(inodes: Inodes, ns: Namespace, from: Path, to: Path)
    requires forall p :: p in ns ==> ns[p] in inodes
    ensures forall p :: p in Moved(ns, from, to) ==> Moved(ns, from, to)[p] in inodes
    ensures FlatOf(inodes, Moved(ns, from, to)) == Moved(FlatOf(inodes, ns), from, to)
  {
    if !(from < to) {
      var f := FlatOf(inodes, ns);
      forall p
        ensures p in Moved(ns, from, to) <==> p in Moved(f, from, to)
        ensures p in Moved(ns, from, to) ==>
                  && Moved(ns, from, to)[p] in inodes
                  && EntryOf(inodes[Moved(ns, from, to)[p]]) == Moved(f, from, to)[p]
      {
        MovedAt(ns, from, to, p);
        MovedAt(f, from, to, p);
      }
    }
  }

  /** The directories of the flat map are the directory inodes. */
  lemma FlatDirs(inodes: Inodes, ns: Namespace, p: Path)
    requires TreeAt(inodes, ns, ROOT)
    ensures IsDir(FlatOf(inodes, ns), p) <==> p in ns && inodes[ns[p]].Dir?
    ensures p in ns <==> p in FlatOf(inodes, ns)
  {
  }

  /** A directory is empty in the flat map exactly when its inode has no children. */
  lemma FlatChildren(inodes: Inodes, ns: Namespace, p: Path)
    requires TreeAt(inodes, ns, ROOT) && p in ns
    ensures HasChild(FlatOf(inodes, ns), p) <==> Kids(inodes, ns[p]) != map[]
  {
    var kids := Kids(inodes, ns[p]);
    NoKeys(kids);
    if kids != map[] {
      var name :| name in kids.Keys;
      KidAt(inodes, ns, ROOT, p, name);
    } else if name :| p + [name] in ns {
      KidAt(inodes, ns, ROOT, p, name);
    }
  }

  lemma NoKeys<K, V>(m: map<K, V>)
    ensures m == map[] <==> m.Keys == {}
  {
  }
}
