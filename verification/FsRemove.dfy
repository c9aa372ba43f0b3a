/** `rmSync` of the `fs` module, over the file system's own operations. */
module FsRemove {
  import opened Words
  import opened MemfsTree
  import opened MemfsSpec
  import opened MemfsOps
  import opened MemfsObject
  import Paths

  /** `f` without the subtrees under `names` of the directory `t`. */
  function Pruned(f: Flat, t: Path, names: seq<string>): Flat {
    if names == [] then f else Without(Pruned(f, t, names[..|names| - 1]), t + [names[|names| - 1]])
  }

  lemma {:induction false} PrunedAt(f: Flat, t: Path, names: seq<string>, p: Path)
    ensures p in Pruned(f, t, names) <==> p in f && forall k :: 0 <= k < |names| ==> !(t + [names[k]] <= p)
    ensures p in Pruned(f, t, names) ==> Pruned(f, t, names)[p] == f[p]
    decreases |names|
  {
    if names != [] {
      var init := names[..|names| - 1];
      PrunedAt(f, t, init, p);
      assert forall k :: 0 <= k < |names| ==> names[k] == if k < |init| then init[k] else names[|names| - 1];
      assert forall k :: 0 <= k < |init| ==> init[k] == names[k];
    }
  }

  /** Pruning one name leaves the siblings as they are. */
  lemma PrunedSibling(f: Flat, t: Path, names: seq<string>, k: nat)
    requires k < |names| && (forall i, j :: 0 <= i < j < |names| ==> names[i] != names[j])
    requires t + [names[k]] in f && t in f
    ensures t + [names[k]] in Pruned(f, t, names[..k]) && t in Pruned(f, t, names[..k])
    ensures Pruned(f, t, names[..k + 1]) == Without(Pruned(f, t, names[..k]), t + [names[k]])
  {
    var c := t + [names[k]];
    PrunedAt(f, t, names[..k], c);
    PrunedAt(f, t, names[..k], t);
    forall i | 0 <= i < k
      ensures !(t + [names[..k][i]] <= c) && !(t + [names[..k][i]] <= t)
    {
      assert names[i] != names[k];
      assert c[|t|] == names[k];
    }
    assert names[..k + 1][..k] == names[..k];
  }

  /** With every child gone the directory is empty, and taking it away takes away its whole subtree. */
  lemma PrunedAll(f: Flat, t: Path, names: seq<string>)
    requires t in f && forall name :: name in names <==> t + [name] in f
    requires forall p, q :: p in f && q <= p ==> q in f
    ensures !HasChild(Pruned(f, t, names), t)
    ensures t in Pruned(f, t, names) && Pruned(f, t, names)[t] == f[t]
    ensures Pruned(f, t, names) - {t} == Without(f, t)
  {
    var g := Pruned(f, t, names);
    PrunedAt(f, t, names, t);
    forall name
      ensures t + [name] !in g
    {
      PrunedAt(f, t, names, t + [name]);
      if t + [name] in f {
        var k :| 0 <= k < |names| && names[k] == name;
      }
    }
    forall p
      ensures p in g - {t} <==> p in Without(f, t)
      ensures p in g ==> g[p] == f[p]
    {
      PrunedAt(f, t, names, p);
      if p in f && t <= p && p != t {
        var q := p[..|t| + 1];
        assert q == t + [p[|t|]] && q <= p && q in f;
        var k :| 0 <= k < |names| && names[k] == p[|t|];
        assert t + [names[k]] <= p;
      }
      if p in f && !(t <= p) {
        forall k | 0 <= k < |names|
          ensures !(t + [names[k]] <= p)
        {
          assert t + [names[k]] <= p ==> t <= p;
        }
      }
    }
  }

  /** Strictly below `t` there are fewer paths than at and below it. */
  lemma FewerUnder(f: Flat, g: Flat, t: Path, c: string)
    requires t in f && g.Keys <= f.Keys
    ensures |AtOrUnder(g, t + [c])| < |AtOrUnder(f, t)|
  {
    assert t in AtOrUnder(f, t);
    assert t !in AtOrUnder(g, t + [c]);
    assert AtOrUnder(g, t + [c]) <= AtOrUnder(f, t) - {t};
    Smaller(AtOrUnder(g, t + [c]), AtOrUnder(f, t) - {t});
  }

  lemma Smaller(a: set<Path>, b: set<Path>)
    requires a <= b
    ensures |a| <= |b|
  {
    assert b == a + (b - a);
  }

  function AtOrUnder(f: Flat, t: Path): set<Path> {
    set p | p in f && t <= p
  }

  /** The path string of a child names the child. */
  lemma ChildString(t: Path, name: string, cwd: string)
    requires Paths.AllPlain(t) && Paths.Plain(name)
    ensures var p := ("/" + Paths.Join(t)) + "/" + name;
            Paths.Absolute(p) && Paths.Segments(p) == t + [name] && Paths.Resolved(p, cwd) == t + [name]
  {
    var base := "/" + Paths.Join(t);
    var p := base + "/" + name;
    assert p[0] == '/';
    Paths.SegmentsOfJoin(t);
    Paths.SegmentsAtSlash(base, name);
    Paths.SplitPart(name);
    assert Paths.NonEmpty([name]) == [name] + Paths.NonEmpty([]);
    assert Paths.Parts(name) == [name];
    Paths.WalkPlain(t, [name]);
  }

  /** The flat map is closed under ancestors, and below a resolved path all names are plain. */
  lemma FlatFacts(inodes: Inodes, next: Ino, ns: Namespace, fds: Fds, nextFd: nat, t: Path)
    requires TableOk(inodes, next, ns, fds, nextFd) && t != []
    ensures forall p, q :: p in FlatOf(inodes, ns) && q <= p ==> q in FlatOf(inodes, ns)
    ensures forall name :: t + [name] in FlatOf(inodes, ns) ==> Paths.Plain(name)
    ensures forall p :: p in FlatOf(inodes, ns) && t < p ==> IsDir(FlatOf(inodes, ns), t)
    ensures t in FlatOf(inodes, ns) ==> IsDir(FlatOf(inodes, ns), Par(t))
  {
    hide FlatOf;
    var f := FlatOf(inodes, ns);
    FlatDirs(inodes, ns, t);
    FlatDirs(inodes, ns, Par(t));
    if t in f {
      DirAbove(inodes, next, ns, fds, nextFd, t);
    }
    forall p, q | p in f && q <= p
      ensures q in f
    {
      FlatClosed(inodes, ns, p, q);
    }
    forall name | t + [name] in f
      ensures Paths.Plain(name)
    {
      FlatDirs(inodes, ns, t + [name]);
      assert NameOk(t + [name]);
      assert (t + [name])[1..][|t| - 1] == name;
    }
    forall p | p in f && t < p
      ensures IsDir(f, t)
    {
      var q := p[..|t| + 1];
      assert q == t + [p[|t|]];
      FlatClosed(inodes, ns, p, q);
      FlatDirs(inodes, ns, q);
      DirAbove(inodes, next, ns, fds, nextFd, q);
      FlatDirs(inodes, ns, t);
      assert Par(q) == t;
    }
  }

  /** It succeeds exactly if something is there or `force` is set, and nothing is below it or `recursive` is set. */
  ghost predicate RmOutcome(f: Flat, t: Path, recursive: bool, force: bool, r: Outcome) {
    && (r == Done <==> (t in f || force) && (recursive || !exists p :: p in f && t < p))
    && (r == Fail(ENOENT) <==> t !in f && !force)
    && (r == Fail(ENOTEMPTY) <==> t in f && !recursive && exists p :: p in f && t < p)
  }

  /**
   * Removing a path other than the root. A recursive removal takes away
   * exactly the subtree; without `recursive` a directory must be empty.
   */
  method RmSync(fs: Memfs, path: string, cwd: string, recursive: bool, force: bool) returns (r: Outcome)
    requires fs.Valid() && Paths.Resolved(path, cwd) != []
    modifies fs
    ensures fs.Valid()
    ensures RmOutcome(old(fs.View()), Paths.Resolved(path, cwd), recursive, force, r)
    ensures fs.View() == if r == Done then Without(old(fs.View()), Paths.Resolved(path, cwd)) else old(fs.View())
    ensures fs.Logged()
    decreases |AtOrUnder(fs.View(), Paths.Resolved(path, cwd))|, 1
  {
    hide TableOk, HashOk, JournalState, FlatOf;
    var resolved := Paths.ResolvePath(path, cwd);
    ghost var t := Paths.Resolved(path, cwd);
    ResolvedPlain(path, cwd);
    Paths.SegmentsOfJoin(t);
    ghost var f := fs.View();
    FlatFacts(fs.inodes, fs.inoCounter, fs.ns, fs.fds, fs.nextFd, t);
    var isDirectory;
    r, isDirectory := fs.Stat(resolved);
    if r != Done {
      NothingThere(f, t);
      return if force then Done else r;
    }
    if !isDirectory {
      NothingUnder(f, t);
      r := fs.Unlink(resolved);
    } else if recursive {
      r := ClearDir(fs, resolved, cwd, t, force);
    } else {
      EmptyDir(f, t);
      r := fs.Rmdir(resolved);
    }
  }

  /** The recursive branch: every entry, then the directory itself. */
  method ClearDir(fs: Memfs, resolved: string, cwd: string, ghost t: Path, force: bool) returns (r: Outcome)
    requires fs.Valid() && t != [] && Paths.AllPlain(t) && resolved == "/" + Paths.Join(t)
    requires IsDir(fs.View(), t)
    modifies fs
    ensures fs.Valid() && r == Done && fs.View() == Without(old(fs.View()), t)
    ensures fs.Logged()
    decreases |AtOrUnder(fs.View(), t)|, 0
  {
    hide TableOk, HashOk, JournalState, FlatOf, Pruned;
    ghost var f := fs.View();
    FlatFacts(fs.inodes, fs.inoCounter, fs.ns, fs.fds, fs.nextFd, t);
    Paths.SegmentsOfJoin(t);
    var names;
    r, names := fs.Readdir(resolved);
    PrunedNone(f, t, names);
    for k := 0 to |names|
      invariant fs.Valid() && fs.View() == Pruned(f, t, names[..k])
      invariant fs.Logged()
    {
      ChildString(t, names[k], cwd);
      PrunedSibling(f, t, names, k);
      PrunedShrinks(f, t, names[..k]);
      FewerUnder(f, fs.View(), t, names[k]);
      r := RmSync(fs, resolved + "/" + names[k], cwd, true, force);
    }
    assert names[..|names|] == names;
    PrunedAll(f, t, names);
    r := fs.Rmdir(resolved);
  }

  lemma NothingThere(f: Flat, t: Path)
    requires t !in f && forall p, q :: p in f && q <= p ==> q in f
    ensures Without(f, t) == f
  {
    assert forall p :: p in f ==> !(t <= p);
  }

  lemma NothingUnder(f: Flat, t: Path)
    requires t in f && f[t] != DirEntry && forall p :: p in f && t < p ==> IsDir(f, t)
    ensures f - {t} == Without(f, t) && !exists p :: p in f && t < p
  {
    assert forall p :: p in f && t <= p ==> p == t;
  }

  lemma EmptyDir(f: Flat, t: Path)
    requires t in f && forall p, q :: p in f && q <= p ==> q in f
    ensures HasChild(f, t) <==> exists p :: p in f && t < p
    ensures !HasChild(f, t) ==> f - {t} == Without(f, t)
  {
    if p :| p in f && t < p {
      var q := p[..|t| + 1];
      assert q <= p && q == t + [p[|t|]];
    } else {
      assert forall p :: p in f && t <= p ==> p == t;
    }
    if name :| t + [name] in f {
      assert t < t + [name];
    }
  }

  lemma PrunedNone(f: Flat, t: Path, names: seq<string>)
    ensures Pruned(f, t, names[..0]) == f
  {
  }

  lemma PrunedShrinks(f: Flat, t: Path, names: seq<string>)
    ensures Pruned(f, t, names).Keys <= f.Keys
  {
    forall p | p in Pruned(f, t, names)
      ensures p in f
    {
      PrunedAt(f, t, names, p);
    }
  }

  lemma ResolvedPlain(p: string, cwd: string)
    ensures Paths.AllPlain(Paths.Resolved(p, cwd))
  {
    Paths.SegmentsPlain(p);
    Paths.SegmentsPlain(cwd);
    Paths.PartsAreParts(p);
    Paths.WalkIsPlain(Paths.Segments(cwd), Paths.Parts(p));
  }
}
