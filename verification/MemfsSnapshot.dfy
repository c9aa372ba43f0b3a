/** `snapshot`: the walk over the inode tree, and how it starts a consumer of the journal. */
module MemfsSnapshot {
  import opened Words
  import opened MemfsTree
  import opened MemfsSpec
  import opened MemfsOps
  import opened MemfsObject

  datatype FileInfo = FileInfo(ino: Ino, version: nat, contentHash: uint32, size: nat)

  datatype Snapshot = Snapshot(seqNo: nat, startSeq: nat, files: map<Path, FileInfo>, dirs: set<Path>)

  function InfoOf(i: Ino, n: Inode): FileInfo
    requires n.File?
  {
    FileInfo(i, n.version, n.contentHash, |n.content|)
  }

  predicate FileAt(inodes: Inodes, ns: Namespace, p: Path) {
    p in ns && ns[p] in inodes && inodes[ns[p]].File?
  }

  /** The files among some paths with what they hold, and the directories among them. */
  ghost predicate Lists(inodes: Inodes, ns: Namespace, files: map<Path, FileInfo>, dirs: set<Path>, within: set<Path>) {
    && (forall p :: p in files <==> p in within && FileAt(inodes, ns, p))
    && (forall p :: p in files ==> files[p] == InfoOf(ns[p], inodes[ns[p]]))
    && (forall p :: p in dirs <==> p in within && DirAt(inodes, ns, p))
  }

  /** The paths at or under the children of `top` called by these names. */
  ghost function Under(ns: Namespace, top: Path, names: set<string>): set<Path> {
    set p | p in ns && top < p && p[|top|] in names
  }

  ghost function AtOrUnder(ns: Namespace, top: Path): set<Path> {
    set p | p in ns && top <= p
  }

  lemma UnderOne(ns: Namespace, top: Path, names: set<string>, name: string)
    requires top + [name] in ns && name !in names
    ensures Under(ns, top, names + {name}) == Under(ns, top, names) + {top + [name]} + Strictly(ns, top + [name])
  {
    var child := top + [name];
    forall p ensures p in Under(ns, top, {name}) <==> p in AtOrUnder(ns, child) {
      if p in ns && top < p && p[|top|] == name {
        assert child <= p;
      }
    }
  }

  /** The paths strictly under `top`. */
  ghost function Strictly(ns: Namespace, top: Path): set<Path> {
    AtOrUnder(ns, top) - {top}
  }

  lemma Smaller(ns: Namespace, top: Path, name: string)
    requires top in ns
    ensures |AtOrUnder(ns, top + [name])| < |AtOrUnder(ns, top)|
  {
    var a, b := AtOrUnder(ns, top + [name]), AtOrUnder(ns, top);
    assert top in b && top !in a && a <= b - {top};
    assert b - {top} == a + (b - {top} - a);
  }

  /** Every path strictly below a directory goes through one of its children. */
  lemma ChildrenCover(inodes: Inodes, ns: Namespace, top: Path, names: set<string>)
    requires TreeAt(inodes, ns, ROOT) && top in ns && names == Kids(inodes, ns[top]).Keys
    ensures Under(ns, top, names) == Strictly(ns, top)
  {
    hide TreeAt, Kids;
    forall p ensures p in Under(ns, top, names) <==> p in Strictly(ns, top) {
      StrictlyAt(ns, top, p);
      if p in ns && top < p {
        FirstStep(inodes, ns, top, p);
      }
    }
  }

  lemma StrictlyAt(ns: Namespace, top: Path, p: Path)
    ensures p in Strictly(ns, top) <==> p in ns && top < p
  {
    if top <= p && |p| == |top| {
      assert p == top;
    }
  }

  /** The way down from a directory starts with one of its children. */
  lemma FirstStep(inodes: Inodes, ns: Namespace, top: Path, p: Path)
    requires TreeAt(inodes, ns, ROOT) && top in ns && p in ns && top < p
    ensures p[|top|] in Kids(inodes, ns[top])
  {
    hide TreeAt, Kids;
    var child := top + [p[|top|]];
    assert child <= p;
    PrefixInTree(inodes, ns, ROOT, p, child);
    KidAt(inodes, ns, ROOT, top, p[|top|]);
  }

  method Walk(inodes: Inodes, ghost ns: Namespace, node: Ino, path: Path) returns (files: map<Path, FileInfo>, dirs: set<Path>)
    requires TreeAt(inodes, ns, ROOT) && path in ns && ns[path] == node && DirAt(inodes, ns, path)
    ensures Lists(inodes, ns, files, dirs, Strictly(ns, path))
    decreases |AtOrUnder(ns, path)|
  {
    hide TreeAt, Kids, Lists, Under, Strictly, AtOrUnder, InfoOf;
    files, dirs := map[], {};
    var todo := inodes[node].children.Keys;
    ghost var seen: set<string> := {};
    NothingYet(inodes, ns, path);
    while todo != {}
      invariant seen !! todo && seen + todo == inodes[node].children.Keys
      invariant Lists(inodes, ns, files, dirs, Under(ns, path, seen))
      decreases |todo|
    {
      var name :| name in todo;
      var child := inodes[node].children[name];
      ChildOfDir(inodes, ns, path, name);
      if inodes[child].File? {
        FileStep(inodes, ns, path, seen, name, files, dirs);
        files := files[path + [name] := InfoOf(child, inodes[child])];
      } else {
        Smaller(ns, path, name);
        var moreFiles, moreDirs := Walk(inodes, ns, child, path + [name]);
        DirStep(inodes, ns, path, seen, name, files, dirs, moreFiles, moreDirs);
        files := files + moreFiles;
        dirs := dirs + {path + [name]} + moreDirs;
      }
      seen := seen + {name};
      todo := todo - {name};
    }
    assert seen == inodes[node].children.Keys;
    KidsOfDir(inodes, ns, path);
    ChildrenCover(inodes, ns, path, seen);
  }

  lemma ChildOfDir(inodes: Inodes, ns: Namespace, path: Path, name: string)
    requires TreeAt(inodes, ns, ROOT) && DirAt(inodes, ns, path) && name in inodes[ns[path]].children
    ensures var p, child := path + [name], inodes[ns[path]].children[name];
            && child in inodes && p in ns && ns[p] == child
            && (if inodes[child].File? then FileAt(inodes, ns, p) else DirAt(inodes, ns, p))
  {
    hide TreeAt;
    KidAt(inodes, ns, ROOT, path, name);
    InTree(inodes, ns, path + [name]);
  }

  lemma FileStep(inodes: Inodes, ns: Namespace, path: Path, seen: set<string>, name: string,
                 files: map<Path, FileInfo>, dirs: set<Path>)
    requires TreeAt(inodes, ns, ROOT) && FileAt(inodes, ns, path + [name]) && name !in seen
    requires Lists(inodes, ns, files, dirs, Under(ns, path, seen))
    ensures var p := path + [name];
            Lists(inodes, ns, files[p := InfoOf(ns[p], inodes[ns[p]])], dirs, Under(ns, path, seen + {name}))
  {
    hide TreeAt, Lists, Under, Strictly, AtOrUnder, InfoOf;
    UnderOne(ns, path, seen, name);
    AloneBelow(inodes, ns, path + [name]);
    AddFile(inodes, ns, files, dirs, Under(ns, path, seen), path + [name]);
  }

  lemma DirStep(inodes: Inodes, ns: Namespace, path: Path, seen: set<string>, name: string, files: map<Path, FileInfo>,
                dirs: set<Path>, moreFiles: map<Path, FileInfo>, moreDirs: set<Path>)
    requires DirAt(inodes, ns, path + [name]) && name !in seen
    requires Lists(inodes, ns, files, dirs, Under(ns, path, seen))
    requires Lists(inodes, ns, moreFiles, moreDirs, Strictly(ns, path + [name]))
    ensures Lists(inodes, ns, files + moreFiles, dirs + {path + [name]} + moreDirs, Under(ns, path, seen + {name}))
  {
    hide Lists, Under, Strictly, AtOrUnder, InfoOf;
    UnderOne(ns, path, seen, name);
    AddDir(inodes, ns, files, dirs, Under(ns, path, seen), moreFiles, moreDirs, path + [name]);
  }

  lemma NothingYet(inodes: Inodes, ns: Namespace, path: Path)
    ensures Lists(inodes, ns, map[], {}, Under(ns, path, {}))
  {
    assert Under(ns, path, {}) == {};
  }

  lemma KidsOfDir(inodes: Inodes, ns: Namespace, p: Path)
    requires TreeAt(inodes, ns, ROOT) && p in ns && ns[p] in inodes && inodes[ns[p]].Dir?
    ensures Kids(inodes, ns[p]) == inodes[ns[p]].children
  {
  }

  lemma InTree(inodes: Inodes, ns: Namespace, p: Path)
    requires TreeAt(inodes, ns, ROOT) && p in ns
    ensures ns[p] in inodes
  {
  }

  lemma AloneBelow(inodes: Inodes, ns: Namespace, p: Path)
    requires TreeAt(inodes, ns, ROOT) && p in ns && ns[p] in inodes && inodes[ns[p]].File?
    ensures Strictly(ns, p) == {}
  {
    ChildrenCover(inodes, ns, p, {});
  }

  lemma AddFile(inodes: Inodes, ns: Namespace, files: map<Path, FileInfo>, dirs: set<Path>, within: set<Path>, p: Path)
    requires Lists(inodes, ns, files, dirs, within) && FileAt(inodes, ns, p)
    ensures Lists(inodes, ns, files[p := InfoOf(ns[p], inodes[ns[p]])], dirs, within + {p} + {})
  {
  }

  lemma AddDir(inodes: Inodes, ns: Namespace, files: map<Path, FileInfo>, dirs: set<Path>, within: set<Path>,
               moreFiles: map<Path, FileInfo>, moreDirs: set<Path>, p: Path)
    requires DirAt(inodes, ns, p)
    requires Lists(inodes, ns, files, dirs, within) && Lists(inodes, ns, moreFiles, moreDirs, Strictly(ns, p))
    ensures Lists(inodes, ns, files + moreFiles, dirs + {p} + moreDirs, within + {p} + Strictly(ns, p))
  {
  }

  /** The snapshot names every path of the namespace but the root, each file with its inode, and the sequence number it is current at. */
  method TakeSnapshot(fs: Memfs) returns (s: Snapshot)
    requires fs.Valid()
    ensures s.seqNo == fs.lastSeq < |fs.nsAt| && s.startSeq == fs.journalStart
    ensures s.files.Keys + s.dirs + {[]} == fs.nsAt[s.seqNo].Keys
    ensures forall p :: p in s.files ==> s.files[p].ino == fs.nsAt[s.seqNo][p]
    ensures forall p :: p in s.files ==> fs.View()[p].FileEntry? && s.files[p].size == |fs.View()[p].bytes|
    ensures forall p :: p in s.dirs ==> fs.View()[p] == DirEntry
  {
    TableTree(fs.inodes, fs.inoCounter, fs.ns, fs.fds, fs.nextFd);
    RootThere(fs.inodes, fs.inoCounter, fs.ns, fs.fds, fs.nextFd);
    var files, dirs := Walk(fs.inodes, fs.ns, ROOT, []);
    s := Snapshot(fs.lastSeq, fs.journalStart, files, dirs);
    hide TableOk, HashOk;
  }
}
