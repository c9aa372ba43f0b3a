/**
 * The in-memory file system object. `inodes` is the heap of inode objects by
 * inode number, so that an unlinked or renamed inode lives on for the
 * descriptors that hold it.
 */
module MemfsObject {
  import opened Words
  import opened MemfsTree
  import opened MemfsSpec
  import opened MemfsOps
  import Paths
  import MemfsDescriptors

  class Memfs {
    /** The content hash; nothing depends on which function it is. */
    const hash: seq<byte> -> uint32

    var inodes: Inodes
    var inoCounter: Ino
    var fds: Fds
    var nextFd: nat
    var lastSeq: nat
    var journal: seq<Record>
    var journalStart: nat
    var txid: nat
    var activeTx: nat

    ghost var ns: Namespace
    ghost var history: seq<Record>
    ghost var nsAt: seq<Namespace>

    ghost predicate JournalValid()
      reads this
    {
      JournalState(lastSeq, journal, journalStart, history, nsAt, ns, inoCounter)
    }

    ghost predicate Valid()
      reads this
    {
      TableOk(inodes, inoCounter, ns, fds, nextFd) && HashOk(hash, inodes, fds) && JournalValid()
    }

    ghost function View(): Flat
      reads this
      requires Valid()
    {
      FlatOf(inodes, ns)
    }

    /** What has been recorded stays recorded. */
    twostate predicate Logged()
      reads this
    {
      old(history) <= history && old(nsAt) <= nsAt
    }

    /** One operation, one record; a failed operation leaves no trace. */
    twostate predicate Recorded(r: Outcome, op: Op)
      reads this
    {
      && Logged()
      && history == old(history) + (if r == Done then [Record(old(lastSeq) + 1, op, old(activeTx))] else [])
    }

    constructor (h: seq<byte> -> uint32)
      ensures Valid() && hash == h
      ensures View() == map[[] := DirEntry] && history == [] && journalStart == 0 && fds == map[]
    {
      hash := h;
      inodes := map[ROOT := Dir(map[], 1)];
      inoCounter := 1;
      fds, nextFd := map[], 3;
      lastSeq, journal, journalStart := 0, [], 0;
      txid, activeTx := 0, 0;
      ns, history, nsAt := map[[] := ROOT], [], [map[[] := ROOT]];
    }

    // ---------- the journal ----------

    /** Append a record; past the cap only the newest three quarters of it stay. */
    method Emit(op: Op, ghost next: Namespace)
      requires JournalValid() && next == Apply(ns, op)
      requires Creates(op) ==> op.ino < inoCounter && BirthsOk(history, op.ino)
      modifies this`lastSeq, this`journal, this`journalStart, this`ns, this`history, this`nsAt
      ensures JournalValid() && ns == next && Recorded(Done, op)
      ensures journalStart == if |old(journal)| < 10000 then old(journalStart) else lastSeq - 7500
    {
      hide JournalState, BirthsOk, Apply;
      ghost var r0 := Record(lastSeq + 1, op, activeTx);
      EmitKeeps(lastSeq, journal, journalStart, history, nsAt, ns, inoCounter, r0);
      lastSeq := lastSeq + 1;
      var r := Record(lastSeq, op, activeTx);
      journal := journal + [r];
      history := history + [r];
      nsAt := nsAt + [next];
      ns := next;
      if |journal| > MAX_JOURNAL {
        var cut := |journal| - KEPT_JOURNAL;
        journalStart := journal[cut - 1].seqNo;
        journal := journal[cut..];
      }
    }

    /**
     * The retained records after `since`. For a consumer that has seen at
     * least one record, `gap` says exactly whether some record it has not
     * seen is gone; without a gap the records bring it up to date. A consumer
     * that asks from 0 is never told of a gap; it is brought up to date exactly
     * if the records it gets account for every inode, and so if nothing was
     * dropped.
     */
    method GetJournalSince(since: nat) returns (gap: bool, entries: seq<Record>)
      requires Valid()
      ensures gap <==> since > 0 && exists k :: 0 <= k < journalStart && history[k].seqNo > since
      ensures since <= lastSeq ==> entries == history[if since < journalStart then journalStart else since..]
      ensures !gap && 0 < since <= lastSeq ==> Replay(nsAt[since], entries) == ns
      ensures since > lastSeq ==> entries == []
      ensures since == 0 ==> (Replay(nsAt[0], entries) == ns <==> Accounted(ns, entries))
      ensures since == 0 && journalStart == 0 ==> Replay(nsAt[0], entries) == ns
    {
      if since > 0 && since < journalStart {
        assert history[journalStart - 1].seqNo > since;
        return true, journal;
      }
      var idx := 0;
      while idx < |journal| && journal[idx].seqNo <= since
        invariant 0 <= idx <= |journal|
        invariant idx > 0 ==> journalStart + idx <= since
      {
        idx := idx + 1;
      }
      gap, entries := false, journal[idx..];
      if since <= lastSeq {
        assert entries == history[if since < journalStart then journalStart else since..];
        if since > 0 || journalStart == 0 {
          ReplaySince(lastSeq, journal, journalStart, history, nsAt, since);
        }
        if since == 0 {
          hide Replay, Accounted, BirthsOk;
          FromNothing(lastSeq, journal, journalStart, history, nsAt, inoCounter);
          assert entries == journal;
        }
      }
    }

    method BeginTx() returns (id: nat)
      requires Valid()
      modifies this`txid, this`activeTx
      ensures Valid() && View() == old(View()) && id == activeTx == old(txid) + 1
    {
      hide TableOk, HashOk, JournalState, FlatOf;
      txid := txid + 1;
      activeTx := txid;
      id := activeTx;
    }

    method CommitTx()
      requires Valid()
      modifies this`activeTx, this`lastSeq, this`journal, this`journalStart, this`ns, this`history, this`nsAt
      ensures Valid() && View() == old(View()) && activeTx == 0
      ensures if old(activeTx) == 0 then history == old(history) else Recorded(Done, CommitOp)
    {
      hide TableOk, HashOk, JournalState, FlatOf;
      if activeTx != 0 {
        Emit(CommitOp, ns);
        activeTx := 0;
      }
    }

    // ---------- looking up ----------

    method ResolveSegments(p: Path) returns (i: Option<Ino>)
      requires TreeAt(inodes, ns, ROOT)
      ensures i == if p in ns then Some(ns[p]) else None
    {
      LookupIsNamespace(inodes, ns, ROOT, [], p);
      assert [] + p == p && p[0..] == p;
      var current := ROOT;
      for k := 0 to |p|
        invariant current in inodes
        invariant Lookup(inodes, current, p[k..]) == Lookup(inodes, ROOT, p)
        invariant exists q :: q in ns && ns[q] == current
      {
        ghost var q :| q in ns && ns[q] == current;
        KidAt(inodes, ns, ROOT, q, p[k]);
        assert p[k..][1..] == p[k + 1..];
        if inodes[current].File? || p[k] !in inodes[current].children {
          return None;
        }
        current := inodes[current].children[p[k]];
      }
      i := Some(current);
    }

    /** The normalized segments of a path string. */
    method SegmentsOf(p: string) returns (norm: Path)
      ensures norm == Paths.Segments(p) && NameOk(norm) && NameOk(Target(norm))
    {
      norm := Paths.WalkParts(Paths.Parts(p));
      Paths.SegmentsPlain(p);
    }

    method Exists(p: string) returns (found: bool)
      requires Valid()
      ensures found <==> Paths.Segments(p) in View()
    {
      var norm := SegmentsOf(p);
      var i := ResolveSegments(norm);
      found := i.Some?;
    }

    method ReadFile(p: string) returns (r: Outcome, content: seq<byte>)
      requires Valid()
      ensures var norm := Paths.Segments(p);
              r == if norm !in View() then Fail(ENOENT) else if IsDir(View(), norm) then Fail(EISDIR) else Done
      ensures r == Done ==> View()[Paths.Segments(p)] == FileEntry(content)
    {
      var norm := SegmentsOf(p);
      var i := ResolveSegments(norm);
      if i.None? {
        return Fail(ENOENT), [];
      }
      if inodes[i.value].Dir? {
        return Fail(EISDIR), [];
      }
      return Done, inodes[i.value].content;
    }

    method Stat(p: string) returns (r: Outcome, isDirectory: bool)
      requires Valid()
      ensures r == if Paths.Segments(p) in View() then Done else Fail(ENOENT)
      ensures r == Done ==> (isDirectory <==> IsDir(View(), Paths.Segments(p)))
    {
      var norm := SegmentsOf(p);
      var i := ResolveSegments(norm);
      if i.None? {
        return Fail(ENOENT), false;
      }
      return Done, inodes[i.value].Dir?;
    }

    /** The names in a directory, each once. */
    method Readdir(p: string) returns (r: Outcome, names: seq<string>)
      requires Valid()
      ensures var norm := Paths.Segments(p);
              && r == (if norm !in View() then Fail(ENOENT) else if !IsDir(View(), norm) then Fail(ENOTDIR) else Done)
              && (r == Done ==>
                    && (forall i, j :: 0 <= i < j < |names| ==> names[i] != names[j])
                    && (forall name :: name in names <==> norm + [name] in View()))
    {
      hide TableOk, HashOk, JournalState, FlatOf;
      names := [];
      var norm := SegmentsOf(p);
      TableTree(inodes, inoCounter, ns, fds, nextFd);
      var i := ResolveSegments(norm);
      TableEntry(inodes, inoCounter, ns, fds, nextFd, norm);
      if i.None? {
        return Fail(ENOENT), names;
      }
      if inodes[i.value].File? {
        return Fail(ENOTDIR), names;
      }
      names := KeyList(inodes[i.value].children);
      forall name
        ensures name in names <==> norm + [name] in View()
      {
        ChildOf(inodes, inoCounter, ns, fds, nextFd, norm, name);
      }
      r := Done;
    }

    // ---------- creating ----------

    /** The lookup of the parent directory that every mutation starts with. */
    method ParentDir(t: Path) returns (parent: Option<Ino>)
      requires Valid() && t != []
      ensures parent.Some? <==> IsDir(View(), Par(t))
      ensures parent.Some? ==> DirAt(inodes, ns, Par(t)) && parent.value == ns[Par(t)]
      ensures parent.Some? ==> (Last(t) in inodes[parent.value].children <==> t in ns)
      ensures parent.Some? && t in ns ==> inodes[parent.value].children[Last(t)] == ns[t]
    {
      var i := ResolveSegments(Par(t));
      FlatDirs(inodes, ns, Par(t));
      if i.None? || inodes[i.value].File? {
        return None;
      }
      PathSplit(t);
      KidAt(inodes, ns, ROOT, Par(t), Last(t));
      parent := i;
    }

    /** A new inode under a free name. */
    method CreateChild(norm: Path, parent: Ino, node: Inode)
      requires Valid()
      requires Target(norm) !in ns && DirAt(inodes, ns, Par(Target(norm))) && NameOk(Target(norm))
      requires parent == ns[Par(Target(norm))]
      requires node.Dir? ==> node.children == map[]
      requires node.version == 1 && (node.File? ==> node.contentHash == hash(node.content))
      modifies this`inodes, this`inoCounter, this`lastSeq, this`journal, this`journalStart, this`ns, this`history, this`nsAt
      ensures Valid()
      ensures View() == old(View())[Target(norm) := EntryOf(node)]
      ensures ns == old(ns)[Target(norm) := old(inoCounter)] && Bumps(old(inodes), inodes, old(inoCounter))
      ensures Recorded(Done, if node.Dir? then MkdirOp(norm, old(inoCounter)) else CreateOp(norm, old(inoCounter)))
    {
      hide TableOk, HashOk, JournalState, FlatOf, Kids, Bumps;
      var t := Target(norm);
      var i := inoCounter;
      TableTree(inodes, i, ns, fds, nextFd);
      NewInode(inodes, i, ns, fds, nextFd, node, parent, Last(t));
      CreateKeeps(hash, inodes, i, ns, fds, nextFd, t, node);
      inoCounter := inoCounter + 1;
      LaterNext(lastSeq, journal, journalStart, history, nsAt, ns, i);
      inodes := inodes[i := node];
      inodes := SetChild(inodes, parent, Last(t), i);
      Emit(if node.Dir? then MkdirOp(norm, i) else CreateOp(norm, i), ns[t := i]);
    }

    /** Non-recursive `mkdir`. */
    method Mkdir(p: string) returns (r: Outcome)
      requires Valid()
      modifies this`inodes, this`inoCounter, this`lastSeq, this`journal, this`journalStart, this`ns, this`history, this`nsAt
      ensures Valid()
      ensures MkdirEffect(old(View()), r, View(), Target(Paths.Segments(p)))
      ensures (r, View()) == MkdirSpec(old(View()), Target(Paths.Segments(p)))
      ensures Recorded(r, MkdirOp(Paths.Segments(p), old(inoCounter)))
      ensures r == Done ==> Bumps(old(inodes), inodes, old(inoCounter))
    {
      hide TableOk, HashOk, JournalState, FlatOf, NameOk, MkdirEffect, Bumps;
      MkdirIs(View(), Target(Paths.Segments(p)));
      var norm := SegmentsOf(p);
      var t := Target(norm);
      var parent := ParentDir(t);
      if parent.None? {
        return Fail(ENOENT);
      }
      TableEntry(inodes, inoCounter, ns, fds, nextFd, t);
      if Last(t) in inodes[parent.value].children {
        return Fail(EEXIST);
      }
      CreateChild(norm, parent.value, Dir(map[], 1));
      r := Done;
    }

    /** One step of a recursive `mkdir`: the next directory down, made if missing. */
    method EnterDir(norm: Path, k: nat, current: Ino) returns (child: Option<Ino>)
      requires Valid() && NameOk(norm) && k < |norm|
      requires DirAt(inodes, ns, norm[..k]) && ns[norm[..k]] == current
      modifies this`inodes, this`inoCounter, this`lastSeq, this`journal, this`journalStart, this`ns, this`history, this`nsAt
      ensures Valid()
      ensures Logged()
      ensures child.None? <==> norm[..k + 1] in old(View()) && old(View())[norm[..k + 1]] != DirEntry
      ensures child.None? ==> View() == old(View())
      ensures DirsRecorded(old(View()), View(), old(history), history)
      ensures child.Some? ==>
                && View() == old(View())[norm[..k + 1] := DirEntry]
                && DirAt(inodes, ns, norm[..k + 1]) && ns[norm[..k + 1]] == child.value
    {
      hide TableOk, HashOk, JournalState, FlatOf, NameOk, Apply, DirsRecorded, Bumps;
      NoneRecorded(View(), history);
      var next := norm[..k + 1];
      assert next == norm[..k] + [norm[k]] && Par(next) == norm[..k] && Last(next) == norm[k];
      ChildOf(inodes, inoCounter, ns, fds, nextFd, norm[..k], norm[k]);
      if norm[k] !in inodes[current].children {
        NameOkPrefix(norm, k + 1);
        TableEntry(inodes, inoCounter, ns, fds, nextFd, norm[..k]);
        DirRecorded(View(), history, next, Record(lastSeq + 1, MkdirOp(next, inoCounter), activeTx));
        CreateChild(next, current, Dir(map[], 1));
        TableEntry(inodes, inoCounter, ns, fds, nextFd, norm[..k]);
        ChildOf(inodes, inoCounter, ns, fds, nextFd, norm[..k], norm[k]);
      }
      var i := inodes[current].children[norm[k]];
      if inodes[i].File? {
        return None;
      }
      child := Some(i);
    }

    /**
     * Recursive `mkdir`: every missing directory on the way, or nothing at
     * all when a file stands on it.
     */
    method MkdirAll(p: string) returns (r: Outcome)
      requires Valid()
      modifies this`inodes, this`inoCounter, this`lastSeq, this`journal, this`journalStart, this`ns, this`history, this`nsAt
      ensures Valid()
      ensures MkdirAllEffect(old(View()), r, View(), Paths.Segments(p))
      ensures DirsRecorded(old(View()), View(), old(history), history)
      ensures (r, View()) == MkdirAllSpec(old(View()), Paths.Segments(p))
      ensures Logged()
    {
      hide TableOk, HashOk, JournalState, FlatOf, Prefixes, NameOk, MkdirAllEffect, DirsRecorded, OnTheWay;
      var norm := SegmentsOf(p);
      var current := ROOT;
      ghost var f0 := View();
      MkdirAllIs(f0, norm);
      RootThere(inodes, inoCounter, ns, fds, nextFd);
      NothingMade(f0, norm, history);
      assert norm[..0] == [];
      for k := 0 to |norm|
        invariant Valid() && DirAt(inodes, ns, norm[..k]) && ns[norm[..k]] == current
        invariant View() == f0 + Prefixes(norm, k) && OnTheWay(f0, norm, k)
        invariant Logged() && DirsRecorded(f0, View(), old(history), history)
      {
        PrefixesStep(f0, norm, k);
        ghost var f, was := View(), history;
        var child := EnterDir(norm, k, current);
        DirsTrans(f0, f, View(), old(history), was, history);
        if child.None? {
          WasBlocked(old(inodes), old(inoCounter), old(ns), old(fds), old(nextFd), norm, k);
          return Fail(ENOTDIR);
        }
        FurtherOn(f0, norm, k);
        current := child.value;
      }
      WayClear(f0, norm);
      r := Done;
    }

    // ---------- writing, removing, renaming ----------

    method WriteFile(p: string, data: seq<byte>) returns (r: Outcome)
      requires Valid()
      modifies this`inodes, this`inoCounter, this`lastSeq, this`journal, this`journalStart, this`ns, this`history, this`nsAt
      ensures Valid()
      ensures WriteFileEffect(old(View()), r, View(), Target(Paths.Segments(p)), data)
      ensures (r, View()) == WriteFileSpec(old(View()), Target(Paths.Segments(p)), data)
      ensures var norm := Paths.Segments(p);
              Recorded(r, if Target(norm) in old(ns) then WriteOp(norm, old(ns)[Target(norm)]) else CreateOp(norm, old(inoCounter)))
      ensures var t := Target(Paths.Segments(p));
              r == Done ==> Bumps(old(inodes), inodes, if t in old(ns) then old(ns)[t] else old(inoCounter))
    {
      hide TableOk, HashOk, JournalState, FlatOf, NameOk, WriteFileEffect;
      WriteFileIs(View(), Target(Paths.Segments(p)), data);
      var norm := SegmentsOf(p);
      var t := Target(norm);
      var parent := ParentDir(t);
      if parent.None? {
        return Fail(ENOENT);
      }
      TableEntry(inodes, inoCounter, ns, fds, nextFd, t);
      var h := hash(data);
      if Last(t) in inodes[parent.value].children {
        var i := inodes[parent.value].children[Last(t)];
        if inodes[i].Dir? {
          return Fail(EISDIR);
        }
        WriteKeeps(hash, inodes, inoCounter, ns, fds, nextFd, t, File(data, inodes[i].version + 1, h));
        inodes := inodes[i := File(data, inodes[i].version + 1, h)];
        assert Bumps(old(inodes), inodes, i);
        Emit(WriteOp(norm, i), ns);
      } else {
        CreateChild(norm, parent.value, File(data, 1, h));
      }
      r := Done;
    }

    /** The table update and the record of a removal. */
    method RemoveChild(norm: Path, parent: Ino, op: Op)
      requires Valid()
      requires Target(norm) in ns && DirAt(inodes, ns, Par(Target(norm))) && parent == ns[Par(Target(norm))]
      requires Kids(inodes, ns[Target(norm)]) == map[]
      requires op == UnlinkOp(norm, ns[Target(norm)]) || op == RmdirOp(norm, ns[Target(norm)])
      modifies this`inodes, this`lastSeq, this`journal, this`journalStart, this`ns, this`history, this`nsAt
      ensures Valid() && View() == old(View()) - {Target(norm)} && ns == old(ns) - {Target(norm)}
      ensures Recorded(Done, op)
    {
      hide TableOk, HashOk, JournalState, FlatOf, NameOk, Kids;
      var t := Target(norm);
      DropKeeps(hash, inodes, inoCounter, ns, fds, nextFd, t);
      inodes := DropChild(inodes, parent, Last(t));
      Emit(op, ns - {t});
    }

    method Unlink(p: string) returns (r: Outcome)
      requires Valid()
      modifies this`inodes, this`lastSeq, this`journal, this`journalStart, this`ns, this`history, this`nsAt
      ensures Valid()
      ensures UnlinkEffect(old(View()), r, View(), Target(Paths.Segments(p)))
      ensures (r, View()) == UnlinkSpec(old(View()), Target(Paths.Segments(p)))
      ensures var norm := Paths.Segments(p);
              Recorded(r, UnlinkOp(norm, if Target(norm) in old(ns) then old(ns)[Target(norm)] else ROOT))
    {
      hide TableOk, HashOk, JournalState, FlatOf, NameOk, UnlinkEffect;
      InDirectory(inodes, inoCounter, ns, fds, nextFd, Target(Paths.Segments(p)));
      UnlinkIs(View(), Target(Paths.Segments(p)));
      var norm := SegmentsOf(p);
      var t := Target(norm);
      var parent := ParentDir(t);
      TableEntry(inodes, inoCounter, ns, fds, nextFd, t);
      if parent.None? || Last(t) !in inodes[parent.value].children {
        return Fail(ENOENT);
      }
      var i := inodes[parent.value].children[Last(t)];
      if inodes[i].Dir? {
        return Fail(EISDIR);
      }
      RemoveChild(norm, parent.value, UnlinkOp(norm, i));
      r := Done;
    }

    method Rmdir(p: string) returns (r: Outcome)
      requires Valid()
      modifies this`inodes, this`lastSeq, this`journal, this`journalStart, this`ns, this`history, this`nsAt
      ensures Valid()
      ensures RmdirEffect(old(View()), r, View(), Paths.Segments(p))
      ensures (r, View()) == RmdirSpec(old(View()), Paths.Segments(p))
      ensures var norm := Paths.Segments(p);
              Recorded(r, RmdirOp(norm, if norm in old(ns) then old(ns)[norm] else ROOT))
    {
      hide TableOk, HashOk, JournalState, FlatOf, NameOk, RmdirEffect;
      RmdirIs(View(), Paths.Segments(p));
      var norm := SegmentsOf(p);
      if norm == [] {
        return Fail(EPERM);
      }
      TableTree(inodes, inoCounter, ns, fds, nextFd);
      var found := ResolveSegments(norm);
      TableEntry(inodes, inoCounter, ns, fds, nextFd, norm);
      if found.None? {
        return Fail(ENOENT);
      }
      if inodes[found.value].File? {
        return Fail(ENOTDIR);
      }
      FlatChildren(inodes, ns, norm);
      if inodes[found.value].children != map[] {
        return Fail(ENOTEMPTY);
      }
      var parent := ResolveSegments(Par(norm));
      DirAbove(inodes, inoCounter, ns, fds, nextFd, norm);
      RemoveChild(norm, parent.value, RmdirOp(norm, found.value));
      r := Done;
    }

    /** The directory a rename takes its entry from. A file in its place has no children to ask for. */
    method RenameSource(from: Path) returns (r: Outcome, parent: Ino)
      requires Valid() && from != []
      ensures var f := View();
              r == if Par(from) !in f then Fail(ENOENT)
                   else if !IsDir(f, Par(from)) then Fail(NullChildren)
                   else if from !in f then Fail(ENOENT) else Done
      ensures r == Done ==>
                && from in ns && DirAt(inodes, ns, Par(from)) && parent == ns[Par(from)]
                && Last(from) in inodes[parent].children && inodes[parent].children[Last(from)] == ns[from]
    {
      hide TableOk, HashOk, JournalState, FlatOf;
      parent := ROOT;
      TableTree(inodes, inoCounter, ns, fds, nextFd);
      var found := ResolveSegments(Par(from));
      TableEntry(inodes, inoCounter, ns, fds, nextFd, Par(from));
      if found.None? {
        return Fail(ENOENT), parent;
      }
      parent := found.value;
      if inodes[parent].File? {
        return Fail(NullChildren), parent;
      }
      PathSplit(from);
      ChildOf(inodes, inoCounter, ns, fds, nextFd, Par(from), Last(from));
      r := if Last(from) in inodes[parent].children then Done else Fail(ENOENT);
    }

    method Rename(oldPath: string, newPath: string) returns (r: Outcome)
      requires Valid()
      modifies this`inodes, this`lastSeq, this`journal, this`journalStart, this`ns, this`history, this`nsAt
      ensures Valid()
      ensures RenameEffect(old(View()), r, View(), Target(Paths.Segments(oldPath)), Target(Paths.Segments(newPath)))
      ensures (r, View()) ==
              RenameSpec(old(View()), Target(Paths.Segments(oldPath)), Target(Paths.Segments(newPath)))
      ensures var from, to := Paths.Segments(oldPath), Paths.Segments(newPath);
              Recorded(r, RenameOp(from, to, if Target(from) in old(ns) then old(ns)[Target(from)] else ROOT))
      ensures var from := Target(Paths.Segments(oldPath));
              r == Done ==> from in old(ns) && Bumps(old(inodes), inodes, old(ns)[from])
    {
      hide TableOk, HashOk, JournalState, FlatOf, NameOk, Moved, RenameEffect, Bumps;
      InDirectory(inodes, inoCounter, ns, fds, nextFd, Target(Paths.Segments(oldPath)));
      RenameIs(View(), Target(Paths.Segments(oldPath)), Target(Paths.Segments(newPath)));
      var normOld := SegmentsOf(oldPath);
      var normNew := SegmentsOf(newPath);
      var from, to := Target(normOld), Target(normNew);
      var found, oldParent := RenameSource(from);
      if found != Done {
        return found;
      }
      var newParent := ParentDir(to);
      if newParent.None? {
        return Fail(ENOENT);
      }
      MoveEntry(normOld, normNew, oldParent, newParent.value);
      r := Done;
    }

    /** The table updates and the record of a rename. */
    method MoveEntry(normOld: Path, normNew: Path, oldParent: Ino, newParent: Ino)
      requires Valid() && NameOk(Target(normNew))
      requires DirAt(inodes, ns, Par(Target(normOld))) && oldParent == ns[Par(Target(normOld))]
      requires DirAt(inodes, ns, Par(Target(normNew))) && newParent == ns[Par(Target(normNew))]
      requires Last(Target(normOld)) in inodes[oldParent].children && Target(normOld) in ns
      requires inodes[oldParent].children[Last(Target(normOld))] == ns[Target(normOld)]
      modifies this`inodes, this`lastSeq, this`journal, this`journalStart, this`ns, this`history, this`nsAt
      ensures Valid() && View() == Moved(old(View()), Target(normOld), Target(normNew))
      ensures Bumps(old(inodes), inodes, old(ns)[Target(normOld)])
      ensures Recorded(Done, RenameOp(normOld, normNew, old(ns)[Target(normOld)]))
    {
      hide TableOk, HashOk, JournalState, FlatOf, NameOk, Moved;
      var from, to := Target(normOld), Target(normNew);
      var i := inodes[oldParent].children[Last(from)];
      MoveKeeps(hash, inodes, inoCounter, ns, fds, nextFd, from, to);
      InTable(inodes, inoCounter, ns, fds, nextFd, from);
      MoveVersions(inodes, oldParent, Last(from), newParent, Last(to), i);
      hide MoveChild, Bumped, Bumps;
      inodes := MoveChild(inodes, oldParent, Last(from), newParent, Last(to));
      inodes := Bumped(inodes, i);
      Emit(RenameOp(normOld, normNew, i), Moved(ns, from, to));
    }

    // ---------- descriptors ----------

    method Open(p: string) returns (r: Outcome, fd: nat)
      requires Valid()
      modifies this`fds, this`nextFd
      ensures Valid() && View() == old(View())
      ensures var norm := Paths.Segments(p);
              r == if norm !in View() then Fail(ENOENT) else if IsDir(View(), norm) then Fail(EISDIR) else Done
      ensures r != Done ==> fds == old(fds)
      ensures r == Done ==>
                && fd == old(nextFd) && fd !in old(fds) && Paths.Segments(p) in ns
                && fds == old(fds)[fd := Fd(ns[Paths.Segments(p)], 0, Paths.Segments(p), false, |View()[Paths.Segments(p)].bytes|)]
    {
      hide TableOk, HashOk, JournalState, FlatOf, NameOk;
      fd := 0;
      var norm := SegmentsOf(p);
      TableTree(inodes, inoCounter, ns, fds, nextFd);
      var i := ResolveSegments(norm);
      TableEntry(inodes, inoCounter, ns, fds, nextFd, norm);
      if i.None? {
        return Fail(ENOENT), fd;
      }
      if inodes[i.value].Dir? {
        return Fail(EISDIR), fd;
      }
      fd := NewFd(Fd(i.value, 0, norm, false, |inodes[i.value].content|));
      r := Done;
    }

    method NewFd(e: Fd) returns (fd: nat)
      requires Valid() && e.ino in inodes && inodes[e.ino].File? && !e.dirty
      modifies this`fds, this`nextFd
      ensures Valid() && View() == old(View())
      ensures fd == old(nextFd) && fd !in old(fds) && fds == old(fds)[fd := e]
    {
      hide TableOk, HashOk, JournalState, FlatOf;
      OpenKeeps(hash, inodes, inoCounter, ns, fds, nextFd, e);
      FdFresh(inodes, inoCounter, ns, fds, nextFd);
      fd := nextFd;
      fds := fds[fd := e];
      nextFd := nextFd + 1;
    }

    /** At most `length` bytes from `position`, or from where the descriptor stands, which then advances. */
    method ReadFd(fd: nat, length: nat, position: Option<nat>) returns (r: Outcome, data: seq<byte>)
      requires Valid()
      modifies this`fds
      ensures Valid() && View() == old(View())
      ensures r == if fd in old(fds) then Done else Fail(EBADF)
      ensures r == Done ==>
                var e := old(fds)[fd];
                var content := FileBytes(inodes, e.ino);
                var pos := if position.Some? then position.value else e.position;
                && data == (if pos >= |content| then [] else if pos + length <= |content| then content[pos..pos + length] else content[pos..])
                && fds == old(fds)[fd := e.(position := if position.Some? then e.position else e.position + |data|)]
      ensures r != Done ==> fds == old(fds)
    {
      hide TableOk, HashOk, JournalState, FlatOf;
      data := [];
      if fd !in fds {
        return Fail(EBADF), data;
      }
      FdFile(inodes, inoCounter, ns, fds, nextFd, fd);
      var e := fds[fd];
      var content := inodes[e.ino].content;
      var pos := if position.Some? then position.value else e.position;
      var available := if length < |content| - pos then length else |content| - pos;
      if available > 0 {
        data := content[pos..pos + available];
      }
      if position.None? {
        e := e.(position := e.position + |data|);
      }
      FdKeeps(hash, inodes, inoCounter, ns, fds, nextFd, fd, e);
      fds := fds[fd := e];
      r := Done;
    }

    /** Make room, if the descriptor's capacity is too small, and copy the bytes in. */
    method PutBytes(old_: seq<byte>, known: nat, pos: nat, data: seq<byte>) returns (r: Option<seq<byte>>, capacity: nat)
      ensures r == MemfsDescriptors.WriteAt(old_, known, pos, data)
      ensures capacity == MemfsDescriptors.Grown(known, pos + |data|)
    {
      var needed := pos + |data|;
      var content := old_;
      capacity := known;
      if needed > capacity {
        capacity := MemfsDescriptors.Grown(capacity, needed);
        if |content| > capacity {
          return None, capacity;
        }
        content := content + Zeros(capacity - |content|);
      }
      if needed > |content| {
        return None, capacity;
      }
      r := Some(MemfsDescriptors.Overwrite(content, pos, data));
    }

    /** A write through a descriptor; the hash is left for `CloseFd`. */
    method WriteFd(fd: nat, data: seq<byte>, position: Option<nat>) returns (r: Outcome)
      requires Valid()
      modifies this`fds, this`inodes, this`lastSeq, this`journal, this`journalStart, this`ns, this`history, this`nsAt
      ensures Valid() && ns == old(ns) && fds.Keys == old(fds).Keys && View().Keys == old(View()).Keys
      ensures r == Fail(EBADF) <==> fd !in old(fds)
      ensures fd in old(fds) ==>
                var e := old(fds)[fd];
                var pos := if position.Some? then position.value else e.position;
                var content := MemfsDescriptors.WriteAt(FileBytes(old(inodes), e.ino), e.capacity, pos, data);
                && r == (if content.Some? then Done else Fail(OutOfRange))
                && (content.Some? ==>
                      && FileBytes(inodes, e.ino) == content.value
                      && fds == old(fds)[fd := Fd(e.ino, if position.Some? then e.position else e.position + |data|, e.path, true,
                                                  MemfsDescriptors.Grown(e.capacity, pos + |data|))]
                      && (forall q :: q in ns && ns[q] != e.ino ==> View()[q] == old(View())[q])
                      && (forall q :: q in ns && ns[q] == e.ino ==> View()[q] == FileEntry(content.value)))
      ensures r != Done ==> View() == old(View()) && fds == old(fds)
      ensures r == Done ==> Bumps(old(inodes), inodes, old(fds)[fd].ino)
      ensures Logged()
    {
      hide TableOk, HashOk, JournalState, FlatOf, MemfsDescriptors.WriteAt, MemfsDescriptors.Grown;
      if fd !in fds {
        return Fail(EBADF);
      }
      FdFile(inodes, inoCounter, ns, fds, nextFd, fd);
      var e := fds[fd];
      var pos := if position.Some? then position.value else e.position;
      var content, capacity := PutBytes(inodes[e.ino].content, e.capacity, pos, data);
      if content.None? {
        return Fail(OutOfRange);
      }
      StoreContent(fd, content.value,
                   Fd(e.ino, if position.Some? then e.position else e.position + |data|, e.path, true, capacity));
      r := Done;
    }

    /** The new content, the dirty descriptor and the record of a write. */
    method StoreContent(fd: nat, content: seq<byte>, e: Fd)
      requires Valid() && fd in fds && e.dirty && e.ino == fds[fd].ino
      modifies this`fds, this`inodes, this`lastSeq, this`journal, this`journalStart, this`ns, this`history, this`nsAt
      ensures Valid() && ns == old(ns) && fds == old(fds)[fd := e]
      ensures FileBytes(inodes, e.ino) == content && Bumps(old(inodes), inodes, e.ino)
      ensures forall q :: q in ns && ns[q] != e.ino ==> q in View() && q in old(View()) && View()[q] == old(View())[q]
      ensures forall q :: q in ns && ns[q] == e.ino ==> q in View() && View()[q] == FileEntry(content)
      ensures View().Keys == old(View()).Keys
      ensures Recorded(Done, WriteOp(e.path, e.ino))
    {
      hide TableOk, HashOk, JournalState, FlatOf;
      FdFile(inodes, inoCounter, ns, fds, nextFd, fd);
      FdKeeps(hash, inodes, inoCounter, ns, fds, nextFd, fd, e);
      fds := fds[fd := e];
      NowDirty(fds, fd);
      var node := inodes[e.ino].(content := content, version := inodes[e.ino].version + 1);
      ContentKeeps(hash, inodes, inoCounter, ns, fds, nextFd, e.ino, node);
      SamePaths(inodes, inoCounter, ns, fds, nextFd);
      inodes := inodes[e.ino := node];
      Emit(WriteOp(e.path, e.ino), ns);
    }

    /** Closing a dirty descriptor brings its inode's content hash up to date. */
    method CloseFd(fd: nat) returns (r: Outcome)
      requires Valid()
      modifies this`fds, this`inodes
      ensures Valid() && View() == old(View())
      ensures r == if fd in old(fds) then Done else Fail(EBADF)
      ensures fds == old(fds) - {fd}
      ensures fd in old(fds) && old(fds)[fd].dirty ==>
                var i := old(fds)[fd].ino;
                i in inodes && inodes[i].File? && inodes[i].contentHash == hash(inodes[i].content)
    {
      hide TableOk, HashOk, JournalState, FlatOf;
      if fd !in fds {
        return Fail(EBADF);
      }
      FdFile(inodes, inoCounter, ns, fds, nextFd, fd);
      var e := fds[fd];
      var node := inodes[e.ino];
      var logicalSize := if e.position < |node.content| then |node.content| else e.position;
      if e.dirty {
        var end := if logicalSize < |node.content| then logicalSize else |node.content|;
        assert node.content[..end] == node.content;
        node := node.(contentHash := hash(node.content[..end]));
        ContentKeeps(hash, inodes, inoCounter, ns, fds, nextFd, e.ino, node);
        SameContent(inodes, inoCounter, ns, fds, nextFd, e.ino, node);
        inodes := inodes[e.ino := node];
      }
      CloseKeeps(hash, inodes, inoCounter, ns, fds, nextFd, fd);
      fds := fds - {fd};
      r := Done;
    }
  }

  /** The keys of a map as a list, in some order. */
  method KeyList(m: map<string, Ino>) returns (keys: seq<string>)
    ensures forall i, j :: 0 <= i < j < |keys| ==> keys[i] != keys[j]
    ensures forall k :: k in keys <==> k in m
  {
    keys := [];
    var rest := m.Keys;
    while rest != {}
      invariant rest <= m.Keys
      invariant forall i, j :: 0 <= i < j < |keys| ==> keys[i] != keys[j]
      invariant forall k :: k in keys <==> k in m.Keys - rest
      decreases rest
    {
      var k :| k in rest;
      assert k !in keys;
      keys := keys + [k];
      rest := rest - {k};
    }
  }

  function FileBytes(inodes: Inodes, i: Ino): seq<byte> {
    if i in inodes && inodes[i].File? then inodes[i].content else []
  }
}
