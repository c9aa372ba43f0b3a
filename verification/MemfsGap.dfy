/** A consumer of the journal that starts from 0 and misses what was dropped. */
module MemfsGap {
  import opened Words
  import opened MemfsTree
  import opened MemfsSpec
  import opened MemfsOps
  import opened MemfsObject
  import Paths

  /** Every record after the first is the end of an empty transaction. */
  predicate OnlyFirst(history: seq<Record>, n: nat) {
    |history| == n && forall k :: 1 <= k < n ==> history[k].op == CommitOp
  }

  lemma OnlyFirstStep(history: seq<Record>, n: nat, r: Record)
    requires OnlyFirst(history, n) && n >= 1 && r.op == CommitOp
    ensures OnlyFirst(history + [r], n + 1)
  {
  }

  /** Without the first record, nothing accounts for a path. */
  lemma NotAccounted(ns: Namespace, history: seq<Record>, n: nat, start: nat, p: Path)
    requires OnlyFirst(history, n) && 1 <= start <= n && p in ns && p != []
    ensures !Accounted(ns, history[start..])
  {
    var entries := history[start..];
    forall k | 0 <= k < |entries| ensures entries[k].op == CommitOp {
      assert entries[k] == history[start + k];
    }
    assert Births(entries) == {};
  }

  method EmptyTransaction(fs: Memfs)
    requires fs.Valid()
    modifies fs
    ensures fs.Valid() && fs.View() == old(fs.View())
    ensures |fs.history| == |old(fs.history)| + 1 && fs.history == old(fs.history) + [fs.history[|old(fs.history)|]]
    ensures fs.history[|old(fs.history)|].op == CommitOp
  {
    hide TableOk, HashOk, JournalState, FlatOf;
    var id := fs.BeginTx();
    fs.CommitTx();
  }

  lemma SlashA()
    ensures Paths.Segments("/a") == ["a"]
  {
    Paths.SegmentsOfJoin(["a"]);
    assert "/" + Paths.Join(["a"]) == "/a";
  }

  lemma FirstDirectory(view: Flat)
    requires view == map[[] := DirEntry]
    ensures var (r, made) := MkdirSpec(view, Target(["a"])); r == Done && ["a"] in made
  {
    assert Par(["a"]) == [];
  }

  /** A new file system with one directory in it. */
  method OneDirectory(h: seq<byte> -> uint32) returns (fs: Memfs)
    ensures fresh(fs) && fs.Valid() && ["a"] in fs.View() && OnlyFirst(fs.history, 1)
  {
    fs := new Memfs(h);
    SlashA();
    FirstDirectory(fs.View());
    hide TableOk, HashOk, JournalState, FlatOf, MkdirSpec, Paths.Segments, Target;
    var r := fs.Mkdir("/a");
  }

  /**
   * One directory and as many empty transactions as the journal holds: asked
   * from 0 it reports no gap, and what it returns does not lead to the
   * directory that is still there.
   */
  method StaleConsumer(h: seq<byte> -> uint32) returns (fs: Memfs, gap: bool, entries: seq<Record>)
    ensures fresh(fs) && fs.Valid() && ["a"] in fs.View()
    ensures !gap && |fs.nsAt| > 0 && Replay(fs.nsAt[0], entries) != fs.ns
  {
    fs := OneDirectory(h);
    for i := 0 to MAX_JOURNAL
      invariant fs.Valid() && fresh(fs) && ["a"] in fs.View()
      invariant OnlyFirst(fs.history, i + 1)
    {
      hide OnlyFirst, TableOk, HashOk, JournalState, FlatOf;
      ghost var was := fs.history;
      EmptyTransaction(fs);
      OnlyFirstStep(was, i + 1, fs.history[|was|]);
    }
    Dropped(fs);
    gap, entries := fs.GetJournalSince(0);
    NotAccounted(fs.ns, fs.history, MAX_JOURNAL + 1, fs.journalStart, ["a"]);
  }

  /** More records than the journal holds: some were dropped. */
  lemma Dropped(fs: Memfs)
    requires fs.Valid()
    ensures |fs.history| > MAX_JOURNAL ==> 1 <= fs.journalStart <= |fs.history|
    ensures forall p :: p in fs.View() <==> p in fs.ns
  {
    hide TableOk, HashOk, BirthsOk;
  }
}
