/** A run of writes through one descriptor of a file system object, when it is its file's only writer. */
module MemfsWriters {
  import opened Words
  import opened MemfsTree
  import opened MemfsSpec
  import opened MemfsOps
  import opened MemfsObject
  import MemfsDescriptors

  /** The buffer a descriptor writes to, as it believes it to be. */
  ghost function BufferOf(fs: Memfs, fd: nat): MemfsDescriptors.Buffer
    requires fd in fs.fds
    reads fs
  {
    MemfsDescriptors.Buffer(FileBytes(fs.inodes, fs.fds[fd].ino), fs.fds[fd].capacity, 0)
  }

  /** Just opened, or kept by its only writer: the capacity is the length of the content. */
  ghost predicate UpToDate(fs: Memfs, fd: nat)
    reads fs
  {
    fd in fs.fds && MemfsDescriptors.Exact(BufferOf(fs, fd))
  }

  /** Exact once, exact after every write: what one write leaves is one step of the run. */
  lemma StepIs(b: MemfsDescriptors.Buffer, w: MemfsDescriptors.Write)
    requires MemfsDescriptors.Exact(b)
    ensures MemfsDescriptors.WriteAt(b.content, b.capacity, w.pos, w.data) == Some(MemfsDescriptors.Step(b, w).content)
    ensures MemfsDescriptors.Grown(b.capacity, w.pos + |w.data|) == MemfsDescriptors.Step(b, w).capacity
    ensures MemfsDescriptors.Exact(MemfsDescriptors.Step(b, w))
  {
  }

  lemma StepForgets(b: MemfsDescriptors.Buffer, c: MemfsDescriptors.Buffer, w: MemfsDescriptors.Write)
    requires MemfsDescriptors.Exact(b) && MemfsDescriptors.Exact(c) && b.content == c.content
    ensures MemfsDescriptors.Step(b, w).content == MemfsDescriptors.Step(c, w).content
  {
  }

  /** What a path shows is what the descriptors of its inode write to. */
  lemma ShowsBuffer(fs: Memfs, fd: nat)
    requires fs.Valid() && fd in fs.fds
    ensures forall q :: q in fs.View() && q in fs.ns && fs.ns[q] == fs.fds[fd].ino ==>
              fs.View()[q] == FileEntry(BufferOf(fs, fd).content)
  {
    FdFile(fs.inodes, fs.inoCounter, fs.ns, fs.fds, fs.nextFd, fd);
    hide TableOk, HashOk, JournalState;
  }

  /**
   * No write of the run fails. Afterwards the file holds, byte for byte, what
   * was last written there, covers every byte written, and is at most twice
   * as long as that asks for; no other file has changed.
   */
  method WriteRun(fs: Memfs, fd: nat, ws: seq<MemfsDescriptors.Write>) returns (failed: bool)
    requires fs.Valid() && UpToDate(fs, fd)
    modifies fs
    ensures fs.Valid() && UpToDate(fs, fd) && !failed && fs.ns == old(fs.ns) && fs.fds[fd].ino == old(fs.fds[fd].ino)
    ensures var before := old(BufferOf(fs, fd)).content;
            var now := BufferOf(fs, fd).content;
            && (forall i :: 0 <= i < |now| ==> now[i] == MemfsDescriptors.Expected(before, ws, i))
            && |before| <= |now| && MemfsDescriptors.LargestEnd(ws) <= |now|
            && |now| <= MemfsDescriptors.Max(|before|, MemfsDescriptors.Max(4096, 2 * MemfsDescriptors.LargestEnd(ws)))
    ensures forall q :: q in fs.View() && q in fs.ns && fs.ns[q] == fs.fds[fd].ino ==>
              fs.View()[q] == FileEntry(BufferOf(fs, fd).content)
    ensures fs.View().Keys == old(fs.View()).Keys
    ensures forall q :: q in old(fs.View()) && q in fs.ns && fs.ns[q] != fs.fds[fd].ino ==>
              fs.View()[q] == old(fs.View())[q]
  {
    hide TableOk, HashOk, JournalState, FlatOf, FileBytes, MemfsDescriptors.WriteAt, MemfsDescriptors.Grown, MemfsDescriptors.Step;
    ghost var b := BufferOf(fs, fd);
    ghost var run := b;
    failed := false;
    assert ws[..0] == [];
    for k := 0 to |ws|
      invariant fs.Valid() && UpToDate(fs, fd) && !failed && fs.ns == old(fs.ns) && fs.fds[fd].ino == old(fs.fds[fd].ino)
      invariant run == MemfsDescriptors.Run(b, ws[..k]) && run.content == BufferOf(fs, fd).content
      invariant fs.View().Keys == old(fs.View()).Keys
      invariant forall q :: q in old(fs.View()) && q in fs.ns && fs.ns[q] != fs.fds[fd].ino ==>
                  fs.View()[q] == old(fs.View())[q]
    {
      ghost var here := BufferOf(fs, fd);
      StepIs(here, ws[k]);
      StepForgets(run, here, ws[k]);
      assert ws[..k + 1][..k] == ws[..k];
      var r := fs.WriteFd(fd, ws[k].data, Some(ws[k].pos));
      failed := failed || r != Done;
      run := MemfsDescriptors.Step(run, ws[k]);
    }
    assert ws[..|ws|] == ws;
    ShowsBuffer(fs, fd);
    MemfsDescriptors.RunBytes(b, ws);
    MemfsDescriptors.RunGrowth(b, ws);
  }
}
