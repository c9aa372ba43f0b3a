/**
 * Writing through a descriptor: geometric growth of the content buffer, and
 * what any run of writes leaves behind when the descriptor is its inode's
 * only writer.
 */
module MemfsDescriptors {
  import opened Words

  const MIN_CAPACITY := 4096

  function Max(a: int, b: int): int {
    if a < b then b else a
  }

  /** The capacity after room for `needed` bytes was asked for. */
  function Grown(capacity: nat, needed: nat): nat {
    if needed > capacity then Max(needed, Max(capacity * 2, MIN_CAPACITY)) else capacity
  }

  function Overwrite(content: seq<byte>, pos: nat, data: seq<byte>): seq<byte>
    requires pos + |data| <= |content|
  {
    content[..pos] + data + content[pos + |data|..]
  }

  /**
   * One write at `pos` into a buffer believed to have room for `capacity`
   * bytes: `None` stands for the RangeError when the belief is wrong.
   */
  function WriteAt(content: seq<byte>, capacity: nat, pos: nat, data: seq<byte>): Option<seq<byte>> {
    var cap := Grown(capacity, pos + |data|);
    if pos + |data| > capacity then
      if |content| > cap then None
      else Some(Overwrite(content + Zeros(cap - |content|), pos, data))
    else if pos + |data| > |content| then None
    else Some(Overwrite(content, pos, data))
  }

  // ---------- runs of writes ----------

  datatype Write = Write(pos: nat, data: seq<byte>)

  /** The buffer, and how many bytes its regrowths have copied. */
  datatype Buffer = Buffer(content: seq<byte>, capacity: nat, copied: nat)

  /** A descriptor just opened, or kept by its only writer. */
  predicate Exact(b: Buffer) {
    |b.content| == b.capacity
  }

  function Step(b: Buffer, w: Write): Buffer
    requires Exact(b)
    ensures Exact(Step(b, w))
  {
    var cap := Grown(b.capacity, w.pos + |w.data|);
    Buffer(WriteAt(b.content, b.capacity, w.pos, w.data).value, cap,
           if cap > b.capacity then b.copied + |b.content| else b.copied)
  }

  function Run(b: Buffer, ws: seq<Write>): Buffer
    requires Exact(b)
    ensures Exact(Run(b, ws))
    decreases |ws|
  {
    if ws == [] then b else Step(Run(b, ws[..|ws| - 1]), ws[|ws| - 1])
  }

  predicate Covers(w: Write, i: nat) {
    w.pos <= i < w.pos + |w.data|
  }

  /** What byte `i` should be: the last write that covered it, else the old byte, else zero. */
  function Expected(old_: seq<byte>, ws: seq<Write>, i: nat): byte
    decreases |ws|
  {
    if ws == [] then (if i < |old_| then old_[i] else 0)
    else
      var w := ws[|ws| - 1];
      if Covers(w, i) then w.data[i - w.pos] else Expected(old_, ws[..|ws| - 1], i)
  }

  function LargestEnd(ws: seq<Write>): nat {
    if ws == [] then 0
    else Max(LargestEnd(ws[..|ws| - 1]), ws[|ws| - 1].pos + |ws[|ws| - 1].data|)
  }

  lemma StepBytes(b: Buffer, w: Write, i: nat)
    requires Exact(b) && i < Step(b, w).capacity
    ensures Step(b, w).content[i] ==
            if Covers(w, i) then w.data[i - w.pos] else if i < |b.content| then b.content[i] else 0
    ensures b.capacity <= Step(b, w).capacity
  {
  }

  /**
   * Any run of writes by the only writer: no write fails, the buffer covers
   * every byte ever written, and each byte is what was last written there.
   */
  lemma {:induction false} RunBytes(b: Buffer, ws: seq<Write>)
    requires Exact(b)
    ensures LargestEnd(ws) <= Run(b, ws).capacity && b.capacity <= Run(b, ws).capacity
    ensures forall i :: 0 <= i < Run(b, ws).capacity ==> Run(b, ws).content[i] == Expected(b.content, ws, i)
  {
    if ws != [] {
      var r, w := ws[..|ws| - 1], ws[|ws| - 1];
      RunBytes(b, r);
      var mid := Run(b, r);
      forall i | 0 <= i < Run(b, ws).capacity
        ensures Run(b, ws).content[i] == Expected(b.content, ws, i)
      {
        StepBytes(mid, w, i);
        if i >= mid.capacity && !Covers(w, i) {
          ExpectedBeyond(b.content, r, i);
        }
      }
    }
  }

  lemma {:induction false} ExpectedBeyond(old_: seq<byte>, ws: seq<Write>, i: nat)
    requires i >= |old_| && i >= LargestEnd(ws)
    ensures Expected(old_, ws, i) == 0
    decreases |ws|
  {
    if ws != [] {
      ExpectedBeyond(old_, ws[..|ws| - 1], i);
    }
  }

  /** A regrown buffer is at least twice as large, at least 4096 bytes and large enough, and no larger than one of these asks. */
  lemma GrownIs(capacity: nat, needed: nat)
    ensures needed <= capacity ==> Grown(capacity, needed) == capacity
    ensures needed > capacity ==>
              && Grown(capacity, needed) >= needed && Grown(capacity, needed) >= 2 * capacity && Grown(capacity, needed) >= 4096
              && Grown(capacity, needed) in {needed, 2 * capacity, 4096}
  {
  }

  /** Growth is geometric: the capacity stays within twice what is used, and the copying within the capacity. */
  lemma {:induction false} RunGrowth(b: Buffer, ws: seq<Write>)
    requires Exact(b)
    ensures Run(b, ws).capacity <= Max(b.capacity, Max(4096, 2 * LargestEnd(ws)))
    ensures Run(b, ws).copied - b.copied <= Run(b, ws).capacity
    ensures ws == [] ==> Run(b, ws).copied == b.copied
  {
    if ws != [] {
      RunGrowth(b, ws[..|ws| - 1]);
    }
  }
}
