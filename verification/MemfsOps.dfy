/**
 * The table updates behind the operations, and why each keeps the table a
 * tree and changes the flat map as specified.
 */
module MemfsOps {
  import opened Words
  import opened MemfsTree
  import opened MemfsSpec
  import Paths

  /** `parent.children.set(name, child)` */
  function SetChild(inodes: Inodes, parent: Ino, name: string, child: Ino): Inodes
    requires parent in inodes && inodes[parent].Dir?
  {
    inodes[parent := inodes[parent].(children := inodes[parent].children[name := child])]
  }

  /** `parent.children.delete(name)` */
  function DropChild(inodes: Inodes, parent: Ino, name: string): Inodes
    requires parent in inodes && inodes[parent].Dir?
  {
    inodes[parent := inodes[parent].(children := inodes[parent].children - {name})]
  }

  ghost predicate DirAt(inodes: Inodes, ns: Namespace, p: Path) {
    p in ns && ns[p] in inodes && inodes[ns[p]].Dir?
  }

  lemma SetChildKids(inodes: Inodes, parent: Ino, name: string, child: Ino)
    requires parent in inodes && inodes[parent].Dir?
    ensures var inodes' := SetChild(inodes, parent, name, child);
            && inodes'.Keys == inodes.Keys
            && Kids(inodes', parent) == Kids(inodes, parent)[name := child]
            && (forall i :: i in inodes && i != parent ==> Kids(inodes', i) == Kids(inodes, i))
            && (forall i :: i in inodes ==> EntryOf(inodes'[i]) == EntryOf(inodes[i]))
  {
  }

  lemma DropChildKids(inodes: Inodes, parent: Ino, name: string)
    requires parent in inodes && inodes[parent].Dir?
    ensures var inodes' := DropChild(inodes, parent, name);
            && inodes'.Keys == inodes.Keys
            && Kids(inodes', parent) == Kids(inodes, parent) - {name}
            && (forall i :: i in inodes && i != parent ==> Kids(inodes', i) == Kids(inodes, i))
            && (forall i :: i in inodes ==> EntryOf(inodes'[i]) == EntryOf(inodes[i]))
  {
  }

  // ---------- a new inode ----------

  lemma LeafGraft(ns: Namespace, t: Path, i: Ino, leaf: Namespace)
    requires t !in ns && (forall p :: p in ns ==> !(t <= p)) && leaf == map[[] := i]
    ensures Graft(ns, t, leaf) == ns[t := i]
  {
    GraftPaths(ns, t, leaf);
    var g := Graft(ns, t, leaf);
    assert t + [] == t;
    forall p
      ensures p in g <==> p in ns[t := i]
      ensures p in g ==> g[p] == ns[t := i][p]
    {
      if p in g && p !in ns {
        assert p[|t|..] == [];
      }
    }
  }

  lemma LeafTree(inodes: Inodes, i: Ino)
    requires i in inodes && Kids(inodes, i) == map[]
    ensures TreeAt(inodes, map[[] := i], i)
  {
  }

  lemma AddLeaf(inodes: Inodes, ns: Namespace, t: Path, i: Ino, node: Inode)
    requires TreeAt(inodes, ns, ROOT) && t != [] && t !in ns && DirAt(inodes, ns, Par(t))
    requires i !in inodes && (node.Dir? ==> node.children == map[])
    ensures var inodes' := SetChild(inodes[i := node], ns[Par(t)], Last(t), i);
            TreeAt(inodes', ns[t := i], ROOT)
  {
    var parent := ns[Par(t)];
    var inodes' := SetChild(inodes[i := node], parent, Last(t), i);
    var leaf: Namespace := map[[] := i];
    NothingBelow(inodes, ns, ROOT, t);
    LeafGraft(ns, t, i, leaf);
    SetChildKids(inodes[i := node], parent, Last(t), i);
    NewInodeKids(inodes, i, node);
    assert forall q, p :: q in leaf && p in ns ==> leaf[q] != ns[p];
    hide SetChild, Kids, Graft, TreeAt;
    LeafTree(inodes', i);
    Attach(inodes, inodes', ns, ROOT, t, i, leaf);
  }

  lemma NewInodeKids(inodes: Inodes, i: Ino, node: Inode)
    requires i !in inodes && (node.Dir? ==> node.children == map[])
    ensures Kids(inodes[i := node], i) == map[]
    ensures forall k :: k in inodes ==> Kids(inodes[i := node], k) == Kids(inodes, k)
  {
  }

  lemma AddLeafFlat(inodes: Inodes, inodes': Inodes, ns: Namespace, t: Path, i: Ino, node: Inode)
    requires forall p :: p in ns ==> ns[p] in inodes && ns[p] in inodes' && EntryOf(inodes'[ns[p]]) == EntryOf(inodes[ns[p]])
    requires i in inodes' && EntryOf(inodes'[i]) == EntryOf(node)
    ensures FlatOf(inodes', ns[t := i]) == FlatOf(inodes, ns)[t := EntryOf(node)]
  {
  }

  // ---------- a new content ----------

  lemma SetContent(inodes: Inodes, ns: Namespace, t: Path, node: Inode)
    requires TreeAt(inodes, ns, ROOT) && t in ns && inodes[ns[t]].File? && node.File?
    ensures var inodes' := inodes[ns[t] := node];
            && TreeAt(inodes', ns, ROOT)
            && FlatOf(inodes', ns) == FlatOf(inodes, ns)[t := EntryOf(node)]
  {
    var inodes' := inodes[ns[t] := node];
    TreeFrame(inodes, inodes', ns, ROOT);
  }

  // ---------- removal ----------

  lemma LeafAlone(inodes: Inodes, ns: Namespace, t: Path)
    requires TreeAt(inodes, ns, ROOT) && t in ns && Kids(inodes, ns[t]) == map[]
    ensures Without(ns, t) == ns - {t}
  {
    forall p | p in ns && t <= p
      ensures p == t
    {
      if t != p {
        var name := p[|t|];
        assert p[..|t| + 1] == t + [name];
        KidAt(inodes, ns, ROOT, t, name);
        PrefixInTree(inodes, ns, ROOT, p, t + [name]);
      }
    }
  }

  lemma DropLeaf(inodes: Inodes, ns: Namespace, t: Path)
    requires TreeAt(inodes, ns, ROOT) && t != [] && t in ns && DirAt(inodes, ns, Par(t))
    requires Kids(inodes, ns[t]) == map[]
    ensures var inodes' := DropChild(inodes, ns[Par(t)], Last(t));
            && TreeAt(inodes', ns - {t}, ROOT)
            && FlatOf(inodes', ns - {t}) == FlatOf(inodes, ns) - {t}
  {
    var inodes' := DropChild(inodes, ns[Par(t)], Last(t));
    LeafAlone(inodes, ns, t);
    Detach(inodes, inodes', ns, ROOT, t);
  }

  // ---------- rename ----------

  /** The two table updates of a rename, in the order the code makes them. */
  function MoveChild(inodes: Inodes, oldParent: Ino, oldName: string, newParent: Ino, newName: string): Inodes
    requires oldParent in inodes && inodes[oldParent].Dir? && oldName in inodes[oldParent].children
    requires newParent in inodes && inodes[newParent].Dir?
  {
    SetChild(DropChild(inodes, oldParent, oldName), newParent, newName, inodes[oldParent].children[oldName])
  }

  /** Out of the old place first: the rest is a tree, and so is what was taken out. */
  lemma TakeOut(inodes: Inodes, ns: Namespace, from: Path)
    requires TreeAt(inodes, ns, ROOT) && from != [] && from in ns && DirAt(inodes, ns, Par(from))
    ensures var inodes1 := DropChild(inodes, ns[Par(from)], Last(from));
            && TreeAt(inodes1, Without(ns, from), ROOT)
            && TreeAt(inodes1, Below(ns, from), ns[from])
            && (forall q, p :: q in Below(ns, from) && p in Without(ns, from) ==> Below(ns, from)[q] != Without(ns, from)[p])
  {
    var inodes1 := DropChild(inodes, ns[Par(from)], Last(from));
    Detach(inodes, inodes1, ns, ROOT, from);
    Subtree(inodes, ns, ROOT, from);
    assert Par(from) in Without(ns, from) && Without(ns, from)[Par(from)] == ns[Par(from)];
    hide TreeAt;
    SubtreeFrame(inodes, inodes1, Below(ns, from), ns[from], ns[Par(from)]);
  }

  lemma SubtreeFrame(inodes: Inodes, inodes1: Inodes, sub: Namespace, x: Ino, changed: Ino)
    requires TreeAt(inodes, sub, x) && inodes1.Keys == inodes.Keys
    requires forall q :: q in sub ==> sub[q] != changed
    requires forall i :: i in inodes && i != changed ==> Kids(inodes1, i) == Kids(inodes, i)
    ensures TreeAt(inodes1, sub, x)
  {
    TreeFrame(inodes, inodes1, sub, x);
  }

  /** Over whatever stood at the target: the old entry goes out of the namespace with its subtree. */
  lemma PutIn(inodes1: Inodes, ns1: Namespace, to: Path, x: Ino, sub: Namespace)
    requires TreeAt(inodes1, ns1, ROOT) && to != [] && DirAt(inodes1, ns1, Par(to))
    requires TreeAt(inodes1, sub, x) && x in inodes1
    requires forall q, p :: q in sub && p in ns1 ==> sub[q] != ns1[p]
    ensures TreeAt(SetChild(inodes1, ns1[Par(to)], Last(to), x), Graft(Without(ns1, to), to, sub), ROOT)
  {
    var parent := ns1[Par(to)];
    var inodes2 := DropChild(inodes1, parent, Last(to));
    var ns2 := Without(ns1, to);
    var inodes3 := SetChild(inodes1, parent, Last(to), x);
    DropChildKids(inodes1, parent, Last(to));
    SetChildKids(inodes1, parent, Last(to), x);
    ClearPlace(inodes1, ns1, to);
    hide SetChild, DropChild, Kids, TreeAt;
    SubtreeFrame(inodes1, inodes3, sub, x, parent);
    assert Kids(inodes3, parent) == Kids(inodes2, parent)[Last(to) := x];
    assert Par(to) in ns2 && ns2[Par(to)] == parent;
    Attach(inodes2, inodes3, ns2, ROOT, to, x, sub);
  }

  lemma ClearPlace(inodes1: Inodes, ns1: Namespace, to: Path)
    requires TreeAt(inodes1, ns1, ROOT) && to != [] && DirAt(inodes1, ns1, Par(to))
    ensures TreeAt(DropChild(inodes1, ns1[Par(to)], Last(to)), Without(ns1, to), ROOT)
  {
    var parent := ns1[Par(to)];
    var inodes2 := DropChild(inodes1, parent, Last(to));
    DropChildKids(inodes1, parent, Last(to));
    KidAt(inodes1, ns1, ROOT, Par(to), Last(to));
    PathSplit(to);
    hide DropChild;
    if to in ns1 {
      Detach(inodes1, inodes2, ns1, ROOT, to);
    } else {
      NothingBelow(inodes1, ns1, ROOT, to);
      assert Without(ns1, to) == ns1;
      assert Kids(inodes1, parent) - {Last(to)} == Kids(inodes1, parent);
      TreeFrame(inodes1, inodes2, ns1, ROOT);
    }
  }

  /** The namespace of a rename. */
  lemma MoveTree(inodes: Inodes, ns: Namespace, from: Path, to: Path)
    requires TreeAt(inodes, ns, ROOT) && from != [] && to != []
    requires from in ns && DirAt(inodes, ns, Par(from)) && DirAt(inodes, ns, Par(to))
    requires Last(from) in inodes[ns[Par(from)]].children && inodes[ns[Par(from)]].children[Last(from)] == ns[from]
    ensures TreeAt(MoveChild(inodes, ns[Par(from)], Last(from), ns[Par(to)], Last(to)), Moved(ns, from, to), ROOT)
  {
    var inodes1 := DropChild(inodes, ns[Par(from)], Last(from));
    var ns1 := Without(ns, from);
    TakeOut(inodes, ns, from);
    DropChildKids(inodes, ns[Par(from)], Last(from));
    PathSplit(to);
    if from < to {
      var inodes2 := SetChild(inodes1, ns[Par(to)], Last(to), ns[from]);
      assert from <= Par(to);
      SetChildKids(inodes1, ns[Par(to)], Last(to), ns[from]);
      assert forall p :: p in ns1 ==> ns1[p] != ns[Par(to)];
      hide SetChild, DropChild, Kids;
      TreeFrame(inodes1, inodes2, ns1, ROOT);
    } else {
      assert Par(to) in ns1;
      hide TreeAt;
      PutIn(inodes1, ns1, to, ns[from], Below(ns, from));
    }
  }

  /** A rename leaves every inode's own entry alone; only its place changes. */
  lemma MoveFlat(inodes: Inodes, inodes': Inodes, ns: Namespace, from: Path, to: Path)
    requires TreeAt(inodes, ns, ROOT) && TreeAt(inodes', Moved(ns, from, to), ROOT)
    requires inodes.Keys <= inodes'.Keys && forall i :: i in inodes ==> EntryOf(inodes[i]) == EntryOf(inodes'[i])
    ensures FlatOf(inodes', Moved(ns, from, to)) == Moved(FlatOf(inodes, ns), from, to)
  {
    FlatMoved(inodes, ns, from, to);
    hide Moved;
    FlatFrame(inodes, inodes', Moved(ns, from, to));
  }

  // ---------- the whole state of the object ----------

  datatype Fd = Fd(ino: Ino, position: nat, path: Path, dirty: bool, capacity: nat)

  type Fds = map<nat, Fd>

  /** No name contains a separator; only a name in the root can be empty. */
  predicate NameOk(p: Path) {
    p == [] || ((p[0] == "" || Paths.Plain(p[0])) && Paths.AllPlain(p[1..]))
  }

  /** The tree, the inode numbers, the names and the descriptors. */
  ghost predicate TableOk(inodes: Inodes, next: Ino, ns: Namespace, fds: Fds, nextFd: nat) {
    && TreeAt(inodes, ns, ROOT)
    && inodes[ROOT].Dir?
    && (forall i :: i in inodes ==> i < next)
    && (forall p :: p in ns ==> NameOk(p))
    && (forall fd :: fd in fds ==> fd < nextFd && fds[fd].ino in inodes && inodes[fds[fd].ino].File?)
  }

  ghost predicate Dirty(fds: Fds, i: Ino) {
    exists fd :: fd in fds && fds[fd].dirty && fds[fd].ino == i
  }

  /** A content hash is stale only while some descriptor on the inode is dirty. */
  ghost predicate HashOk(hash: seq<byte> -> uint32, inodes: Inodes, fds: Fds) {
    forall i :: i in inodes && inodes[i].File? && !Dirty(fds, i) ==> inodes[i].contentHash == hash(inodes[i].content)
  }

  /** A new table with a tree, the same kinds of inodes and good names. */
  lemma TableMake(inodes: Inodes, next: Ino, ns: Namespace, fds: Fds, nextFd: nat, inodes': Inodes, next': Ino, ns': Namespace)
    requires TableOk(inodes, next, ns, fds, nextFd) && TreeAt(inodes', ns', ROOT)
    requires forall i :: i in inodes' ==> i < next'
    requires forall i :: i in inodes ==> i in inodes' && (inodes'[i].Dir? <==> inodes[i].Dir?)
    requires forall p :: p in ns' ==> NameOk(p)
    ensures TableOk(inodes', next', ns', fds, nextFd)
  {
    assert ROOT in inodes;
    hide TreeAt, NameOk;
  }

  /** What a table knows of its numbers and names. */
  lemma TableFacts(inodes: Inodes, next: Ino, ns: Namespace, fds: Fds, nextFd: nat)
    requires TableOk(inodes, next, ns, fds, nextFd)
    ensures forall i :: i in inodes ==> i < next
    ensures forall p :: p in ns ==> NameOk(p) && ns[p] in inodes
  {
    hide NameOk;
  }

  /** Only directories differ, and only in their children. */
  predicate OnlyChildren(inodes: Inodes, inodes': Inodes) {
    && inodes.Keys == inodes'.Keys
    && forall i :: i in inodes ==> inodes'[i] == inodes[i] || (inodes'[i].Dir? && inodes[i].Dir?)
  }

  lemma SetChildOnly(inodes: Inodes, parent: Ino, name: string, child: Ino)
    requires parent in inodes && inodes[parent].Dir?
    ensures OnlyChildren(inodes, SetChild(inodes, parent, name, child))
    ensures OnlyChildren(inodes, DropChild(inodes, parent, name))
  {
  }

  lemma TableTree(inodes: Inodes, next: Ino, ns: Namespace, fds: Fds, nextFd: nat)
    requires TableOk(inodes, next, ns, fds, nextFd)
    ensures TreeAt(inodes, ns, ROOT) && next !in inodes
  {
    hide TreeAt;
  }

  // Hashes stay good when files keep their content or come with their own hash.

  lemma HashOnlyChildren(hash: seq<byte> -> uint32, inodes: Inodes, inodes': Inodes, fds: Fds)
    requires HashOk(hash, inodes, fds) && OnlyChildren(inodes, inodes')
    ensures HashOk(hash, inodes', fds)
  {
    hide Dirty;
  }

  lemma HashSet(hash: seq<byte> -> uint32, inodes: Inodes, fds: Fds, i: Ino, node: Inode)
    requires HashOk(hash, inodes, fds) && (node.File? ==> node.contentHash == hash(node.content))
    ensures HashOk(hash, inodes[i := node], fds)
  {
    hide Dirty;
  }

  lemma CreateKeeps(hash: seq<byte> -> uint32, inodes: Inodes, next: Ino, ns: Namespace, fds: Fds, nextFd: nat,
                    t: Path, node: Inode)
    requires TableOk(inodes, next, ns, fds, nextFd) && HashOk(hash, inodes, fds)
    requires t != [] && t !in ns && DirAt(inodes, ns, Par(t)) && NameOk(t)
    requires node.Dir? ==> node.children == map[]
    requires node.File? ==> node.contentHash == hash(node.content)
    ensures var inodes' := SetChild(inodes[next := node], ns[Par(t)], Last(t), next);
            var ns' := ns[t := next];
            && TableOk(inodes', next + 1, ns', fds, nextFd)
            && HashOk(hash, inodes', fds)
            && FlatOf(inodes', ns') == FlatOf(inodes, ns)[t := EntryOf(node)]
  {
    var inodes' := SetChild(inodes[next := node], ns[Par(t)], Last(t), next);
    TableTree(inodes, next, ns, fds, nextFd);
    TableFacts(inodes, next, ns, fds, nextFd);
    AddLeaf(inodes, ns, t, next, node);
    SetChildOnly(inodes[next := node], ns[Par(t)], Last(t), next);
    hide TreeAt, NameOk, Kids, TableOk, HashOk, SetChild, FlatOf;
    AddLeafFlat(inodes, inodes', ns, t, next, node);
    HashSet(hash, inodes, fds, next, node);
    HashOnlyChildren(hash, inodes[next := node], inodes', fds);
    TableMake(inodes, next, ns, fds, nextFd, inodes', next + 1, ns[t := next]);
  }

  lemma WriteKeeps(hash: seq<byte> -> uint32, inodes: Inodes, next: Ino, ns: Namespace, fds: Fds, nextFd: nat,
                   t: Path, node: Inode)
    requires TableOk(inodes, next, ns, fds, nextFd) && HashOk(hash, inodes, fds)
    requires t in ns && inodes[ns[t]].File? && node.File? && node.contentHash == hash(node.content)
    ensures var inodes' := inodes[ns[t] := node];
            && TableOk(inodes', next, ns, fds, nextFd)
            && HashOk(hash, inodes', fds)
            && FlatOf(inodes', ns) == FlatOf(inodes, ns)[t := EntryOf(node)]
  {
    TableTree(inodes, next, ns, fds, nextFd);
    TableFacts(inodes, next, ns, fds, nextFd);
    SetContent(inodes, ns, t, node);
    hide NameOk, TreeAt, FlatOf, TableOk, HashOk;
    TableMake(inodes, next, ns, fds, nextFd, inodes[ns[t] := node], next, ns);
    HashSet(hash, inodes, fds, ns[t], node);
  }

  lemma DropKeeps(hash: seq<byte> -> uint32, inodes: Inodes, next: Ino, ns: Namespace, fds: Fds, nextFd: nat, t: Path)
    requires TableOk(inodes, next, ns, fds, nextFd) && HashOk(hash, inodes, fds)
    requires t != [] && t in ns && DirAt(inodes, ns, Par(t)) && Kids(inodes, ns[t]) == map[]
    ensures var inodes' := DropChild(inodes, ns[Par(t)], Last(t));
            var ns' := ns - {t};
            && TableOk(inodes', next, ns', fds, nextFd)
            && HashOk(hash, inodes', fds)
            && FlatOf(inodes', ns') == FlatOf(inodes, ns) - {t}
  {
    var inodes' := DropChild(inodes, ns[Par(t)], Last(t));
    TableFacts(inodes, next, ns, fds, nextFd);
    DropLeaf(inodes, ns, t);
    SetChildOnly(inodes, ns[Par(t)], Last(t), ROOT);
    hide Kids, TreeAt, NameOk, TableOk, HashOk, DropChild, FlatOf;
    TableMake(inodes, next, ns, fds, nextFd, inodes', next, ns - {t});
    HashOnlyChildren(hash, inodes, inodes', fds);
  }

  /** A version bump, as `rename` gives the inode it moves. */
  function Bumped(inodes: Inodes, i: Ino): Inodes
    requires i in inodes
  {
    inodes[i := inodes[i].(version := inodes[i].version + 1)]
  }

  function VersionOf(inodes: Inodes, i: Ino): nat {
    if i in inodes then inodes[i].version else 0
  }

  /** One inode is one version on, every other as it was. A new inode starts at version 1. */
  ghost predicate Bumps(before: Inodes, after: Inodes, i: Ino) {
    VersionOf(after, i) == VersionOf(before, i) + 1 && forall j :: j != i ==> VersionOf(after, j) == VersionOf(before, j)
  }

  ghost predicate SameVersions(before: Inodes, after: Inodes) {
    forall j :: VersionOf(after, j) == VersionOf(before, j)
  }

  lemma ChildVersions(inodes: Inodes, parent: Ino, name: string, child: Ino)
    requires parent in inodes && inodes[parent].Dir?
    ensures SameVersions(inodes, SetChild(inodes, parent, name, child)) && SameVersions(inodes, DropChild(inodes, parent, name))
  {
  }

  lemma MoveVersions(inodes: Inodes, oldParent: Ino, oldName: string, newParent: Ino, newName: string, i: Ino)
    requires oldParent in inodes && inodes[oldParent].Dir? && oldName in inodes[oldParent].children
    requires newParent in inodes && inodes[newParent].Dir? && i in inodes
    ensures var moved := MoveChild(inodes, oldParent, oldName, newParent, newName);
            i in moved && Bumps(inodes, Bumped(moved, i), i)
  {
    ChildVersions(inodes, oldParent, oldName, 0);
    ChildVersions(DropChild(inodes, oldParent, oldName), newParent, newName, inodes[oldParent].children[oldName]);
  }

  lemma NewInode(inodes: Inodes, next: Ino, ns: Namespace, fds: Fds, nextFd: nat, node: Inode, parent: Ino, name: string)
    requires TableOk(inodes, next, ns, fds, nextFd) && node.version == 1
    requires parent in inodes && inodes[parent].Dir?
    ensures next !in inodes && Bumps(inodes, SetChild(inodes[next := node], parent, name, next), next)
  {
    var later := inodes[next := node];
    ChildVersions(later, parent, name, next);
    hide SetChild;
  }

  lemma HashBumped(hash: seq<byte> -> uint32, inodes: Inodes, fds: Fds, i: Ino)
    requires HashOk(hash, inodes, fds) && i in inodes
    ensures HashOk(hash, Bumped(inodes, i), fds)
  {
    hide Dirty;
  }

  lemma MoveKeeps(hash: seq<byte> -> uint32, inodes: Inodes, next: Ino, ns: Namespace, fds: Fds, nextFd: nat,
                  from: Path, to: Path)
    requires TableOk(inodes, next, ns, fds, nextFd) && HashOk(hash, inodes, fds)
    requires from != [] && to != [] && NameOk(to) && from in ns && DirAt(inodes, ns, Par(from)) && DirAt(inodes, ns, Par(to))
    requires Last(from) in inodes[ns[Par(from)]].children && inodes[ns[Par(from)]].children[Last(from)] == ns[from]
    ensures var inodes' := Bumped(MoveChild(inodes, ns[Par(from)], Last(from), ns[Par(to)], Last(to)), ns[from]);
            var ns' := Moved(ns, from, to);
            && TableOk(inodes', next, ns', fds, nextFd)
            && HashOk(hash, inodes', fds)
            && FlatOf(inodes', ns') == Moved(FlatOf(inodes, ns), from, to)
  {
    var inodes1 := MoveChild(inodes, ns[Par(from)], Last(from), ns[Par(to)], Last(to));
    TableFacts(inodes, next, ns, fds, nextFd);
    TableTree(inodes, next, ns, fds, nextFd);
    hide TreeAt, Kids, Moved, NameOk, TableOk, HashOk;
    MoveTree(inodes, ns, from, to);
    MoveKids(inodes, ns[Par(from)], Last(from), ns[Par(to)], Last(to));
    hide MoveChild, FlatOf;
    BumpTree(inodes1, Moved(ns, from, to), ns[from]);
    MoveFlat(inodes, Bumped(inodes1, ns[from]), ns, from, to);
    MoveNames(inodes, ns, from, to);
    TableMake(inodes, next, ns, fds, nextFd, Bumped(inodes1, ns[from]), next, Moved(ns, from, to));
    HashOnlyChildren(hash, inodes, inodes1, fds);
    HashBumped(hash, inodes1, fds, ns[from]);
  }

  lemma MoveKids(inodes: Inodes, oldParent: Ino, oldName: string, newParent: Ino, newName: string)
    requires oldParent in inodes && inodes[oldParent].Dir? && oldName in inodes[oldParent].children
    requires newParent in inodes && inodes[newParent].Dir?
    ensures OnlyChildren(inodes, MoveChild(inodes, oldParent, oldName, newParent, newName))
  {
    SetChildOnly(inodes, oldParent, oldName, ROOT);
  }

  lemma BumpTree(inodes: Inodes, ns: Namespace, i: Ino)
    requires TreeAt(inodes, ns, ROOT) && i in inodes
    ensures TreeAt(Bumped(inodes, i), ns, ROOT)
  {
    TreeFrame(inodes, Bumped(inodes, i), ns, ROOT);
  }

  /** A good name under `from` stays good when its prefix is rewritten. */
  lemma MovedName(from: Path, to: Path, q: Path)
    requires NameOk(from + q) && from != [] && NameOk(to) && to != []
    ensures NameOk(to + q)
  {
    var p := from + q;
    assert forall k :: 0 <= k < |q| ==> q[k] == p[1..][|from| - 1 + k];
    assert Paths.AllPlain(q);
    assert (to + q)[1..] == to[1..] + q;
  }

  lemma MoveNames(inodes: Inodes, ns: Namespace, from: Path, to: Path)
    requires TreeAt(inodes, ns, ROOT) && from in ns && from != [] && to != [] && NameOk(to)
    requires forall p :: p in ns ==> NameOk(p)
    ensures forall p :: p in Moved(ns, from, to) ==> NameOk(p)
  {
    hide TreeAt, NameOk;
    if !(from < to) {
      hide Moved;
      forall p | p in Moved(ns, from, to)
        ensures NameOk(p)
      {
        MovedAt(ns, from, to, p);
        if to <= p {
          assert p == to + p[|to|..];
          MovedName(from, to, p[|to|..]);
        }
      }
    }
  }

  // ---------- descriptors ----------

  lemma OpenKeeps(hash: seq<byte> -> uint32, inodes: Inodes, next: Ino, ns: Namespace, fds: Fds, nextFd: nat, e: Fd)
    requires TableOk(inodes, next, ns, fds, nextFd) && HashOk(hash, inodes, fds)
    requires e.ino in inodes && inodes[e.ino].File? && !e.dirty
    ensures TableOk(inodes, next, ns, fds[nextFd := e], nextFd + 1)
    ensures HashOk(hash, inodes, fds[nextFd := e])
  {
    hide TreeAt, NameOk;
    forall i | Dirty(fds, i)
      ensures Dirty(fds[nextFd := e], i)
    {
      var fd :| fd in fds && fds[fd].dirty && fds[fd].ino == i;
      assert fds[nextFd := e][fd] == fds[fd];
    }
  }

  /** A descriptor's own fields change; it may only turn dirty. */
  lemma FdKeeps(hash: seq<byte> -> uint32, inodes: Inodes, next: Ino, ns: Namespace, fds: Fds, nextFd: nat, fd: nat, e: Fd)
    requires TableOk(inodes, next, ns, fds, nextFd) && HashOk(hash, inodes, fds)
    requires fd in fds && e.ino == fds[fd].ino && (fds[fd].dirty ==> e.dirty)
    ensures TableOk(inodes, next, ns, fds[fd := e], nextFd)
    ensures HashOk(hash, inodes, fds[fd := e])
  {
    hide TreeAt, NameOk;
    forall i | Dirty(fds, i)
      ensures Dirty(fds[fd := e], i)
    {
      var d :| d in fds && fds[d].dirty && fds[d].ino == i;
      assert fds[fd := e][d].dirty;
    }
  }

  /** A file's content changes under a dirty descriptor, or together with its hash. */
  lemma ContentKeeps(hash: seq<byte> -> uint32, inodes: Inodes, next: Ino, ns: Namespace, fds: Fds, nextFd: nat, i: Ino, node: Inode)
    requires TableOk(inodes, next, ns, fds, nextFd) && HashOk(hash, inodes, fds)
    requires i in inodes && inodes[i].File? && node.File?
    requires Dirty(fds, i) || node.contentHash == hash(node.content)
    ensures TableOk(inodes[i := node], next, ns, fds, nextFd)
    ensures HashOk(hash, inodes[i := node], fds)
    ensures forall p :: p in ns && ns[p] != i ==> FlatOf(inodes[i := node], ns)[p] == FlatOf(inodes, ns)[p]
    ensures forall p :: p in ns && ns[p] == i ==> FlatOf(inodes[i := node], ns)[p] == FileEntry(node.content)
    ensures FlatOf(inodes[i := node], ns).Keys == FlatOf(inodes, ns).Keys
  {
    TreeFrame(inodes, inodes[i := node], ns, ROOT);
    hide NameOk, TreeAt;
  }

  /** Closing a descriptor: its inode's hash is fresh, so one fewer dirty descriptor does no harm. */
  lemma CloseKeeps(hash: seq<byte> -> uint32, inodes: Inodes, next: Ino, ns: Namespace, fds: Fds, nextFd: nat, fd: nat)
    requires TableOk(inodes, next, ns, fds, nextFd) && HashOk(hash, inodes, fds) && fd in fds
    requires fds[fd].dirty ==> inodes[fds[fd].ino].contentHash == hash(inodes[fds[fd].ino].content)
    ensures TableOk(inodes, next, ns, fds - {fd}, nextFd)
    ensures HashOk(hash, inodes, fds - {fd})
  {
    hide TreeAt, NameOk;
    forall i | Dirty(fds, i) && (i != fds[fd].ino || !fds[fd].dirty)
      ensures Dirty(fds - {fd}, i)
    {
      var d :| d in fds && fds[d].dirty && fds[d].ino == i;
      assert d in fds - {fd};
    }
  }

  /** The root's path is closed under ancestors in the flat map too. */
  lemma FlatClosed(inodes: Inodes, ns: Namespace, p: Path, q: Path)
    requires TreeAt(inodes, ns, ROOT) && p in FlatOf(inodes, ns) && q <= p
    ensures q in FlatOf(inodes, ns)
  {
    PrefixInTree(inodes, ns, ROOT, p, q);
  }

  /** What the table says about a child of a directory in the namespace. */
  lemma ChildOf(inodes: Inodes, next: Ino, ns: Namespace, fds: Fds, nextFd: nat, p: Path, name: string)
    requires TableOk(inodes, next, ns, fds, nextFd) && DirAt(inodes, ns, p)
    ensures name in inodes[ns[p]].children <==> p + [name] in ns
    ensures p + [name] in ns ==> inodes[ns[p]].children[name] == ns[p + [name]] && ns[p + [name]] in inodes
    ensures FlatOf(inodes, ns).Keys == ns.Keys
    ensures p + [name] in ns ==> (inodes[ns[p + [name]]].Dir? <==> FlatOf(inodes, ns)[p + [name]] == DirEntry)
  {
    KidAt(inodes, ns, ROOT, p, name);
  }

  lemma RootThere(inodes: Inodes, next: Ino, ns: Namespace, fds: Fds, nextFd: nat)
    requires TableOk(inodes, next, ns, fds, nextFd)
    ensures DirAt(inodes, ns, []) && ns[[]] == ROOT
  {
  }

  lemma NameOkPrefix(p: Path, k: nat)
    requires NameOk(p) && k <= |p|
    ensures NameOk(p[..k])
  {
    if k > 0 {
      assert p[..k][1..] == p[1..][..k - 1];
    }
  }

  /** A file found below `k` directories was there all along, and so were they. */
  lemma WasBlocked(inodes: Inodes, next: Ino, ns: Namespace, fds: Fds, nextFd: nat, p: Path, k: nat)
    requires TableOk(inodes, next, ns, fds, nextFd) && k < |p|
    requires p[..k + 1] in FlatOf(inodes, ns) && FlatOf(inodes, ns)[p[..k + 1]] != DirEntry
    requires OnTheWay(FlatOf(inodes, ns), p, k)
    ensures Blocked(FlatOf(inodes, ns), p)
    ensures FlatOf(inodes, ns) + Prefixes(p, k) == FlatOf(inodes, ns)
  {
    forall j | 0 < j <= k
      ensures p[..j] in FlatOf(inodes, ns)
    {
      assert p[..j] <= p[..k + 1];
      FlatClosed(inodes, ns, p[..k + 1], p[..j]);
    }
    hide TreeAt, FlatOf, NameOk;
    PrefixesThere(FlatOf(inodes, ns), p, k);
  }

  /** Entries of the flat map and inodes of the table. */
  lemma TableEntry(inodes: Inodes, next: Ino, ns: Namespace, fds: Fds, nextFd: nat, p: Path)
    requires TableOk(inodes, next, ns, fds, nextFd)
    ensures p in ns <==> p in FlatOf(inodes, ns)
    ensures p in ns ==> ns[p] in inodes && FlatOf(inodes, ns)[p] == EntryOf(inodes[ns[p]])
  {
  }

  lemma DirAbove(inodes: Inodes, next: Ino, ns: Namespace, fds: Fds, nextFd: nat, p: Path)
    requires TableOk(inodes, next, ns, fds, nextFd) && p in ns && p != []
    ensures DirAt(inodes, ns, Par(p))
  {
    assert Linked(inodes, ns, p);
  }

  /** A path that is there is in a directory. */
  lemma InDirectory(inodes: Inodes, next: Ino, ns: Namespace, fds: Fds, nextFd: nat, p: Path)
    requires TableOk(inodes, next, ns, fds, nextFd) && p != []
    ensures p in FlatOf(inodes, ns) ==> IsDir(FlatOf(inodes, ns), Par(p))
  {
    hide FlatOf;
    FlatDirs(inodes, ns, Par(p));
    TableEntry(inodes, next, ns, fds, nextFd, p);
    if p in ns {
      DirAbove(inodes, next, ns, fds, nextFd, p);
    }
  }

  lemma FdFresh(inodes: Inodes, next: Ino, ns: Namespace, fds: Fds, nextFd: nat)
    requires TableOk(inodes, next, ns, fds, nextFd)
    ensures nextFd !in fds
  {
  }

  lemma FdFile(inodes: Inodes, next: Ino, ns: Namespace, fds: Fds, nextFd: nat, fd: nat)
    requires TableOk(inodes, next, ns, fds, nextFd) && fd in fds
    ensures fds[fd].ino in inodes && inodes[fds[fd].ino].File?
  {
  }

  lemma SameContent(inodes: Inodes, next: Ino, ns: Namespace, fds: Fds, nextFd: nat, i: Ino, node: Inode)
    requires TableOk(inodes, next, ns, fds, nextFd)
    requires i in inodes && EntryOf(node) == EntryOf(inodes[i])
    ensures forall p :: p in ns ==> ns[p] in inodes[i := node]
    ensures FlatOf(inodes[i := node], ns) == FlatOf(inodes, ns)
  {
  }

  lemma InTable(inodes: Inodes, next: Ino, ns: Namespace, fds: Fds, nextFd: nat, p: Path)
    requires TableOk(inodes, next, ns, fds, nextFd) && p in ns
    ensures ns[p] in inodes
  {
  }

  lemma NowDirty(fds: Fds, fd: nat)
    requires fd in fds && fds[fd].dirty
    ensures Dirty(fds, fds[fd].ino)
  {
  }

  lemma SamePaths(inodes: Inodes, next: Ino, ns: Namespace, fds: Fds, nextFd: nat)
    requires TableOk(inodes, next, ns, fds, nextFd)
    ensures FlatOf(inodes, ns).Keys == ns.Keys
  {
  }
}
