/**
 * Inode tables and the namespace they spell: which paths lead to which
 * inode, and what detaching and attaching a subtree does to that map.
 */
module MemfsTree {
  import opened Words

  type Path = seq<string>
  type Ino = nat
  type Namespace = map<Path, Ino>

  const ROOT: Ino := 0

  datatype Inode =
    | Dir(children: map<string, Ino>, version: nat)
    | File(content: seq<byte>, version: nat, contentHash: uint32)

  type Inodes = map<Ino, Inode>

  function Par(p: Path): Path
    requires p != []
  {
    p[..|p| - 1]
  }

  function Last(p: Path): string
    requires p != []
  {
    p[|p| - 1]
  }

  /** The children of an inode; a file or a missing inode has none. */
  function Kids(inodes: Inodes, i: Ino): map<string, Ino> {
    if i in inodes && inodes[i].Dir? then inodes[i].children else map[]
  }

  /** The paths of `m` that are not at or under `top`. */
  function Without<V>(m: map<Path, V>, top: Path): map<Path, V> {
    map p | p in m && !(top <= p) :: m[p]
  }

  /** The paths of `m` at or under `top`, relative to it. */
  function Below<V>(m: map<Path, V>, top: Path): map<Path, V> {
    map q | q in (set p | p in m && top <= p :: p[|top|..]) && top + q in m :: m[top + q]
  }

  /** `m` with the tree `sub` put in place at `top`. */
  function Graft<V>(m: map<Path, V>, top: Path, sub: map<Path, V>): map<Path, V> {
    m + map p | p in (set q | q in sub :: top + q) && top <= p && p[|top|..] in sub :: sub[p[|top|..]]
  }

  /**
   * `rename`: the subtree moves, prefix rewritten, over whatever was at the
   * target. Into its own subtree it takes itself out of the namespace.
   */
  function Moved<V>(m: map<Path, V>, from: Path, to: Path): map<Path, V> {
    if from < to then Without(m, from) else Graft(Without(Without(m, from), to), to, Below(m, from))
  }

  lemma BelowAt<V>(m: map<Path, V>, top: Path, q: Path)
    ensures q in Below(m, top) <==> top + q in m
    ensures top + q in m ==> Below(m, top)[q] == m[top + q]
  {
    if top + q in m {
      assert (top + q)[|top|..] == q;
    }
  }

  lemma GraftAt<V>(m: map<Path, V>, top: Path, sub: map<Path, V>, p: Path)
    ensures p in Graft(m, top, sub) <==> p in m || (top <= p && p[|top|..] in sub)
    ensures top <= p && p[|top|..] in sub ==> Graft(m, top, sub)[p] == sub[p[|top|..]]
    ensures p in m && !(top <= p && p[|top|..] in sub) ==> Graft(m, top, sub)[p] == m[p]
  {
    if top <= p && p[|top|..] in sub {
      assert top + p[|top|..] == p;
    }
  }

  /** What a rename does, path by path. */
  lemma MovedAt<V>(m: map<Path, V>, from: Path, to: Path, p: Path)
    requires !(from < to)
    ensures to <= p ==>
              && (p in Moved(m, from, to) <==> from + p[|to|..] in m)
              && (from + p[|to|..] in m ==> Moved(m, from, to)[p] == m[from + p[|to|..]])
    ensures !(to <= p) ==>
              && (p in Moved(m, from, to) <==> p in m && !(from <= p))
              && (p in m && !(from <= p) ==> Moved(m, from, to)[p] == m[p])
  {
    GraftAt(Without(Without(m, from), to), to, Below(m, from), p);
    if to <= p {
      BelowAt(m, from, p[|to|..]);
    }
  }

  // ---------- trees ----------

  /** `ns` is exactly the namespace of the tree under `root`. */
  ghost predicate TreeAt(inodes: Inodes, ns: Namespace, root: Ino) {
    && [] in ns && ns[[]] == root
    && (forall p :: p in ns ==> ns[p] in inodes)
    && (forall p {:trigger Linked(inodes, ns, p)} :: p in ns && p != [] ==> Linked(inodes, ns, p))
    && (forall p {:trigger Closed(inodes, ns, p)} :: p in ns ==> Closed(inodes, ns, p))
    && Injective(ns)
  }

  ghost predicate Linked(inodes: Inodes, ns: Namespace, p: Path)
    requires p != [] && p in ns
  {
    && Par(p) in ns
    && Last(p) in Kids(inodes, ns[Par(p)])
    && Kids(inodes, ns[Par(p)])[Last(p)] == ns[p]
  }

  ghost predicate Closed(inodes: Inodes, ns: Namespace, p: Path)
    requires p in ns
  {
    forall name :: name in Kids(inodes, ns[p]) ==> p + [name] in ns
  }

  ghost predicate Injective(ns: Namespace) {
    forall p, q :: p in ns && q in ns && ns[p] == ns[q] ==> p == q
  }

  lemma PathSplit(p: Path)
    requires p != []
    ensures p == Par(p) + [Last(p)]
  {
  }

  lemma ChildPath(p: Path, name: string)
    ensures Par(p + [name]) == p && Last(p + [name]) == name && p + [name] != []
  {
  }

  /** Looking a child up through the table and through the namespace agree. */
  lemma KidAt(inodes: Inodes, ns: Namespace, root: Ino, p: Path, name: string)
    requires TreeAt(inodes, ns, root) && p in ns
    ensures name in Kids(inodes, ns[p]) <==> p + [name] in ns
    ensures p + [name] in ns ==> Kids(inodes, ns[p])[name] == ns[p + [name]]
  {
    ChildPath(p, name);
    assert Closed(inodes, ns, p);
    if p + [name] in ns {
      assert Linked(inodes, ns, p + [name]);
    }
  }

  /** Every ancestor of a path in the tree is in the tree. */
  lemma {:induction false} PrefixInTree(inodes: Inodes, ns: Namespace, root: Ino, p: Path, q: Path)
    requires TreeAt(inodes, ns, root) && p in ns && q <= p
    ensures q in ns
    decreases |p|
  {
    if q == p {
    } else {
      assert Linked(inodes, ns, p);
      assert q <= Par(p);
      PrefixInTree(inodes, ns, root, Par(p), q);
    }
  }

  /** A tree does not depend on inodes outside it. */
  lemma TreeFrame(inodes: Inodes, inodes': Inodes, ns: Namespace, root: Ino)
    requires TreeAt(inodes, ns, root)
    requires forall p :: p in ns ==> ns[p] in inodes' && Kids(inodes', ns[p]) == Kids(inodes, ns[p])
    ensures TreeAt(inodes', ns, root)
  {
    forall p | p in ns && p != []
      ensures Linked(inodes', ns, p)
    {
      assert Linked(inodes, ns, p);
    }
    forall p | p in ns
      ensures Closed(inodes', ns, p)
    {
      assert Closed(inodes, ns, p);
    }
  }

  /** Taking a name out of a directory takes the whole subtree out of the namespace. */
  lemma Detach(inodes: Inodes, inodes': Inodes, ns: Namespace, root: Ino, t: Path)
    requires TreeAt(inodes, ns, root) && t in ns && t != []
    requires inodes'.Keys == inodes.Keys
    requires Par(t) in ns && Kids(inodes', ns[Par(t)]) == Kids(inodes, ns[Par(t)]) - {Last(t)}
    requires forall i :: i in inodes && i != ns[Par(t)] ==> Kids(inodes', i) == Kids(inodes, i)
    ensures TreeAt(inodes', Without(ns, t), root)
  {
    var ns' := Without(ns, t);
    forall p | p in ns' && p != []
      ensures Linked(inodes', ns', p)
    {
      assert Linked(inodes, ns, p);
      PathSplit(p);
      PathSplit(t);
      assert ns[Par(p)] == ns[Par(t)] ==> Par(p) == Par(t);
      assert t <= Par(p) ==> t <= p;
    }
    forall p | p in ns'
      ensures Closed(inodes', ns', p)
    {
      assert Closed(inodes, ns, p);
      forall name | name in Kids(inodes', ns'[p])
        ensures p + [name] in ns'
      {
        ChildPath(p, name);
        assert t <= p + [name] ==> t == p + [name];
      }
    }
  }

  lemma SubtreeLinked(inodes: Inodes, ns: Namespace, root: Ino, t: Path, q: Path)
    requires TreeAt(inodes, ns, root) && t in ns && q in Below(ns, t) && q != []
    ensures Linked(inodes, Below(ns, t), q)
  {
    hide Below, Kids;
    BelowAt(ns, t, q);
    assert Linked(inodes, ns, t + q);
    hide TreeAt;
    assert Par(t + q) == t + Par(q) && Last(t + q) == Last(q);
    BelowAt(ns, t, Par(q));
  }

  lemma SubtreeKid(inodes: Inodes, ns: Namespace, root: Ino, t: Path, q: Path, name: string)
    requires TreeAt(inodes, ns, root) && t in ns && q in Below(ns, t) && name in Kids(inodes, Below(ns, t)[q])
    ensures q + [name] in Below(ns, t)
  {
    hide TreeAt, Below, Kids;
    BelowAt(ns, t, q);
    KidAt(inodes, ns, root, t + q, name);
    assert t + q + [name] == t + (q + [name]);
    BelowAt(ns, t, q + [name]);
  }

  lemma SubtreeApart(ns: Namespace, t: Path, q: Path, p: Path)
    requires Injective(ns) && q in Below(ns, t) && p in ns
    ensures Below(ns, t)[q] == ns[p] ==> p == t + q
  {
    BelowAt(ns, t, q);
  }

  lemma SubtreeClosed(inodes: Inodes, ns: Namespace, root: Ino, t: Path, q: Path)
    requires TreeAt(inodes, ns, root) && t in ns && q in Below(ns, t)
    ensures Closed(inodes, Below(ns, t), q)
  {
    hide TreeAt, Below, Kids;
    forall name | name in Kids(inodes, Below(ns, t)[q])
      ensures q + [name] in Below(ns, t)
    {
      SubtreeKid(inodes, ns, root, t, q, name);
    }
  }

  lemma SubtreeInjective(ns: Namespace, t: Path)
    requires Injective(ns)
    ensures Injective(Below(ns, t))
    ensures forall q, p :: q in Below(ns, t) && p in Without(ns, t) ==> Below(ns, t)[q] != Without(ns, t)[p]
  {
    hide Below;
    var sub := Below(ns, t);
    forall q, r | q in sub && r in sub && sub[q] == sub[r]
      ensures q == r
    {
      BelowAt(ns, t, r);
      SubtreeApart(ns, t, q, t + r);
      assert (t + q)[|t|..] == q && (t + r)[|t|..] == r;
    }
    forall q, p | q in sub && p in Without(ns, t)
      ensures sub[q] != Without(ns, t)[p]
    {
      SubtreeApart(ns, t, q, p);
      assert t <= t + q;
    }
  }

  /** The detached subtree is a tree of its own. */
  lemma Subtree(inodes: Inodes, ns: Namespace, root: Ino, t: Path)
    requires TreeAt(inodes, ns, root) && t in ns
    ensures TreeAt(inodes, Below(ns, t), ns[t])
    ensures forall q, p :: q in Below(ns, t) && p in Without(ns, t) ==> Below(ns, t)[q] != Without(ns, t)[p]
  {
    hide Kids, Linked, Closed, Below, Injective;
    var sub := Below(ns, t);
    BelowAt(ns, t, []);
    assert t + [] == t;
    SubtreeInjective(ns, t);
    forall q | q in sub
      ensures sub[q] in inodes
      ensures Closed(inodes, sub, q)
      ensures q != [] ==> Linked(inodes, sub, q)
    {
      BelowAt(ns, t, q);
      SubtreeClosed(inodes, ns, root, t, q);
      if q != [] {
        SubtreeLinked(inodes, ns, root, t, q);
      }
    }
  }

  /** The paths of a graft at a place where there was nothing. */
  lemma GraftPaths(ns: Namespace, t: Path, sub: Namespace)
    requires forall p :: p in ns ==> !(t <= p)
    ensures forall p :: p in ns ==> p in Graft(ns, t, sub) && Graft(ns, t, sub)[p] == ns[p]
    ensures forall q :: q in sub ==> t + q in Graft(ns, t, sub) && Graft(ns, t, sub)[t + q] == sub[q]
    ensures forall p :: p in Graft(ns, t, sub) && p !in ns ==>
              t <= p && p[|t|..] in sub && p == t + p[|t|..] && Graft(ns, t, sub)[p] == sub[p[|t|..]]
  {
    forall p
      ensures p in ns ==> p in Graft(ns, t, sub) && Graft(ns, t, sub)[p] == ns[p]
      ensures p in Graft(ns, t, sub) && p !in ns ==>
                t <= p && p[|t|..] in sub && p == t + p[|t|..] && Graft(ns, t, sub)[p] == sub[p[|t|..]]
    {
      GraftAt(ns, t, sub, p);
    }
    forall q | q in sub
      ensures t + q in Graft(ns, t, sub) && Graft(ns, t, sub)[t + q] == sub[q]
    {
      assert (t + q)[|t|..] == q;
      GraftAt(ns, t, sub, t + q);
    }
  }

  /** When a tree can be put under a free name of a directory. */
  ghost predicate Attachable(inodes: Inodes, inodes': Inodes, ns: Namespace, root: Ino, t: Path, x: Ino, sub: Namespace) {
    && TreeAt(inodes, ns, root) && TreeAt(inodes', sub, x)
    && t != [] && t !in ns && Par(t) in ns
    && inodes.Keys <= inodes'.Keys
    && Kids(inodes', ns[Par(t)]) == Kids(inodes, ns[Par(t)])[Last(t) := x]
    && (forall i :: i in inodes && i != ns[Par(t)] ==> Kids(inodes', i) == Kids(inodes, i))
    && (forall q, p :: q in sub && p in ns ==> sub[q] != ns[p])
  }

  /** The three kinds of path in a graft. */
  lemma AttachPaths(inodes: Inodes, inodes': Inodes, ns: Namespace, root: Ino, t: Path, x: Ino, sub: Namespace)
    requires Attachable(inodes, inodes', ns, root, t, x, sub)
    ensures forall p :: p in ns ==> p in Graft(ns, t, sub) && Graft(ns, t, sub)[p] == ns[p]
    ensures forall q :: q in sub ==> t + q in Graft(ns, t, sub) && Graft(ns, t, sub)[t + q] == sub[q]
    ensures t in Graft(ns, t, sub) && Graft(ns, t, sub)[t] == x
    ensures forall p :: p in Graft(ns, t, sub) && p !in ns ==> t <= p && p[|t|..] in sub && p == t + p[|t|..]
  {
    hide Graft, Kids;
    NothingBelow(inodes, ns, root, t);
    GraftPaths(ns, t, sub);
    assert t + [] == t && [] in sub;
  }

  lemma AttachLinked(inodes: Inodes, inodes': Inodes, ns: Namespace, root: Ino, t: Path, x: Ino, sub: Namespace, p: Path)
    requires Attachable(inodes, inodes', ns, root, t, x, sub)
    requires p in Graft(ns, t, sub) && p != []
    ensures Linked(inodes', Graft(ns, t, sub), p)
  {
    hide Graft, Kids;
    AttachPaths(inodes, inodes', ns, root, t, x, sub);
    if p in ns {
      assert Linked(inodes, ns, p);
      PathSplit(p);
      PathSplit(t);
    } else if p != t {
      var q := p[|t|..];
      assert q != [] && Linked(inodes', sub, q);
      assert Par(p) == t + Par(q) && Last(p) == Last(q);
    }
  }

  lemma AttachKid(inodes: Inodes, inodes': Inodes, ns: Namespace, root: Ino, t: Path, x: Ino, sub: Namespace,
                  p: Path, name: string)
    requires Attachable(inodes, inodes', ns, root, t, x, sub)
    requires p in Graft(ns, t, sub) && name in Kids(inodes', Graft(ns, t, sub)[p])
    ensures p + [name] in Graft(ns, t, sub)
  {
    hide Graft, Kids;
    AttachPaths(inodes, inodes', ns, root, t, x, sub);
    PathSplit(t);
    if p in ns {
      assert Closed(inodes, ns, p);
      assert name in Kids(inodes, ns[p]) || (p == Par(t) && name == Last(t));
    } else {
      var q := p[|t|..];
      assert Closed(inodes', sub, q);
      assert p + [name] == t + (q + [name]);
    }
  }

  lemma AttachInjective(ns: Namespace, t: Path, sub: Namespace)
    requires Injective(ns) && Injective(sub) && forall p :: p in ns ==> !(t <= p)
    requires forall q, p :: q in sub && p in ns ==> sub[q] != ns[p]
    ensures Injective(Graft(ns, t, sub))
  {
    hide Graft;
    GraftPaths(ns, t, sub);
  }

  lemma AttachClosed(inodes: Inodes, inodes': Inodes, ns: Namespace, root: Ino, t: Path, x: Ino, sub: Namespace, p: Path)
    requires Attachable(inodes, inodes', ns, root, t, x, sub) && p in Graft(ns, t, sub)
    ensures Closed(inodes', Graft(ns, t, sub), p)
  {
    hide Attachable, Graft, Kids;
    forall name | name in Kids(inodes', Graft(ns, t, sub)[p])
      ensures p + [name] in Graft(ns, t, sub)
    {
      AttachKid(inodes, inodes', ns, root, t, x, sub, p, name);
    }
  }

  /** Putting a tree under a free name of a directory puts its paths in the namespace. */
  lemma Attach(inodes: Inodes, inodes': Inodes, ns: Namespace, root: Ino, t: Path, x: Ino, sub: Namespace)
    requires Attachable(inodes, inodes', ns, root, t, x, sub)
    ensures TreeAt(inodes', Graft(ns, t, sub), root)
  {
    hide Graft, Kids, Linked, Closed, Injective;
    var ns' := Graft(ns, t, sub);
    NothingBelow(inodes, ns, root, t);
    AttachPaths(inodes, inodes', ns, root, t, x, sub);
    AttachInjective(ns, t, sub);
    forall p | p in ns' && p != []
      ensures Linked(inodes', ns', p)
    {
      AttachLinked(inodes, inodes', ns, root, t, x, sub, p);
    }
    forall p | p in ns'
      ensures Closed(inodes', ns', p)
    {
      AttachClosed(inodes, inodes', ns, root, t, x, sub, p);
    }
  }

  lemma NothingBelow(inodes: Inodes, ns: Namespace, root: Ino, t: Path)
    requires TreeAt(inodes, ns, root) && t !in ns
    ensures forall p :: p in ns ==> !(t <= p)
  {
    forall p | p in ns
      ensures !(t <= p)
    {
      if t <= p {
        PrefixInTree(inodes, ns, root, p, t);
      }
    }
  }

  // ---------- looking a path up ----------

  /** `_resolve`: follow the names from the root through directories. */
  function Lookup(inodes: Inodes, at: Ino, p: Path): Option<Ino>
    decreases |p|
  {
    if p == [] then Some(at)
    else if p[0] in Kids(inodes, at) then Lookup(inodes, Kids(inodes, at)[p[0]], p[1..])
    else None
  }

  /** Walking the table finds a path exactly when the namespace has it. */
  lemma {:induction false} LookupIsNamespace(inodes: Inodes, ns: Namespace, root: Ino, at: Path, p: Path)
    requires TreeAt(inodes, ns, root) && at in ns
    ensures Lookup(inodes, ns[at], p) == if at + p in ns then Some(ns[at + p]) else None
    decreases |p|
  {
    if p == [] {
      assert at + p == at;
    } else {
      KidAt(inodes, ns, root, at, p[0]);
      assert at + [p[0]] + p[1..] == at + p;
      if at + [p[0]] in ns {
        LookupIsNamespace(inodes, ns, root, at + [p[0]], p[1..]);
      } else if at + p in ns {
        PrefixInTree(inodes, ns, root, at + p, at + [p[0]]);
      }
    }
  }
}
