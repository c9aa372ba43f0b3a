/**
 * The N-API handle table: small integers stand for JavaScript values, are
 * reused through a free list, released when their scope closes, and kept alive
 * by references.
 */
module HandleTable {
  import opened Words

  /** `Other` is every value without a fixed handle. */
  datatype Value = Undefined | Null | GlobalThis | Other(id: nat)

  const WELL_KNOWN: seq<Value> := [Null, Undefined, Null, GlobalThis]

  datatype Table = Table(handles: seq<Value>, free: seq<nat>, scopes: seq<seq<nat>>, refs: map<int, int>)

  datatype Created = Created(handle: nat, table: Table)

  // ---------- the operations as functions ----------

  function Initial(): Table {
    Table(WELL_KNOWN, [], [[]], map[])
  }

  /** The handles of all open scopes, outermost first. */
  function Tracked(t: Table): seq<nat> {
    Concat(t.scopes)
  }

  /** What the code relies on to index its arrays. */
  predicate Usable(t: Table) {
    && |t.handles| >= 4 && |t.scopes| >= 1
    && (forall h :: h in t.free ==> 4 <= h < |t.handles|)
    && (forall h :: h in Tracked(t) ==> 4 <= h < |t.handles|)
  }

  /** `scopes` with `h` added to the innermost one. */
  function Track(scopes: seq<seq<nat>>, h: nat): seq<seq<nat>>
    requires |scopes| >= 1
  {
    scopes[..|scopes| - 1] + [scopes[|scopes| - 1] + [h]]
  }

  function Create(t: Table, v: Value): Created
    requires Usable(t)
  {
    match v
    case Undefined => Created(1, t)
    case Null => Created(2, t)
    case GlobalThis => Created(3, t)
    case Other(_) =>
      if t.free != [] then
        var h := t.free[|t.free| - 1];
        assert h in t.free;
        Created(h, t.(handles := t.handles[h := v], free := t.free[..|t.free| - 1], scopes := Track(t.scopes, h)))
      else
        var h := |t.handles|;
        Created(h, t.(handles := t.handles + [v], scopes := Track(t.scopes, h)))
  }

  function Resolve(t: Table, h: int): Option<Value> {
    if h < 0 || h >= |t.handles| then None else Some(t.handles[h])
  }

  function FreeHandle(t: Table, h: nat): Table
    requires h < |t.handles|
  {
    if h <= 3 || h in t.refs then t else t.(handles := t.handles[h := Undefined], free := t.free + [h])
  }

  predicate Slots(t: Table, hs: seq<nat>) {
    forall i :: 0 <= i < |hs| ==> hs[i] < |t.handles|
  }

  function FreeAll(t: Table, hs: seq<nat>): (r: Table)
    requires Slots(t, hs)
    decreases |hs|
  {
    if hs == [] then t else FreeAll(FreeHandle(t, hs[0]), hs[1..])
  }

  function OpenScope(t: Table): Table {
    t.(scopes := t.scopes + [[]])
  }

  /** The last scope is never closed. */
  function CloseScope(t: Table): Table
    requires Usable(t)
  {
    if |t.scopes| <= 1 then t
    else
      var n := |t.scopes| - 1;
      InnermostSlots(t);
      FreeAll(t.(scopes := t.scopes[..n]), t.scopes[n])
  }

  function CreateReference(t: Table, h: int, count: int): Table {
    t.(refs := t.refs[h := count])
  }

  function Reference(t: Table, h: int): Table {
    if h in t.refs then t.(refs := t.refs[h := t.refs[h] + 1]) else t
  }

  function Unreference(t: Table, h: int): Table {
    if h !in t.refs then t
    else
      var n := if t.refs[h] - 1 > 0 then t.refs[h] - 1 else 0;
      t.(refs := if n == 0 then t.refs - {h} else t.refs[h := n])
  }

  function DeleteReference(t: Table, h: int): Table {
    t.(refs := t.refs - {h})
  }

  /** 0 stands for no value. */
  function ReferenceValue(t: Table, h: int): int {
    if h in t.refs && t.refs[h] > 0 then h else 0
  }

  lemma LastScope(scopes: seq<seq<nat>>)
    requires |scopes| >= 1
    ensures var n := |scopes| - 1; Concat(scopes) == Concat(scopes[..n]) + scopes[n]
  {
    var n := |scopes| - 1;
    assert scopes == scopes[..n] + [scopes[n]];
    ConcatAppend(scopes[..n], scopes[n]);
  }

  lemma InnermostSlots(t: Table)
    requires Usable(t)
    ensures var hs := t.scopes[|t.scopes| - 1];
            Slots(t, hs) && forall i :: 0 <= i < |hs| ==> 4 <= hs[i]
  {
    var hs := t.scopes[|t.scopes| - 1];
    LastScope(t.scopes);
    forall i | 0 <= i < |hs| ensures 4 <= hs[i] < |t.handles| {
      assert hs[i] in Tracked(t);
    }
  }

  // ---------- the table object ----------

  class NapiBridge {
    var handles: seq<Value>
    var handleFreeList: seq<nat>
    var handleScopes: seq<seq<nat>>
    var refs: map<int, int>

    ghost function View(): Table
      reads this
    {
      Table(handles, handleFreeList, handleScopes, refs)
    }

    constructor ()
      ensures View() == Initial()
    {
      handles, handleFreeList, handleScopes, refs := WELL_KNOWN, [], [[]], map[];
    }

    method CreateHandle(value: Value) returns (handle: nat)
      requires Usable(View())
      modifies this
      ensures Created(handle, View()) == Create(old(View()), value)
    {
      if value == Undefined { return 1; }
      if value == Null { return 2; }
      if value == GlobalThis { return 3; }
      if |handleFreeList| > 0 {
        handle := handleFreeList[|handleFreeList| - 1];
        assert handle in handleFreeList;
        handleFreeList := handleFreeList[..|handleFreeList| - 1];
        handles := handles[handle := value];
      } else {
        handle := |handles|;
        handles := handles + [value];
      }
      var current := |handleScopes| - 1;
      handleScopes := handleScopes[..current] + [handleScopes[current] + [handle]];
    }

    method GetHandle(handle: int) returns (value: Option<Value>)
      ensures value == Resolve(View(), handle)
    {
      if handle < 0 || handle >= |handles| {
        return None;
      }
      value := Some(handles[handle]);
    }

    method Free(handle: nat)
      requires handle < |handles|
      modifies this
      ensures View() == FreeHandle(old(View()), handle)
    {
      if handle <= 3 { return; }
      if handle in refs { return; }
      handles := handles[handle := Undefined];
      handleFreeList := handleFreeList + [handle];
    }

    method OpenHandleScope()
      modifies this
      ensures View() == OpenScope(old(View()))
    {
      handleScopes := handleScopes + [[]];
    }

    method CloseHandleScope() returns (ok: bool)
      requires Usable(View())
      modifies this
      ensures View() == CloseScope(old(View()))
      ensures ok == (|old(handleScopes)| > 1)
    {
      if |handleScopes| <= 1 {
        return false;
      }
      var n := |handleScopes| - 1;
      var scope := handleScopes[n];
      InnermostSlots(View());
      handleScopes := handleScopes[..n];
      ghost var outcome := FreeAll(View(), scope);
      for i := 0 to |scope|
        invariant Slots(View(), scope)
        invariant FreeAll(View(), scope[i..]) == outcome
      {
        assert scope[i..][0] == scope[i] && scope[i..][1..] == scope[i + 1..];
        if scope[i] !in refs {
          Free(scope[i]);
        }
      }
      assert scope[|scope|..] == [];
      ok := true;
    }

    method NapiCreateReference(handle: int, initialRefcount: int) returns (ref: int)
      modifies this`refs
      ensures ref == handle && refs == old(refs)[handle := initialRefcount]
      ensures View() == CreateReference(old(View()), handle, initialRefcount)
    {
      refs := refs[handle := initialRefcount];
      ref := handle;
    }

    method NapiReferenceRef(ref: int) returns (count: Option<int>)
      modifies this`refs
      ensures refs == if ref in old(refs) then old(refs)[ref := old(refs)[ref] + 1] else old(refs)
      ensures View() == Reference(old(View()), ref)
      ensures count == if ref in old(refs) then Some(old(refs)[ref] + 1) else None
    {
      if ref !in refs {
        return None;
      }
      refs := refs[ref := refs[ref] + 1];
      count := Some(refs[ref]);
    }

    method NapiReferenceUnref(ref: int) returns (count: Option<int>)
      modifies this`refs
      ensures ref in old(refs) ==> count == Some(if old(refs)[ref] > 1 then old(refs)[ref] - 1 else 0)
      ensures refs == if ref in old(refs) && old(refs)[ref] > 1 then old(refs)[ref := old(refs)[ref] - 1] else old(refs) - {ref}
      ensures View() == Unreference(old(View()), ref)
      ensures count.Some? == (ref in old(refs))
      ensures count.Some? ==> count.value >= 0 && (ref in refs <==> count.value > 0)
    {
      if ref !in refs {
        return None;
      }
      var n := if refs[ref] - 1 > 0 then refs[ref] - 1 else 0;
      refs := refs[ref := n];
      if n == 0 {
        refs := refs - {ref};
        assert refs == old(refs) - {ref};
      }
      count := Some(n);
    }

    method NapiGetReferenceValue(ref: int) returns (handle: int)
      ensures handle == if ref in refs && refs[ref] > 0 then ref else 0
      ensures handle == ReferenceValue(View(), ref)
    {
      if ref in refs && refs[ref] > 0 {
        return ref;
      }
      handle := 0;
    }

    method NapiDeleteReference(ref: int)
      modifies this`refs
      ensures refs == old(refs) - {ref}
      ensures View() == DeleteReference(old(View()), ref)
    {
      if ref in refs {
        refs := refs - {ref};
      } else {
        assert refs - {ref} == refs;
      }
    }
  }

  // ---------- the invariant ----------

  predicate NoDup(s: seq<nat>) {
    forall i, j :: 0 <= i < j < |s| ==> s[i] != s[j]
  }

  predicate Apart(a: seq<nat>, b: seq<nat>) {
    forall x :: x in a ==> x !in b
  }

  /**
   * No handle is twice on the free list or tracked twice, no tracked handle is
   * free, and no referenced handle is free.
   */
  predicate Inv(t: Table) {
    && Usable(t) && t.handles[..4] == WELL_KNOWN
    && NoDup(t.free) && NoDup(Tracked(t)) && Apart(t.free, Tracked(t))
    && (forall r :: r in t.refs ==> 0 <= r < |t.handles| && r !in t.free)
  }

  predicate Scoped(t: Table, h: nat) {
    h in Tracked(t)
  }

  /** Neither free nor in a scope. */
  predicate OutOfPool(t: Table, h: nat) {
    h !in t.free && h !in Tracked(t)
  }

  lemma NoDupAppend(a: seq<nat>, b: seq<nat>)
    ensures NoDup(a + b) <==> NoDup(a) && NoDup(b) && Apart(a, b)
  {
    var s := a + b;
    if NoDup(s) {
      forall i, j | 0 <= i < j < |a| ensures a[i] != a[j] {
        assert s[i] == a[i] && s[j] == a[j];
      }
      forall i, j | 0 <= i < j < |b| ensures b[i] != b[j] {
        assert s[|a| + i] == b[i] && s[|a| + j] == b[j];
      }
      forall i, j | 0 <= i < |a| && 0 <= j < |b| ensures a[i] != b[j] {
        assert s[i] == a[i] && s[|a| + j] == b[j];
      }
    } else {
      var i, j :| 0 <= i < j < |s| && s[i] == s[j];
      if i < |a| <= j {
        assert a[i] in a && b[j - |a|] in b;
      }
    }
  }

  /** Somebody may still use `h`. */
  predicate Live(t: Table, h: nat) {
    Scoped(t, h) || h in t.refs
  }

  datatype Op =
    | CreateOp(value: Value)
    | OpenOp
    | CloseOp
    | CreateRefOp(handle: int, count: int)
    | RefOp(handle: int)
    | UnrefOp(handle: int)
    | DeleteRefOp(handle: int)

  /** References are made on handles that are in use. */
  predicate Allowed(t: Table, op: Op) {
    op.CreateRefOp? ==> 0 <= op.handle < |t.handles| && op.handle !in t.free
  }

  function Apply(t: Table, op: Op): Table
    requires Usable(t)
  {
    match op
    case CreateOp(v) => Create(t, v).table
    case OpenOp => OpenScope(t)
    case CloseOp => CloseScope(t)
    case CreateRefOp(h, n) => CreateReference(t, h, n)
    case RefOp(h) => Reference(t, h)
    case UnrefOp(h) => Unreference(t, h)
    case DeleteRefOp(h) => DeleteReference(t, h)
  }

  /** Creating takes a handle that nobody can be using, off the free list if it was there, and tracks it. */
  lemma CreateIs(t: Table, v: Value)
    requires Inv(t) && v.Other?
    ensures var c := Create(t, v);
            && c.handle >= 4 && !Live(t, c.handle)
            && (if t.free == [] then
                  c.handle == |t.handles| && c.table.handles == t.handles + [v] && c.table.free == []
                else
                  && c.handle < |t.handles| && t.free == c.table.free + [c.handle]
                  && c.table.handles == t.handles[c.handle := v])
            && Tracked(c.table) == Tracked(t) + [c.handle] && |c.table.scopes| == |t.scopes|
            && c.table.refs == t.refs
  {
    hide NoDup;
    var n, h := |t.scopes| - 1, Create(t, v).handle;
    LastScope(t.scopes);
    LastScope(Track(t.scopes, h));
    assert Track(t.scopes, h)[..n] == t.scopes[..n];
    assert Concat(t.scopes[..n]) + (t.scopes[n] + [h]) == Tracked(t) + [h];
    if t.free != [] {
      assert h in t.free && t.free == t.free[..|t.free| - 1] + [h];
    }
  }

  lemma CreateInv(t: Table, v: Value)
    requires Inv(t)
    ensures Inv(Create(t, v).table)
  {
    hide NoDup;
    if v.Other? {
      hide Create, Tracked;
      CreateIs(t, v);
      var c := Create(t, v);
      Singleton(c.handle);
      NoDupAppend(Tracked(t), [c.handle]);
      assert c.table.handles[..4] == t.handles[..4];
      assert Apart(Tracked(t), [c.handle]);
      assert NoDup(Tracked(c.table));
      if t.free != [] {
        NoDupAppend(c.table.free, [c.handle]);
        assert c.handle in [c.handle];
        assert forall x :: x in c.table.free + [c.handle] <==> x in c.table.free || x == c.handle;
      }
      assert forall x :: x in Tracked(c.table) <==> x in Tracked(t) || x == c.handle;
    }
  }

  lemma Singleton(h: nat)
    ensures NoDup([h]) && NoDup([])
  {
  }

  /** Which handles closing a scope frees: those of the scope that no reference holds. */
  function Unheld(refs: map<int, int>, hs: seq<nat>): seq<nat> {
    if hs == [] then []
    else (if hs[0] in refs then [] else [hs[0]]) + Unheld(refs, hs[1..])
  }

  lemma {:induction false} UnheldMembers(refs: map<int, int>, hs: seq<nat>)
    ensures NoDup(hs) ==> NoDup(Unheld(refs, hs))
    ensures forall h :: h in Unheld(refs, hs) <==> h in hs && h !in refs
  {
    if hs != [] {
      hide NoDup;
      UnheldMembers(refs, hs[1..]);
      assert hs == [hs[0]] + hs[1..];
      Singleton(hs[0]);
      NoDupAppend([hs[0]], hs[1..]);
      NoDupAppend([hs[0]], Unheld(refs, hs[1..]));
    }
  }

  lemma {:induction false} FreeAllIs(t: Table, hs: seq<nat>)
    requires forall i :: 0 <= i < |hs| ==> 4 <= hs[i] < |t.handles|
    ensures Slots(t, hs)
    ensures var r := FreeAll(t, hs);
            && r.free == t.free + Unheld(t.refs, hs)
            && r.scopes == t.scopes && r.refs == t.refs && |r.handles| == |t.handles|
            && forall h :: 0 <= h < |t.handles| ==>
                 r.handles[h] == if h in hs && h !in t.refs then Undefined else t.handles[h]
    decreases |hs|
  {
    if hs != [] {
      var u := FreeHandle(t, hs[0]);
      FreeAllIs(u, hs[1..]);
      assert hs == [hs[0]] + hs[1..];
      assert u.free + Unheld(t.refs, hs[1..]) == t.free + Unheld(t.refs, hs);
    }
  }

  /** Closing a scope: its unreferenced handles become free, nothing else is touched. */
  lemma CloseIs(t: Table)
    requires Inv(t) && |t.scopes| > 1
    ensures var r, n := CloseScope(t), |t.scopes| - 1;
            && r.free == t.free + Unheld(t.refs, t.scopes[n])
            && r.scopes == t.scopes[..n] && r.refs == t.refs && |r.handles| == |t.handles|
            && (forall h :: 0 <= h < |t.handles| ==>
                 r.handles[h] == if h in t.scopes[n] && h !in t.refs then Undefined else t.handles[h])
  {
    hide NoDup;
    var n := |t.scopes| - 1;
    InnermostSlots(t);
    FreeAllIs(t.(scopes := t.scopes[..n]), t.scopes[n]);
  }

  /** Moving some of `last` to `free` and dropping the rest. */
  lemma NoDupMove(free: seq<nat>, before: seq<nat>, last: seq<nat>, moved: seq<nat>)
    requires NoDup(free) && NoDup(before + last) && Apart(free, before + last)
    requires (NoDup(last) ==> NoDup(moved)) && forall h :: h in moved ==> h in last
    ensures NoDup(free + moved) && NoDup(before) && Apart(free + moved, before)
    ensures forall x :: x in free + moved <==> x in free || x in moved
    ensures forall x :: x in before + last <==> x in before || x in last
  {
    hide NoDup;
    NoDupAppend(before, last);
    NoDupAppend(free, moved);
    assert forall x :: x in before + last <==> x in before || x in last;
    assert forall x :: x in free + moved <==> x in free || x in moved;
  }

  lemma CloseInv(t: Table)
    requires Inv(t)
    ensures Inv(CloseScope(t))
  {
    if |t.scopes| > 1 {
      hide CloseScope, NoDup;
      CloseIs(t);
      var n := |t.scopes| - 1;
      var r := CloseScope(t);
      LastScope(t.scopes);
      UnheldMembers(t.refs, t.scopes[n]);
      assert Tracked(t) == Tracked(r) + t.scopes[n];
      NoDupMove(t.free, Tracked(r), t.scopes[n], Unheld(t.refs, t.scopes[n]));
      hide Apart, Tracked;
      InnermostSlots(t);
      forall k | 0 <= k < 4 ensures r.handles[k] == t.handles[k] {
      }
      assert r.handles[..4] == t.handles[..4];
    }
  }

  lemma StepInv(t: Table, op: Op)
    requires Inv(t) && Allowed(t, op)
    ensures Inv(Apply(t, op))
  {
    hide Create, CloseScope, NoDup, Apart;
    match op
    case CreateOp(v) => CreateInv(t, v);
    case OpenOp => OpenTracks(t);
    case CloseOp => CloseInv(t);
    case _ => assert Tracked(Apply(t, op)) == Tracked(t);
  }

  lemma OpenTracks(t: Table)
    ensures Tracked(OpenScope(t)) == Tracked(t)
  {
    ConcatAppend(t.scopes, []);
  }

  /** A handle gets out of use in one way only: its scope, the innermost, closes while no reference holds it. */
  lemma StepFrees(t: Table, op: Op, h: nat)
    requires Inv(t) && Allowed(t, op) && h !in t.free
    ensures h in Apply(t, op).free <==>
            op.CloseOp? && |t.scopes| > 1 && h in t.scopes[|t.scopes| - 1] && h !in t.refs
  {
    hide Create, CloseScope, NoDup;
    if op.CreateOp? && op.value.Other? {
      CreateIs(t, op.value);
    } else if op.CreateOp? {
      CreateKnown(t, op.value);
    } else if op.CloseOp? && |t.scopes| > 1 {
      CloseIs(t);
      UnheldMembers(t.refs, t.scopes[|t.scopes| - 1]);
    } else if op.CloseOp? {
      CloseLast(t);
    }
  }

  lemma CloseLast(t: Table)
    requires Inv(t) && |t.scopes| == 1
    ensures CloseScope(t) == t
  {
  }

  /** A value with a fixed handle changes nothing; every created handle resolves to its value. */
  lemma CreateKnown(t: Table, v: Value)
    requires Inv(t)
    ensures var c := Create(t, v);
            && Resolve(c.table, c.handle) == Some(v)
            && (!v.Other? ==> c.table == t && c.handle in {1, 2, 3})
  {
    hide NoDup, Apart;
    assert forall k :: 0 <= k < 4 ==> t.handles[..4][k] == WELL_KNOWN[k];
    if v.Other? && t.free != [] {
      assert Create(t, v).handle in t.free;
    }
  }

  /** While a handle is not free, its value stays. */
  lemma StepKeepsValue(t: Table, op: Op, h: nat)
    requires Inv(t) && Allowed(t, op) && h < |t.handles| && h !in t.free
    requires h !in Apply(t, op).free
    ensures h < |Apply(t, op).handles| && Apply(t, op).handles[h] == t.handles[h]
  {
    StepFrees(t, op, h);
    hide Create, CloseScope, NoDup;
    if op.CreateOp? && op.value.Other? {
      CreateIs(t, op.value);
    } else if op.CreateOp? {
      CreateKnown(t, op.value);
    } else if op.CloseOp? && |t.scopes| > 1 {
      CloseIs(t);
    } else if op.CloseOp? {
      CloseLast(t);
    }
  }

  // ---------- runs ----------

  ghost predicate IsRun(run: seq<Table>, ops: seq<Op>) {
    && |run| == |ops| + 1 && run[0] == Initial()
    && forall i :: 0 <= i < |ops| ==> Usable(run[i]) && Allowed(run[i], ops[i]) && run[i + 1] == Apply(run[i], ops[i])
  }

  lemma {:induction false} RunInv(run: seq<Table>, ops: seq<Op>, i: nat)
    requires IsRun(run, ops) && i < |run|
    ensures Inv(run[i])
  {
    if i == 0 {
      assert Initial().scopes[1..] == [];
    } else {
      RunInv(run, ops, i - 1);
      StepInv(run[i - 1], ops[i - 1]);
    }
  }

  /** In every reachable state a live handle is allocated and not free. */
  lemma LiveNotFree(t: Table, h: nat)
    requires Inv(t) && Live(t, h)
    ensures h < |t.handles| && h !in t.free
  {
    hide NoDup;
  }

  /**
   * Handle safety: from any point of any run, as long as a handle stays in a
   * scope or referenced, it resolves to the same value.
   */
  lemma {:induction false} RunKeepsValue(run: seq<Table>, ops: seq<Op>, i: nat, j: nat, h: nat)
    requires IsRun(run, ops) && i <= j < |run|
    requires forall k :: i <= k <= j ==> Live(run[k], h)
    ensures Resolve(run[i], h).Some? && Resolve(run[j], h) == Resolve(run[i], h)
    decreases j
  {
    hide Apply, Inv;
    RunInv(run, ops, i);
    LiveNotFree(run[i], h);
    if i < j {
      RunKeepsValue(run, ops, i, j - 1, h);
      RunInv(run, ops, j - 1);
      RunInv(run, ops, j);
      LiveNotFree(run[j - 1], h);
      LiveNotFree(run[j], h);
      StepKeepsValue(run[j - 1], ops[j - 1], h);
    }
  }

  /** What is created gets a handle that was not live, is live at once, and resolves to the value as long as it is live. */
  lemma {:induction false} RunCreated(run: seq<Table>, ops: seq<Op>, i: nat, j: nat)
    requires IsRun(run, ops) && i < |ops| && ops[i].CreateOp? && ops[i].value.Other? && i < j < |run|
    requires forall k :: i < k <= j ==> Live(run[k], Create(run[i], ops[i].value).handle)
    ensures var h := Create(run[i], ops[i].value).handle;
            !Live(run[i], h) && Scoped(run[i + 1], h) && Resolve(run[j], h) == Some(ops[i].value)
  {
    hide Create, NoDup, Apart;
    RunInv(run, ops, i);
    CreateIs(run[i], ops[i].value);
    CreateKnown(run[i], ops[i].value);
    var h := Create(run[i], ops[i].value).handle;
    RunKeepsValue(run, ops, i + 1, j, h);
  }

  /**
   * The price: a handle that outlived its scope through a reference is never
   * given back. Once neither free nor in a scope, it is so for the rest of the run.
   */
  lemma {:induction false} RunNeverRecycled(run: seq<Table>, ops: seq<Op>, i: nat, j: nat, h: nat)
    requires IsRun(run, ops) && i <= j < |run|
    requires 4 <= h < |run[i].handles| && OutOfPool(run[i], h)
    ensures h < |run[j].handles| && OutOfPool(run[j], h)
    decreases j
  {
    hide Apply, Inv;
    if i < j {
      RunNeverRecycled(run, ops, i, j - 1, h);
      RunInv(run, ops, j - 1);
      StepKeepsOutOfPool(run[j - 1], ops[j - 1], h);
    }
  }

  lemma StepKeepsOutOfPool(t: Table, op: Op, h: nat)
    requires Inv(t) && Allowed(t, op) && 4 <= h < |t.handles| && OutOfPool(t, h)
    ensures h < |Apply(t, op).handles| && OutOfPool(Apply(t, op), h)
  {
    hide Create, CloseScope, NoDup;
    if op.CreateOp? && op.value.Other? {
      CreateIs(t, op.value);
    } else if op.CreateOp? {
      CreateKnown(t, op.value);
    } else if op.CloseOp? && |t.scopes| > 1 {
      CloseIs(t);
      LastScope(t.scopes);
      UnheldMembers(t.refs, t.scopes[|t.scopes| - 1]);
    } else if op.CloseOp? {
      CloseLast(t);
    } else if op.OpenOp? {
      OpenTracks(t);
    }
  }

  /** `k` counts taken back one after the other. */
  function UnreferenceTimes(t: Table, h: int, k: nat): Table
    decreases k
  {
    if k == 0 then t else UnreferenceTimes(Unreference(t, h), h, k - 1)
  }

  /**
   * A reference made with `n` counts lasts for exactly `n` of them: until the
   * last is taken back it is there with what is left, and gives its handle.
   */
  lemma ReferenceLasts(t: Table, h: int, n: nat, k: nat)
    requires n >= 1
    ensures var u := UnreferenceTimes(CreateReference(t, h, n), h, k);
            && (h in u.refs <==> k < n)
            && (k < n ==> u.refs == t.refs[h := n - k] && ReferenceValue(u, h) == h)
            && (k >= n ==> u.refs == t.refs - {h} && ReferenceValue(u, h) == 0)
            && u.handles == t.handles && u.free == t.free && u.scopes == t.scopes
  {
    CountsDown(CreateReference(t, h, n), h, n, k);
  }

  lemma {:induction false} CountsDown(t: Table, h: int, n: nat, k: nat)
    requires n >= 1 && h in t.refs && t.refs[h] == n
    ensures var u := UnreferenceTimes(t, h, k);
            && u.refs == (if k < n then t.refs[h := n - k] else t.refs - {h})
            && u.handles == t.handles && u.free == t.free && u.scopes == t.scopes
    decreases k
  {
    if k == 0 {
      assert t.refs == t.refs[h := n];
    } else if n > 1 {
      CountsDown(Unreference(t, h), h, n - 1, k - 1);
    } else {
      NoneLeft(Unreference(t, h), h, k - 1);
    }
  }

  lemma {:induction false} NoneLeft(t: Table, h: int, k: nat)
    requires h !in t.refs
    ensures UnreferenceTimes(t, h, k) == t
    decreases k
  {
    if k > 0 {
      NoneLeft(t, h, k - 1);
    }
  }

  /** Taking back a reference count undoes giving it exactly while the count was at least 1. */
  lemma RefUnrefInverse(t: Table, h: int)
    requires h in t.refs
    ensures Unreference(Reference(t, h), h) == t <==> t.refs[h] >= 1
    ensures t.refs[h] < 1 ==> Unreference(Reference(t, h), h) == DeleteReference(t, h)
  {
    var r := Unreference(Reference(t, h), h);
    if t.refs[h] >= 1 {
      assert r.refs == t.refs;
    } else {
      assert h !in r.refs && r.refs == t.refs - {h};
    }
  }

  // ---------- where safety ends ----------

  /** Making a reference keeps the invariant exactly on a handle that is allocated and not free. */
  lemma ReferenceSafeIff(t: Table, h: int, count: int)
    requires Inv(t)
    ensures Inv(CreateReference(t, h, count)) <==> 0 <= h < |t.handles| && h !in t.free
  {
    hide NoDup, Apart;
    var r := CreateReference(t, h, count);
    assert h in r.refs && Tracked(r) == Tracked(t);
  }

  /** Freeing a handle directly keeps the invariant exactly when it does nothing or the handle is in no scope and not free. */
  lemma FreeSafeIff(t: Table, h: nat)
    requires Inv(t) && h < |t.handles|
    ensures Inv(FreeHandle(t, h)) <==> h <= 3 || h in t.refs || OutOfPool(t, h)
  {
    hide NoDup;
    var r := FreeHandle(t, h);
    if h > 3 && h !in t.refs {
      Singleton(h);
      NoDupAppend(t.free, [h]);
      assert h in r.free && Tracked(r) == Tracked(t);
      assert r.handles[..4] == t.handles[..4];
    }
  }

  /** The state after opening a scope and creating one handle in it. */
  function Inner(): Table {
    Table(WELL_KNOWN + [Other(0)], [], [[], [4]], map[])
  }

  lemma InnerIs()
    ensures Usable(OpenScope(Initial())) && Create(OpenScope(Initial()), Other(0)) == Created(4, Inner())
    ensures Tracked(Inner()) == [4] && Tracked(Inner().(scopes := [[]])) == []
  {
    var outer: seq<seq<nat>>, one: seq<seq<nat>> := [[]], [[4]];
    assert OpenScope(Initial()).scopes == [[], []];
    assert OpenScope(Initial()).scopes[1..] == outer && outer[1..] == [] && one[1..] == [];
    assert Inner().scopes[1..] == one && Concat(one) == [4];
    var t := OpenScope(Initial());
    assert t.scopes[..1] == outer && t.scopes[1] + [4] == [4];
    assert Track(t.scopes, 4) == Inner().scopes;
  }

  /** A reference made on a handle of a closed scope does not keep the next value from taking the handle. */
  lemma StaleReferenceShared()
    ensures Usable(Inner())
    ensures var r := CreateReference(CloseScope(Inner()), 4, 1);
            Usable(r) && ReferenceValue(r, 4) == 4 && Create(r, Other(1)).handle == 4
  {
    InnerIs();
    var t := Inner().(scopes := [[]]);
    assert Inner().scopes[..1] == [[]] && [4][1..] == [];
    var closed := t.(handles := WELL_KNOWN + [Undefined], free := [4]);
    assert CloseScope(Inner()) == FreeHandle(t, 4) == closed;
    var r := CreateReference(closed, 4, 1);
    assert r.scopes == t.scopes && r.free == [4] && r.refs == map[4 := 1];
    assert Tracked(r) == Tracked(t) == [];
  }

  /** Freeing a scoped handle directly puts it on the free list twice when the scope closes: two values then share it. */
  lemma DoubleFreeShared()
    ensures Usable(FreeHandle(Inner(), 4))
    ensures var t := CloseScope(FreeHandle(Inner(), 4));
            && Usable(t) && t.free == [4, 4]
            && var first := Create(t, Other(1));
               Usable(first.table) && first.handle == 4 && Create(first.table, Other(2)).handle == 4
  {
    InnerIs();
    var freed := Inner().(handles := WELL_KNOWN + [Undefined], free := [4]);
    assert FreeHandle(Inner(), 4) == freed && Tracked(freed) == [4];
    var t := freed.(scopes := [[]]);
    assert freed.scopes[..1] == [[]] && [4][1..] == [];
    assert CloseScope(freed) == FreeHandle(t, 4) == t.(free := [4, 4]);
    SecondOf(t.(free := [4, 4]));
  }

  lemma SecondOf(t: Table)
    requires |t.handles| == 5 && t.free == [4, 4] && t.scopes == [[]]
    ensures Usable(t)
    ensures var first := Create(t, Other(1));
            Usable(first.table) && first.handle == 4 && Create(first.table, Other(2)).handle == 4
  {
    var none: seq<seq<nat>>, one: seq<seq<nat>> := [[]], [[4]];
    assert none[1..] == [] && Tracked(t) == [];
    var c := Create(t, Other(1));
    assert none[..0] == [] && none[0] + [4] == [4];
    assert c.table.free == [4] && c.table.scopes == one;
    assert one[1..] == [] && Tracked(c.table) == [4];
  }
}
