/**
 The associative array itself: lookups, edit scripts that are applied or
 cancelled, iteration and destruction.  Between operations memory holds exactly
 the cells of the array, every count is the true leaf count and every back
 pointer is right.
 */
module AssocArray {
  import opened Common
  import opened AssocTree
  import opened AssocPlace
  import opened AssocWalk
  import opened AssocRefine
  import opened AssocExact
  import AssocDelete
  import opened AssocMemory
  import opened AssocTraverse
  import opened AssocDestroy
  import opened AssocScript
  import opened AssocStage
  import opened AssocEdits
  import opened AssocGrowth
  import opened AssocShrink

  // ---------------------------------------------------- applying a script

  /** Performs the pointer writes of a script, in order. */
  method WriteScript(m0: Memory, root0: Ptr, e: Script) returns (m: Memory, root: Ptr)
    ensures m == Written(m0, e) && root == WrittenRoot(root0, e)
  {
    m, root := Put(m0, e.leaf), root0;
    m := PutSlotNumber(m, e.slotOf, e.slotTo);
    ghost var m1 := m;
    var i := 0;
    while i < |e.rebacked|
      invariant 0 <= i <= |e.rebacked| && Reback(m, e.rebacked[i..], e.backTo) == Reback(m1, e.rebacked, e.backTo)
    {
      assert e.rebacked[i..][1..] == e.rebacked[i + 1..];
      m := Put(m, Write(BackLoc(e.rebacked[i]), e.backTo));
      i := i + 1;
    }
    m, root := Put(m, e.set0), PutRoot(root, e.set0);
    m, root := Put(m, e.set1), PutRoot(root, e.set1);
  }

  ghost function Elements(p: seq<Addr>): set<Addr> {
    set x | x in p
  }

  /** The first `j + 1` nodes of the path `p` still have to be adjusted. */
  ghost predicate Adjusting(m: Memory, t: Tree, p: seq<Addr>, j: int, adj: int) {
    0 <= j < |p| && Shape(m, t, Null, -1) && Counts(m, t, Elements(p[..j + 1]), adj)
  }

  lemma {:induction false} AdjustStart(m: Memory, t: Tree, a: Addr, adj: int)
    returns (p: seq<Addr>)
    requires Shape(m, t, Null, -1) && Counts(m, t, PathSet(t, a), adj) && a in Addrs(t) && IsNodeCell(m, a)
    ensures p == Path(t, a) && |p| > 0 && p[|p| - 1] == a && Adjusting(m, t, p, |p| - 1, adj)
  {
    p := Path(t, a);
    PathLast(m, t, Null, -1, a);
    assert p[..|p|] == p;
    assert PathSet(t, a) == Elements(p);
  }

  lemma {:induction false} PathDrop(p: seq<Addr>, j: int)
    requires 0 <= j < |p| && p[j] !in p[..j]
    ensures p[j] in Elements(p[..j + 1]) && Elements(p[..j + 1]) - {p[j]} == Elements(p[..j])
    ensures j == 0 ==> Elements(p[..j]) == {}
  {
    assert p[..j + 1] == p[..j] + [p[j]];
  }

  function Bumped(m: Memory, b: Addr, adj: int): Memory
    requires IsNodeCell(m, b)
  {
    m[b := m[b].(nr := m[b].nr + adj)]
  }

  /** One node adjusted: either one less remains or all counts are right. */
  lemma {:induction false} AdjustOne(m: Memory, m': Memory, t: Tree, p: seq<Addr>, j: int, adj: int, b: Addr)
    requires Adjusting(m, t, p, j, adj) && b == p[j] && p[j] !in p[..j] && IsNodeCell(m, b) && m' == Bumped(m, b, adj)
    ensures Shape(m', t, Null, -1)
    ensures if j > 0 then Adjusting(m', t, p, j - 1, adj) else Counts(m', t, {}, 0)
  {
    assert Shape(m', t, Null, -1) by { ShapeBump(m, t, Null, -1, b, m[b].nr + adj); }
    AdjustSet(m, t, p, j, adj);
    if j == 0 { CountsNone(m', t, adj); }
  }

  lemma {:induction false} AdjustSet(m: Memory, t: Tree, p: seq<Addr>, j: int, adj: int)
    requires 0 <= j < |p| && p[j] !in p[..j] && IsNodeCell(m, p[j]) && Counts(m, t, Elements(p[..j + 1]), adj)
    ensures Counts(Bumped(m, p[j], adj), t, Elements(p[..j]), adj) && (j == 0 ==> Elements(p[..j]) == {})
  {
    PathDrop(p, j);
    CountsLess(m, t, Elements(p[..j + 1]), Elements(p[..j]), adj, p[j]);
  }

  lemma {:induction false} CountsLess(m: Memory, t: Tree, pend: set<Addr>, rest: set<Addr>, adj: int, b: Addr)
    requires Counts(m, t, pend, adj) && b in pend && pend - {b} == rest && IsNodeCell(m, b)
    ensures Counts(Bumped(m, b, adj), t, rest, adj)
  {
    CountsBump(m, t, pend, adj, b);
  }

  lemma {:induction false} CountsNone(m: Memory, t: Tree, adj: int)
    requires Counts(m, t, {}, adj)
    ensures Counts(m, t, {}, 0)
  {
    CountsFrame(m, m, t, {}, adj, {}, 0);
  }

  lemma {:induction false} AdjustLinks(m: Memory, t: Tree, a: Addr, p: seq<Addr>, j: int)
    requires WF(t, []) && Distinct(t) && Shape(m, t, Null, -1) && p == Path(t, a) && 0 <= j < |p|
    ensures p[j] !in p[..j] && IsNodeCell(m, p[j]) && Climbable(m, m[p[j]].back)
    ensures NodeAbove(m, m[p[j]].back) == if j == 0 then None else Some(p[j - 1])
  {
    PathLinks(m, t, [], Null, -1, None, a, j);
    PathNoDup(t, a, j);
  }

  /** The next node up is the next one of the path, and the path ends at the root. */
  lemma {:induction false} AdjustStep(m: Memory, t: Tree, a: Addr, p: seq<Addr>, j: int, adj: int, b: Addr)
    requires WF(t, []) && Distinct(t) && p == Path(t, a) && Adjusting(m, t, p, j, adj) && b == p[j]
    ensures IsNodeCell(m, b) && Shape(Bumped(m, b, adj), t, Null, -1)
    ensures if j > 0 then Adjusting(Bumped(m, b, adj), t, p, j - 1, adj) else Counts(Bumped(m, b, adj), t, {}, 0)
    ensures var back := Bumped(m, b, adj)[b].back;
            && Climbable(Bumped(m, b, adj), back) && NodeAbove(Bumped(m, b, adj), back) == if j == 0 then None else Some(p[j - 1])
  {
    AdjustLinks(m, t, a, p, j);
    AdjustOne(m, Bumped(m, b, adj), t, p, j, adj, b);
    AdjustLinks(Bumped(m, b, adj), t, a, p, j);
  }

  /** The node above, past the shortcut there may be in between. */
  method ClimbFrom(m: Memory, node: Addr) returns (up: Option<Addr>)
    requires IsNodeCell(m, node) && Climbable(m, m[node].back)
    ensures up == NodeAbove(m, m[node].back)
  {
    var ptr := m[node].back;
    if ptr == Null { return None; }
    if ptr.ShortcutPtr? {
      ptr := m[ptr.addr].back;
      if ptr == Null { return None; }
    }
    assert ptr.NodePtr?;
    return Some(ptr.addr);
  }

  /** Adjusts one count and moves up. */
  method AdjustNode(m0: Memory, node: Addr, adj: int, ghost t: Tree, ghost a: Addr, ghost p: seq<Addr>, ghost j: int)
    returns (m: Memory, up: Option<Addr>)
    requires WF(t, []) && Distinct(t) && p == Path(t, a) && Adjusting(m0, t, p, j, adj) && node == p[j]
    ensures m.Keys == m0.Keys && forall b :: b in m0 && b !in p ==> m[b] == m0[b]
    ensures if j > 0 then Adjusting(m, t, p, j - 1, adj) && up == Some(p[j - 1])
            else Shape(m, t, Null, -1) && Counts(m, t, {}, 0) && up == None
  {
    AdjustStep(m0, t, a, p, j, adj, node);
    m := Bumped(m0, node, adj);
    up := ClimbFrom(m, node);
  }

  /** Adjusts the leaf counts from a node up to the root, climbing by back pointers. */
  method AdjustCounts(m0: Memory, a: Addr, adj: int, ghost t: Tree) returns (m: Memory)
    requires WF(t, []) && Distinct(t) && Shape(m0, t, Null, -1) && Counts(m0, t, PathSet(t, a), adj) && a in Addrs(t) && IsNodeCell(m0, a)
    ensures Shape(m, t, Null, -1) && Counts(m, t, {}, 0) && m.Keys == m0.Keys
    ensures forall b :: b in m0 && b !in Path(t, a) ==> m[b] == m0[b]
  {
    m := m0;
    var up := Some(a);
    ghost var p := AdjustStart(m, t, a, adj);
    ghost var j := |p| - 1;
    while up.Some?
      invariant if up.Some? then Adjusting(m, t, p, j, adj) && up.value == p[j] else Shape(m, t, Null, -1) && Counts(m, t, {}, 0)
      invariant m.Keys == m0.Keys && forall b :: b in m0 && b !in p ==> m[b] == m0[b]
      decreases up.Some?, j
    {
      m, up := AdjustNode(m, up.value, adj, t, a, p, j);
      j := j - 1;
    }
  }

  /** What is released once no reader can see the old tree any more. */
  ghost function Releases(e: Script, gone: Tree): seq<Event> {
    (if e.deadLeaf.Some? then [FreeLeaf(e.deadLeaf.value)] else [])
    + (if e.excisedMeta.Some? then [FreeMeta(e.excisedMeta.value)] else [])
    + (if e.excisedSubtree != Null then Destroys(gone, e.ops) else [])
  }

  /** The deferred part: frees the dead leaf, the replaced cell or the cut-off subtree. */
  method RcuCleanup(m0: Memory, e: Script, ghost left: set<Addr>, ghost gone: Tree, ghost at: Ctx)
    returns (m: Memory, log: seq<Event>)
    requires Excised(m0, e, left, gone, at)
    ensures m == m0 - left && log == Releases(e, gone)
  {
    m, log := m0, [];
    if e.deadLeaf.Some? { log := log + [FreeLeaf(e.deadLeaf.value)]; }
    if e.excisedMeta.Some? { m, log := m - {e.excisedMeta.value}, log + [FreeMeta(e.excisedMeta.value)]; }
    if e.excisedSubtree != Null {
      var more;
      m, more := DestroyCutOff(m, e.excisedSubtree, e.ops, gone, at);
      log := log + more;
    }
  }

  lemma {:induction false} CutOffShape(m: Memory, t: Tree, at: Ctx)
    requires Meta(t) && Distinct(t) && WF(t, at.pre) && Shape(m, t, at.back, at.slot)
    ensures var n := Put(m, Write(BackLoc(t.addr), Null)); Shape(n, t, Null, -1) && n.Keys == m.Keys && n - Addrs(t) == m - Addrs(t)
  {
    var n := Put(m, Write(BackLoc(t.addr), Null));
    assert n == m[t.addr := WithBack(m[t.addr], Null)];
    assert Shape(n, t, Null, -1) by { ShapeRehang(m, n, t, at.back, at.slot, Null, -1); }
    OneCellLess(m, t.addr, WithBack(m[t.addr], Null), Addrs(t));
  }

  lemma {:induction false} OneCellLess(m: Memory, a: Addr, cell: Cell, s: set<Addr>)
    requires a in m && a in s
    ensures m[a := cell] - s == m - s && m[a := cell].Keys == m.Keys
  {}

  /** Destroys a subtree after cutting it off from what it used to hang from. */
  method DestroyCutOff(m0: Memory, p: Ptr, ops: bool, ghost gone: Tree, ghost at: Ctx)
    returns (m: Memory, log: seq<Event>)
    requires p == PtrOf(gone) && Meta(gone) && Distinct(gone) && WF(gone, at.pre) && Shape(m0, gone, at.back, at.slot)
    ensures m == m0 - Addrs(gone) && log == Destroys(gone, ops)
  {
    m := Put(m0, Write(BackLoc(p.addr), Null));
    CutOffShape(m0, gone, at);
    m, log := DestroySubtree(m, p, ops, gone, Ctx(at.pre, Null, -1));
  }

  lemma {:induction false} ExcisedFrame(m: Memory, m': Memory, e: Script, left: set<Addr>, gone: Tree, at: Ctx)
    requires Excised(m, e, left, gone, at) && Agree(m, m', left)
    ensures Excised(m', e, left, gone, at)
  {
    if e.excisedSubtree != Null { ShapeFrame(m, m', gone, at.back, at.slot); }
  }

  lemma {:induction false} AdjustLeaves(m: Memory, m': Memory, t: Tree, a: Addr, left: set<Addr>)
    requires left !! Addrs(t) && m'.Keys == m.Keys && forall b :: b in m && b !in Path(t, a) ==> m'[b] == m[b]
    ensures Agree(m, m', left)
  {
    PathInside(t, a);
  }

  /** The pointers and counts of an applied script, before the clean-up. */
  method WriteAndCount(m0: Memory, root0: Ptr, nr0: int, e: Script, ghost t: Tree, ghost t': Tree,
                       ghost left: set<Addr>, ghost gone: Tree, ghost at: Ctx)
    returns (m: Memory, root: Ptr, nr: int)
    requires Scripted(m0, t, e, t', gone, at) && Array(t') && root0 == PtrOf(t) && nr0 == |Leaves(t)|
    requires left == Addrs(t) + e.newMeta - Addrs(t')
    ensures HoldsTree(m, t') && root == PtrOf(t') && nr == |Leaves(t')| && Excised(m, e, left, gone, at) && m.Keys == Written(m0, e).Keys
  {
    m, root := WriteScript(m0, root0, e);
    nr := nr0;
    if root == Null {
      nr := 0;
    } else if e.adjustOn.Some? {
      ghost var m1 := m;
      m := AdjustCounts(m, e.adjustOn.value, e.adjustBy, t');
      nr := nr + e.adjustBy;
      assert Excised(m, e, left, gone, at) by {
        AdjustLeaves(m1, m, t', e.adjustOn.value, left);
        ExcisedFrame(m1, m, e, left, gone, at);
      }
    } else {
      CountsNone(m, t', e.adjustBy);
    }
  }

  lemma {:induction false} WrittenKeys(m: Memory, e: Script)
    ensures Written(m, e).Keys == m.Keys
  {
    var m1 := PutSlotNumber(Put(m, e.leaf), e.slotOf, e.slotTo);
    forall b ensures b in Reback(m1, e.rebacked, e.backTo) <==> b in m1 { RebackAt(m1, e.rebacked, e.backTo, b); }
  }

  lemma {:induction false} CleanedHolds(m: Memory, t: Tree, left: set<Addr>)
    requires HoldsTree(m, t) && left !! Addrs(t)
    ensures HoldsTree(m - left, t)
  {
    ShapeFrame(m, m - left, t, Null, -1);
    CountsFrame(m, m - left, t, {}, 0, {}, 0);
  }

  /** Applies a script and, after the grace period, cleans up. */
  method ApplyScript(m0: Memory, root0: Ptr, nr0: int, e: Script, ghost t: Tree, ghost t': Tree, ghost gone: Tree,
                     ghost at: Ctx)
    returns (m: Memory, root: Ptr, nr: int, log: seq<Event>)
    requires Scripted(m0, t, e, t', gone, at) && Array(t') && root0 == PtrOf(t) && nr0 == |Leaves(t)|
    ensures HoldsTree(m, t') && m.Keys == Addrs(t') && root == PtrOf(t') && nr == |Leaves(t')| && log == Releases(e, gone)
  {
    ghost var left := Addrs(t) + e.newMeta - Addrs(t');
    m, root, nr := WriteAndCount(m0, root0, nr0, e, t, t', left, gone, at);
    ghost var m1 := m;
    assert m1.Keys == Addrs(t) + e.newMeta by { WrittenKeys(m0, e); }
    m, log := RcuCleanup(m, e, left, gone, at);
    CleanedHolds(m1, t', left);
    KeysLeft(m1.Keys, Addrs(t'), left);
  }

  lemma {:induction false} KeysLeft(all: set<Addr>, kept: set<Addr>, left: set<Addr>)
    requires kept <= all && left == all - kept
    ensures all - left == kept
  {}

  // ------------------------------------------------------------ the array

  lemma {:induction false} ExtendsBack(m0: Memory, m: Memory, s: set<Addr>)
    requires Extends(m0, m, s) && s !! m0.Keys
    ensures m - s == m0
  {}

  /** A script against the array `t` in memory `m`, which can be applied or given up. */
  ghost predicate Standby(m: Memory, t: Tree, e: Script, t': Tree, gone: Tree, at: Ctx) {
    && Scripted(m, t, e, t', gone, at)
    && HoldsTree(m - e.newMeta, t) && (m - e.newMeta).Keys == Addrs(t)
  }

  lemma {:induction false} ClearStandby(m: Memory, t: Tree, e: Script)
    requires HoldsTree(m, t) && t != Empty && m.Keys == Addrs(t)
    requires e == BLANK_SCRIPT.(set1 := Write(RootLoc, Null), excisedSubtree := PtrOf(t), ops := true)
    ensures Standby(m, t, e, Empty, t, TOP)
  {
    TwoWritten(m, e);
    CutOff(m, m, t, e, t);
    assert m - e.newMeta == m;
  }

  /** Lookups after the leaf `l` was put in. */
  ghost predicate Rebinds(t: Tree, l: Leaf, t': Tree) {
    forall k: Key :: Find(t', k) == if k == l.key then Found(l.obj) else Find(t, k)
  }

  /** Lookups after the key was taken out. */
  ghost predicate Unbinds(t: Tree, key: Key, t': Tree) {
    forall k: Key :: Find(t', k) == if k == key then Absent else Find(t, k)
  }

  lemma {:induction false} InsertRebinds(t: Tree, l: Leaf, t': Tree)
    requires Array(t) && InsertStep(t, l, t') && Safe(t, l.key)
    ensures Array(t') && Rebinds(t, l, t')
  {
    InsertRefinesMap(t, l, t');
    InsertExact(t, l, t');
  }

  lemma {:induction false} UnboundLookup(m: map<Key, Obj>, key: Key, k: Key)
    ensures Lookup(m - {key}, k) == if k == key then Absent else Lookup(m, k)
  {}

  lemma {:induction false} DeleteUnbinds(t: Tree, key: Key, t': Tree)
    requires Array(t) && AssocDelete.DeleteStep(t, key, t')
    ensures Array(t') && Unbinds(t, key, t')
  {
    AssocDelete.DeleteRefinesMap(t, key, t');
    var m := Contents(t);
    forall k: Key ensures Find(t', k) == if k == key then Absent else Find(t, k) {
      FindIn(t, m, k);
      FindIn(t', m - {key}, k);
      UnboundLookup(m, key, k);
    }
  }

  /** Between two logs of releases, exactly the object found under `k` was freed, once, if any. */
  ghost predicate FreesOnly(before: seq<Event>, after: seq<Event>, t: Tree, k: Key) {
    forall x :: LeafFrees(after, x) == LeafFrees(before, x) + if Find(t, k) == Found(x.obj) && x.key == k then 1 else 0
  }

  lemma {:induction false} RetiresOnly(log: seq<Event>, t: Tree, k: Key, e: Script, gone: Tree, at: Ctx)
    requires Retires(t, k, e) && (e.excisedSubtree != Null ==> WF(gone, at.pre))
    ensures FreesOnly(log, log + Releases(e, gone), t, k)
  {
    forall x ensures LeafFrees(log + Releases(e, gone), x) == LeafFrees(log, x) + if Find(t, k) == Found(x.obj) && x.key == k then 1 else 0 {
      ReleasedLeaf(t, k, e, gone, at, x);
      LeafFreesSum(log, Releases(e, gone), x);
    }
  }

  lemma {:induction false} ReleasedLeaf(t: Tree, k: Key, e: Script, gone: Tree, at: Ctx, x: Leaf)
    requires Retires(t, k, e) && (e.excisedSubtree != Null ==> WF(gone, at.pre))
    ensures LeafFrees(Releases(e, gone), x) == if Find(t, k) == Found(x.obj) && x.key == k then 1 else 0
  {
    var a := if e.deadLeaf.Some? then [FreeLeaf(e.deadLeaf.value)] else [];
    var b := if e.excisedMeta.Some? then [FreeMeta(e.excisedMeta.value)] else [];
    var c := if e.excisedSubtree != Null then Destroys(gone, e.ops) else [];
    if e.excisedSubtree != Null { DestroysLeaves(gone, e.ops, at.pre, x); }
    LeafFreesSum(a + b, c, x);
    LeafFreesSum(a, b, x);
  }

  class KeyedArray {
    var cells: Memory
    var root: Ptr
    var nrLeavesOnTree: int
    var released: seq<Event>
    ghost var tree: Tree

    ghost predicate Valid()
      reads this
    {
      HoldsTree(cells, tree) && cells.Keys == Addrs(tree) && root == PtrOf(tree) && nrLeavesOnTree == |Leaves(tree)|
    }

    /** Between scripting an edit and applying or cancelling it. */
    ghost predicate Staged(e: Script, t': Tree, gone: Tree, at: Ctx)
      reads this
    {
      Standby(cells, tree, e, t', gone, at) && root == PtrOf(tree) && nrLeavesOnTree == |Leaves(tree)|
    }

    constructor ()
      ensures Valid() && tree == Empty && released == []
    {
      cells, root, nrLeavesOnTree, released, tree := map[], Null, 0, [], Empty;
    }

    method Lookup(k: Key) returns (found: Option<Obj>)
      requires Valid()
      ensures Find(tree, k) == AsAnswer(found)
    {
      found := FindCells(cells, root, k, tree);
    }

    /** Visits every leaf once, in the order of the recursive traversal, until the callback answers non-zero. */
    method Iterate(callback: Leaf -> int) returns (ret: int, visited: seq<Leaf>)
      requires Valid()
      ensures visited <= Visits(tree) && multiset(Visits(tree)) == Leaves(tree)
      ensures ret == 0 ==> multiset(visited) == Leaves(tree) && forall x :: x in visited ==> callback(x) == 0
      ensures ret != 0 ==> visited != [] && callback(visited[|visited| - 1]) == ret && forall x :: x in visited[..|visited| - 1] ==> callback(x) == 0
    {
      if root == Null { return 0, []; }
      ret, visited := SubtreeIterate(cells, root, Null, callback, tree, TOP);
      VisitsLeaves(tree, []);
    }

    /**
     Scripts an insertion; without memory nothing changes.  `room` is how many more
     allocations succeed, the first of them for the script itself.
     */
    method Insert(l: Leaf, room: nat) returns (r: Option<Script>, ghost t': Tree)
      requires Valid()
      modifies `cells
      ensures r.Some? <==> room >= 1 + InsertNeed(tree, l)
      ensures r.None? ==> Valid() && cells == old(cells)
      ensures r.Some? ==> InsertStep(tree, l, t') && Staged(r.value, t', Empty, TOP) && cells - r.value.newMeta == old(cells)
      ensures r.Some? ==> Retires(tree, l.key, r.value)
    {
      if room == 0 { return None, tree; }
      var ok, m, e;
      ok, m, e, t' := ScriptInsert(cells, root, l, room - 1, tree);
      ExtendsBack(cells, m, e.newMeta);
      cells := if ok then m else m - e.newMeta;
      r := if ok then Some(e) else None;
    }

    /** Scripts a deletion; nothing changes if the key is not there or memory runs out. */
    method Delete(k: Key, room: nat) returns (v: Verdict, e: Script, ghost t': Tree, ghost gone: Tree, ghost at: Ctx)
      requires Valid()
      modifies `cells
      ensures v == NotFound <==> room > 0 && Find(tree, k) == Absent
      ensures v == Edited <==> Find(tree, k).Found? && room >= 1 + DeleteNeed(tree, k)
      ensures v != Edited ==> Valid() && cells == old(cells)
      ensures v == Edited ==> AssocDelete.DeleteStep(tree, k, t') && Staged(e, t', gone, at) && cells - e.newMeta == old(cells)
      ensures v == Edited ==> Retires(tree, k, e)
    {
      if room == 0 { return NoMemory, BLANK_SCRIPT, tree, Empty, TOP; }
      var m;
      v, m, e, t', gone, at := ScriptDelete(cells, root, nrLeavesOnTree, k, room - 1, tree);
      ExtendsBack(cells, m, e.newMeta);
      cells := if v == Edited then m else m - e.newMeta;
    }

    /** Scripts the removal of everything; there is nothing to script in an empty array. */
    method Clear(room: nat) returns (v: Verdict, e: Script)
      requires Valid()
      ensures v == NotFound <==> tree == Empty
      ensures v == Edited <==> tree != Empty && room > 0
      ensures v == Edited ==> Staged(e, Empty, tree, TOP) && e.ops && e.deadLeaf == None
    {
      if root == Null { return NotFound, BLANK_SCRIPT; }
      if room == 0 { return NoMemory, BLANK_SCRIPT; }
      e := BLANK_SCRIPT.(set1 := Write(RootLoc, Null), excisedSubtree := root, ops := true);
      ClearStandby(cells, tree, e);
      v := Edited;
    }

    /** Carries a script out: links, counts and memory are those of the new tree. */
    method ApplyEdit(e: Script, ghost t': Tree, ghost gone: Tree, ghost at: Ctx)
      requires Staged(e, t', gone, at) && Array(t')
      modifies this
      ensures Valid() && tree == t' && released == old(released) + Releases(e, gone)
    {
      var m, top, nr, log := ApplyScript(cells, root, nrLeavesOnTree, e, tree, t', gone, at);
      Install(m, top, nr, log, t');
    }

    method Install(m: Memory, top: Ptr, nr: int, log: seq<Event>, ghost t': Tree)
      requires HoldsTree(m, t') && m.Keys == Addrs(t') && top == PtrOf(t') && nr == |Leaves(t')|
      modifies this
      ensures Valid() && tree == t' && released == old(released) + log
    {
      cells, root, nrLeavesOnTree, released, tree := m, top, nr, released + log, t';
    }

    /** Gives a script up: its cells go and everything is as it was. */
    method CancelEdit(e: Script, ghost t': Tree, ghost gone: Tree, ghost at: Ctx)
      requires Staged(e, t', gone, at)
      modifies `cells
      ensures Valid() && cells == old(cells) - e.newMeta
    {
      cells := cells - e.newMeta;
    }

    /**
     Frees everything at once.  The leaf count is not reset, so the array is fit
     for use again exactly if it was empty to begin with.
     */
    method Destroy(ops: bool)
      requires Valid()
      modifies this
      ensures cells == map[] && root == Null && tree == Empty && released == old(released) + Destroys(old(tree), ops)
      ensures nrLeavesOnTree == old(nrLeavesOnTree)
      ensures Valid() <==> old(tree) == Empty
    {
      if root != Null {
        var log;
        cells, log := DestroySubtree(cells, root, ops, tree, TOP);
        released := released + log;
      }
      root, tree := Null, Empty;
    }
  
    // ---------------------------------------------- whole operations

    /** An insertion script for a key that is safe to insert, and the lookups after it. */
    method PrepareAssign(l: Leaf, room: nat) returns (r: Option<Script>, ghost t': Tree)
      requires Valid() && Safe(tree, l.key)
      modifies `cells
      ensures r.Some? <==> room >= 1 + InsertNeed(tree, l)
      ensures r.None? ==> Valid()
      ensures r.Some? ==> Staged(r.value, t', Empty, TOP) && Array(t') && Rebinds(tree, l, t') && Retires(tree, l.key, r.value)
    {
      assert Array(tree);
      r, t' := Insert(l, room);
      if r.Some? { InsertRebinds(tree, l, t'); }
    }

    method PrepareRemove(k: Key, room: nat)
      returns (v: Verdict, e: Script, ghost t': Tree, ghost gone: Tree, ghost at: Ctx)
      requires Valid()
      modifies `cells
      ensures v == NotFound <==> room > 0 && Find(tree, k) == Absent
      ensures v == Edited <==> Find(tree, k).Found? && room >= 1 + DeleteNeed(tree, k)
      ensures v != Edited ==> Valid()
      ensures v == Edited ==> Staged(e, t', gone, at) && Array(t') && Unbinds(tree, k, t') && Retires(tree, k, e)
    {
      assert Array(tree);
      v, e, t', gone, at := Delete(k, room);
      if v == Edited { DeleteUnbinds(tree, k, t'); }
    }

    /**
     Insert and apply: exactly the one lookup changes.  The source does not meet
     this on the keys that `Safe` shuts out.
     */
    method Assign(l: Leaf, room: nat) returns (ok: bool)
      requires Valid() && Safe(tree, l.key)
      modifies this
      ensures ok <==> room >= 1 + InsertNeed(old(tree), l)
      ensures Valid() && if ok then Rebinds(old(tree), l, tree) else tree == old(tree) && released == old(released)
      ensures ok ==> FreesOnly(old(released), released, old(tree), l.key)
    {
      var r;
      ghost var t';
      r, t' := PrepareAssign(l, room);
      ok := r.Some?;
      if ok {
        RetiresOnly(released, tree, l.key, r.value, Empty, TOP);
        ApplyEdit(r.value, t', Empty, TOP);
      }
    }

    /** Delete and apply: exactly the one lookup fails from now on. */
    method Remove(k: Key, room: nat) returns (v: Verdict)
      requires Valid()
      modifies this
      ensures v == NotFound <==> room > 0 && Find(old(tree), k) == Absent
      ensures v == Edited <==> Find(old(tree), k).Found? && room >= 1 + DeleteNeed(old(tree), k)
      ensures Valid() && if v == Edited then Unbinds(old(tree), k, tree) else tree == old(tree) && released == old(released)
      ensures v == Edited ==> FreesOnly(old(released), released, old(tree), k)
    {
      var e;
      ghost var t', gone, at;
      v, e, t', gone, at := PrepareRemove(k, room);
      if v == Edited {
        RetiresOnly(released, tree, k, e, gone, at);
        ApplyEdit(e, t', gone, at);
      }
    }
  }
}
