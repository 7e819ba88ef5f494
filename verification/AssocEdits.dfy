/**
 From prepared cells to a finished script: for every kind of edit, performing the
 writes of its script turns the array's tree into the tree the edit stands for.
 */
module AssocEdits {
  import opened Common
  import opened AssocTree
  import opened AssocPlace
  import opened AssocWalk
  import opened AssocInsert
  import opened AssocRefine
  import opened AssocDelete
  import opened AssocMemory
  import opened AssocSlots
  import opened AssocScript
  import opened AssocPlans
  import opened AssocStage

  /** Memory holds exactly the array `t`. */
  ghost predicate HoldsTree(m: Memory, t: Tree) {
    Array(t) && Shape(m, t, Null, -1) && Counts(m, t, {}, 0)
  }

  lemma {:induction false} ExtendsHolds(m0: Memory, m: Memory, t: Tree, s: set<Addr>)
    requires HoldsTree(m0, t) && m0.Keys == Addrs(t) && Extends(m0, m, s) && s !! Addrs(t)
    ensures HoldsTree(m, t)
  {
    ShapeFrame(m0, m, t, Null, -1);
    CountsFrame(m0, m, t, {}, 0, {}, 0);
  }

  /** A replacement that adds one leaf and leaves one old cell over. */
  ghost predicate Replaces(t: Tree, sub: Tree, d: Ctx, u: Tree, e: Script, on: Addr) {
    && Located(t, TOP, sub, d) && Meta(sub) && Fresh(t, sub, u) && sub.addr !in Addrs(u)
    && e.newMeta !! Addrs(t) && Addrs(sub) + e.newMeta == Addrs(u) + {sub.addr}
    && |Leaves(u)| == |Leaves(sub)| + 1 && on in Addrs(u)
    && e.set0 == Write(ParentLoc(d), PtrOf(u)) && !e.set1.at.RootLoc?
    && e.adjustOn == Some(on) && e.adjustBy == 1 && e.excisedSubtree == Null && e.excisedMeta == Some(sub.addr)
  }

  lemma {:induction false} ReplacesReady(m0: Memory, m: Memory, m': Memory, t: Tree, sub: Tree, d: Ctx, u: Tree,
                                         e: Script, on: Addr)
    requires HoldsTree(m0, t) && t != Empty && m0.Keys == Addrs(t) && Extends(m0, m, e.newMeta) && Replaces(t, sub, d, u, e, on)
    requires Only(m, m', Addrs(u) + {sub.addr}) && Lies(m', u, d.back, d.slot, on)
    ensures Ready(m, m', t, sub, d, u)
  {
    ExtendsHolds(m0, m, t, e.newMeta);
    LocatedAddrs(t, TOP, sub, d);
    assert Agree(m, m', Addrs(t) - Addrs(sub));
  }

  lemma {:induction false} LeftOver(all: set<Addr>, was: set<Addr>, now: set<Addr>, added: set<Addr>, a: Addr,
                                    all': set<Addr>)
    requires was <= all && a in was && added !! all && was + added == now + {a} && a !in now && all' == all - was + now
    ensures all' <= all + added && all + added - all' == {a}
  {}

  lemma {:induction false} SubstSize(t: Tree, sub: Tree, d: Ctx, u: Tree, adj: int)
    requires Located(t, TOP, sub, d) && Distinct(t) && Meta(sub) && Meta(u) && |Leaves(u)| == |Leaves(sub)| + adj
    ensures |Leaves(Subst(t, sub.addr, u))| == |Leaves(t)| + adj
  {
    SubstLeaves(t, TOP, sub, d, u);
    assert |Leaves(Subst(t, sub.addr, u)) + Leaves(sub)| == |Leaves(t) + Leaves(u)|;
  }

  lemma {:induction false} ReplacesAddrs(t: Tree, sub: Tree, d: Ctx, u: Tree, e: Script, on: Addr)
    requires Distinct(t) && Replaces(t, sub, d, u, e, on)
    ensures var t' := Subst(t, sub.addr, u);
            && Distinct(t') && on in Addrs(t') && Addrs(t') <= Addrs(t) + e.newMeta
            && Addrs(t) + e.newMeta - Addrs(t') == {sub.addr} && |Leaves(t')| == |Leaves(t)| + 1 && Meta(t')
  {
    var t' := Subst(t, sub.addr, u);
    assert Distinct(t') && Addrs(t') == Addrs(t) - Addrs(sub) + Addrs(u) by { SubstAddrs(t, TOP, sub, d, u); }
    assert Addrs(sub) <= Addrs(t) && sub.addr in Addrs(sub) && Meta(t') by {
      LocatedAddrs(t, TOP, sub, d);
      SubstMeta(t, sub.addr, u);
    }
    LeftOver(Addrs(t), Addrs(sub), Addrs(u), e.newMeta, sub.addr, Addrs(t'));
    SubstSize(t, sub, d, u, 1);
  }

  lemma {:induction false} ReplaceAchieves(m: Memory, m': Memory, t: Tree, e: Script, on: Addr, a: Addr, t': Tree)
    requires Shape(m', t', Null, -1) && WrittenRoot(PtrOf(t), e) == PtrOf(t') && Counts(m', t', PathSet(t', on), 1) && IsNodeCell(m', on)
    requires e.adjustOn == Some(on) && e.adjustBy == 1 && e.excisedMeta == Some(a) && e.excisedSubtree == Null
    requires e.newMeta !! Addrs(t) && m.Keys == Addrs(t) + e.newMeta && on in Addrs(t') && Meta(t')
    requires Distinct(t') && Addrs(t') <= Addrs(t) + e.newMeta && Addrs(t) + e.newMeta - Addrs(t') == {a} && |Leaves(t')| == |Leaves(t)| + 1
    ensures Achieves(m, m', t, e, t', Empty, TOP)
  {}

  lemma {:induction false} ReplacesHolds(m0: Memory, m: Memory, m': Memory, t: Tree, sub: Tree, d: Ctx, u: Tree,
                                         e: Script, on: Addr, w: Write)
    requires HoldsTree(m0, t) && t != Empty && m0.Keys == Addrs(t) && Extends(m0, m, e.newMeta) && Replaces(t, sub, d, u, e, on)
    requires Only(m, m', Addrs(u) + {sub.addr}) && Lies(m', u, d.back, d.slot, on) && w == Write(ParentLoc(d), PtrOf(u))
    ensures var t' := Subst(t, sub.addr, u);
            && Shape(Put(m', w), t', Null, -1) && PutRoot(PtrOf(t), w) == PtrOf(t') && Counts(Put(m', w), t', PathSet(t', on), 1)
  {
    ReplacesReady(m0, m, m', t, sub, d, u, e, on);
    assert Counts(m, t, {}, 0) by { ExtendsHolds(m0, m, t, e.newMeta); }
    CommitShape(m, m', t, sub, d, u);
    CommitCounts(m, m', t, sub, d, u, on, 1);
  }

  /** The prepared cells and the linking write amount to the replacement in the whole tree. */
  lemma {:induction false} ReplacesScripted(m0: Memory, m: Memory, m': Memory, t: Tree, sub: Tree, d: Ctx, u: Tree,
                                            e: Script, on: Addr)
    requires HoldsTree(m0, t) && t != Empty && m0.Keys == Addrs(t) && Extends(m0, m, e.newMeta) && Replaces(t, sub, d, u, e, on)
    requires Only(m, m', Addrs(u) + {sub.addr}) && Lies(m', u, d.back, d.slot, on)
    requires Written(m, e) == Put(m', Write(ParentLoc(d), PtrOf(u)))
    ensures Scripted(m, t, e, Subst(t, sub.addr, u), Empty, TOP)
  {
    ReplacesHolds(m0, m, m', t, sub, d, u, e, on, e.set0);
    ReplacesAddrs(t, sub, d, u, e, on);
    PutKeepsNode(m', e.set0, on);
    ReplaceAchieves(m, Put(m', e.set0), t, e, on, sub.addr, Subst(t, sub.addr, u));
  }

  // ---------------------------------------------------- the terminal node

  ghost predicate Terminal(m: Memory, t: Tree, n: Tree, d: Ctx, k: Key) {
    HoldsTree(m, t) && t != Empty && m.Keys == Addrs(t) && Walk(t, TOP, k) == TerminalNode(n, d)
  }

  lemma {:induction false} TerminalFacts(m: Memory, t: Tree, n: Tree, d: Ctx, k: Key)
    requires Terminal(m, t, n, d, k)
    ensures Located(t, TOP, n, d) && n.Node? && WF(n, d.pre) && Distinct(n) && d.pre <= k && !Meta(n.slots[k[|d.pre|]])
    ensures Shape(m, n, d.back, d.slot) && Counts(m, n, {}, 0) && (d.back.NodePtr? ==> d.slot >= 0)
    ensures n.addr in Addrs(n) && Addrs(n) <= Addrs(t)
  {
    WalkLocated(t, TOP, k);
    LocatedDistinct(t, TOP, n, d);
    LocatedShape(m, t, TOP, n, d);
    LocatedCounts(m, t, TOP, n, d, {}, 0);
    LocatedAddrs(t, TOP, n, d);
    BackOutside(t, TOP, n, d);
  }

  lemma {:induction false} AbsentLacks(n: Tree, k: Key)
    requires n.Node? && forall i :: 0 <= i < |n.slots| && n.slots[i].Item? ==> n.slots[i].leaf.key != k
    ensures Lacks(n, k)
  {
    forall x | x in Items(Ptrs(n.slots)) ensures x.key != k { ItemsAt(Ptrs(n.slots), x); }
  }

  /** What a lookup of the key finds in its terminal node. */
  lemma {:induction false} FindHere(m: Memory, t: Tree, n: Tree, d: Ctx, k: Key, i: int)
    requires Terminal(m, t, n, d, k) && n.Node? && i < |n.slots|
    requires if i >= 0 then n.slots[i].Item? && n.slots[i].leaf.key == k else Lacks(n, k)
    ensures Find(t, k) == if i >= 0 then Found(n.slots[i].leaf.obj) else Absent
  {
    assert WF(n, d.pre) by { TerminalFacts(m, t, n, d, k); }
    var ps := Ptrs(n.slots);
    SearchItems(ps, k);
    if i >= 0 {
      ItemsAt(ps, n.slots[i].leaf);
      assert ps[i] == LeafPtr(n.slots[i].leaf);
      assert n.slots[i].leaf == Leaf(k, n.slots[i].leaf.obj);
    }
  }

  /** The parent pointer variable as the source computes it from the cell. */
  function ParentOf(cell: Cell): Loc {
    ParentLoc(Ctx([], cell.back, cell.parentSlot))
  }

  // -------------------------------------------------- a leaf in its place

  ghost predicate SettleScript(n: Tree, l: Leaf, i: int, e: Script) {
    && n.Node? && 0 <= i < |n.slots| && !Meta(n.slots[i])
    && e == BLANK_SCRIPT.(leaf := Write(SlotLoc(n.addr, i), LeafPtr(l)), adjustBy := 1,
                          adjustOn := if n.slots[i].Item? then None else Some(n.addr),
                          deadLeaf := if n.slots[i].Item? then Some(n.slots[i].leaf) else None)
  }

  lemma {:induction false} SettleSize(n: Tree, l: Leaf, i: nat, u: Tree)
    requires Settles(n, l, i, u)
    ensures |Leaves(u)| == |Leaves(n)| + if n.slots[i].Item? then 0 else 1
  {
    SettlesLeaves(n, l, i, u);
    assert |Leaves(u) + ItemOf(PtrOf(n.slots[i]))| == |Leaves(n) + multiset{l}|;
  }

  /** A script whose one pointer write overwrites a leaf slot of `n`. */
  ghost predicate OneWrite(m: Memory, n: Tree, i: int, x: Tree, e: Script, adj: int) {
    && n.Node? && Written(m, e) == Put(m, SlotWrite(n, i, x)) && !e.set0.at.RootLoc? && !e.set1.at.RootLoc?
    && e.newMeta == {} && e.excisedMeta == None && e.excisedSubtree == Null
    && if e.adjustOn.Some? then e.adjustOn.value == n.addr && e.adjustBy == adj else adj == 0
  }

  lemma {:induction false} OneWriteCounts(m: Memory, m': Memory, t: Tree, n: Tree, d: Ctx, i: int, x: Tree, u: Tree,
                                          e: Script, adj: int)
    requires Located(t, TOP, n, d) && Distinct(t) && Distinct(n) && Counts(m, t, {}, 0) && Rewrites(n, i, x, u)
    requires |Leaves(u)| == |Leaves(n)| + adj && m' == Put(m, SlotWrite(n, i, x))
    requires if e.adjustOn.Some? then e.adjustOn.value == n.addr && e.adjustBy == adj else adj == 0
    ensures Counts(m', Subst(t, n.addr, u), Pending(Subst(t, n.addr, u), e), e.adjustBy)
  {
    var t' := Subst(t, n.addr, u);
    InPlaceCounts(m, m', t, n, d, i, x, u, adj);
    if e.adjustOn.None? { CountsFrame(m', m', t', PathSet(t', n.addr), 0, {}, e.adjustBy); }
  }

  lemma {:induction false} InPlaceAchieves(m: Memory, m': Memory, t: Tree, e: Script, t': Tree, adj: int)
    requires Shape(m', t', Null, -1) && Counts(m', t', Pending(t', e), e.adjustBy) && m.Keys == Addrs(t)
    requires Distinct(t') && Addrs(t') == Addrs(t) && |Leaves(t')| == |Leaves(t)| + adj && PtrOf(t') == PtrOf(t)
    requires !e.set0.at.RootLoc? && !e.set1.at.RootLoc? && e.newMeta == {} && e.excisedMeta == None && e.excisedSubtree == Null
    requires if e.adjustOn.Some? then t' != Empty && e.adjustOn.value in Addrs(t') && IsNodeCell(m', e.adjustOn.value) && e.adjustBy == adj else adj == 0
    ensures Achieves(m, m', t, e, t', Empty, TOP)
  {}

  lemma {:induction false} OneWriteScripted(m: Memory, t: Tree, n: Tree, d: Ctx, i: int, x: Tree, u: Tree, e: Script,
                                            adj: int)
    requires HoldsTree(m, t) && t != Empty && m.Keys == Addrs(t) && Located(t, TOP, n, d) && Distinct(n)
    requires Rewrites(n, i, x, u) && |Leaves(u)| == |Leaves(n)| + adj && OneWrite(m, n, i, x, e, adj)
    ensures Scripted(m, t, e, Subst(t, n.addr, u), Empty, TOP)
  {
    var m' := Written(m, e);
    InPlaceShape(m, t, TOP, n, d, i, x, u);
    OneWriteCounts(m, m', t, n, d, i, x, u, e, adj);
    InPlaceTree(t, n, d, i, x, u, adj);
    LocatedShape(m, t, TOP, n, d);
    InPlaceAchieves(m, m', t, e, Subst(t, n.addr, u), adj);
  }

  lemma {:induction false} SettleWritten(m: Memory, n: Tree, l: Leaf, i: int, u: Tree, e: Script)
    requires SettleScript(n, l, i, e) && Settles(n, l, i, u)
    ensures exists adj :: OneWrite(m, n, i, Item(l), e, adj) && |Leaves(u)| == |Leaves(n)| + adj
  {
    SettleSize(n, l, i, u);
    assert OneWrite(m, n, i, Item(l), e, if n.slots[i].Item? then 0 else 1);
  }

  lemma {:induction false} OneWriteTerminal(m: Memory, t: Tree, n: Tree, d: Ctx, k: Key, i: int, x: Tree, u: Tree,
                                            e: Script, adj: int)
    requires Terminal(m, t, n, d, k)
    requires Rewrites(n, i, x, u) && |Leaves(u)| == |Leaves(n)| + adj && OneWrite(m, n, i, x, e, adj)
    ensures Scripted(m, t, e, Subst(t, n.addr, u), Empty, TOP)
  {
    TerminalFacts(m, t, n, d, k);
    OneWriteScripted(m, t, n, d, i, x, u, e, adj);
  }

  lemma {:induction false} SettleScripted(m: Memory, t: Tree, n: Tree, d: Ctx, l: Leaf, i: nat, u: Tree, e: Script)
    requires Terminal(m, t, n, d, l.key) && SettleScript(n, l, i, e) && Settles(n, l, i, u)
    ensures Scripted(m, t, e, Subst(t, n.addr, u), Empty, TOP)
  {
    SettleWritten(m, n, l, i, u, e);
    var adj :| OneWrite(m, n, i, Item(l), e, adj) && |Leaves(u)| == |Leaves(n)| + adj;
    OneWriteTerminal(m, t, n, d, l.key, i, Item(l), u, e, adj);
  }

  lemma {:induction false} InPlaceTree(t: Tree, n: Tree, d: Ctx, i: int, x: Tree, u: Tree, adj: int)
    requires Located(t, TOP, n, d) && Distinct(t) && Distinct(n) && Rewrites(n, i, x, u) && |Leaves(u)| == |Leaves(n)| + adj
    ensures var t' := Subst(t, n.addr, u);
            && Distinct(t') && Addrs(t') == Addrs(t) && |Leaves(t')| == |Leaves(t)| + adj && n.addr in Addrs(t')
            && Meta(t') && PtrOf(t') == PtrOf(t)
  {
    RewritesAddrs(n, i, x, u);
    LocatedAddrs(t, TOP, n, d);
    SubstAddrs(t, TOP, n, d, u);
    SubstPtr(t, TOP, n, d, u);
    SubstSize(t, n, d, u, adj);
  }

  lemma {:induction false} SettleStep(m: Memory, t: Tree, n: Tree, d: Ctx, l: Leaf, i: nat, u: Tree)
    requires Terminal(m, t, n, d, l.key) && Settles(n, l, i, u) && !(Full(n) && Lacks(n, l.key))
    ensures InsertStep(t, l, Subst(t, n.addr, u))
  {
    assert Fresh(t, n, u) by {
      TerminalFacts(m, t, n, d, l.key);
      RewritesAddrs(n, i, Item(l), u);
    }
    assert Grows(n, d, l, u);
  }

  // ------------------------------------------------------- a full node

  /** A full terminal node in which the key is not. */
  ghost predicate Crowded(m: Memory, t: Tree, n: Tree, d: Ctx, l: Leaf) {
    Terminal(m, t, n, d, l.key) && Full(n) && Lacks(n, l.key)
  }

  lemma {:induction false} CrowdedNoClash(n: Tree, d: Ctx, l: Leaf)
    requires n.Node? && WF(n, d.pre) && !Meta(n.slots[l.key[|d.pre|]])
    ensures NoClash(Ptrs(n.slots), l, |d.pre|)
  {
    var ps := Ptrs(n.slots);
    forall i | 0 <= i < 16 && ps[i].LeafPtr? ensures Fits(ps[i].leaf, n.slots, d.pre) {
      ItemsAt(ps, ps[i].leaf);
    }
  }

  /** A leaf that disagrees with the key does so at the first divergence or later. */
  method Divergence(ps: seq<Ptr>, l: Leaf, ghost s: seq<Tree>) returns (diff: nat)
    requires |s| == 16 && ps == Ptrs(s) && forall i :: 0 <= i < 16 ==> s[i].Item? && s[i].leaf.key != l.key
    ensures DivergesAt(s, l, diff)
  {
    diff := 16;
    var i := 0;
    while i < 16
      invariant 0 <= i <= 16 && diff <= 16 && (i > 0 ==> diff < 16)
      invariant forall j :: 0 <= j < i ==> s[j].leaf.key[..diff] == l.key[..diff]
      invariant diff < 16 ==> exists j :: 0 <= j < i && s[j].leaf.key[diff] != l.key[diff]
    {
      var x := FirstDiff(ps[i].leaf.key, l.key);
      if x < diff {
        forall j | 0 <= j < i ensures s[j].leaf.key[..x] == l.key[..x] {
          assert s[j].leaf.key[..diff][..x] == s[j].leaf.key[..x] && l.key[..diff][..x] == l.key[..x];
        }
        diff := x;
      } else {
        assert s[i].leaf.key[..x][..diff] == s[i].leaf.key[..diff] && l.key[..x][..diff] == l.key[..diff];
      }
      i := i + 1;
    }
  }

  /** Whether all leaves, and the new one, share one segment. */
  method AllCluster(cache: seq<nat>, haveMeta: bool, ghost n: Tree, ghost l: Leaf, ghost level: nat) returns (r: bool)
    requires n.Node? && Caches(cache, Ptrs(n.slots), l, level) && Full(n) && Lacks(n, l.key)
    requires haveMeta <==> exists i :: 0 <= i < 16 && IsMeta(Ptrs(n.slots)[i])
    ensures r <==> Clusters(n.slots, level, l)
    ensures !r ==> exists i, j :: 0 <= i < 17 && 0 <= j < 17 && cache[i] != cache[j]
  {
    if haveMeta {
      ghost var i :| 0 <= i < 16 && IsMeta(Ptrs(n.slots)[i]);
      assert cache[i] != cache[16];
      return false;
    }
    var same, i := true, 1;
    while i < 16
      invariant 1 <= i <= 16
      invariant same ==> forall j :: 0 <= j < i ==> cache[j] == cache[0]
      invariant !same ==> exists j :: 0 <= j < i && cache[j] != cache[0]
    {
      if cache[i] != cache[0] { same := false; }
      i := i + 1;
    }
    r := same && cache[16] == cache[0];
    CacheClusters(cache, n, l, level);
    if !r && !same {
      ghost var j :| 0 <= j < 16 && cache[j] != cache[0];
    }
  }

  lemma {:induction false} CacheClusters(cache: seq<nat>, n: Tree, l: Leaf, level: nat)
    requires n.Node? && Caches(cache, Ptrs(n.slots), l, level) && Full(n) && Lacks(n, l.key)
    requires forall i :: 0 <= i < 16 ==> !IsMeta(Ptrs(n.slots)[i])
    ensures Clusters(n.slots, level, l) <==> forall j :: 0 <= j < 16 ==> cache[j] == cache[16]
  {
    var ps := Ptrs(n.slots);
    forall i | 0 <= i < 16 ensures n.slots[i].Item? && n.slots[i].leaf.key != l.key && cache[i] == n.slots[i].leaf.key[level] {
      assert ps[i] == PtrOf(n.slots[i]);
      ItemsAt(ps, n.slots[i].leaf);
    }
  }
}
