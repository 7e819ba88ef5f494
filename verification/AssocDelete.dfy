/**
 Deletion: clearing a slot, or collapsing the topmost small enough subtree around
 it into one node.  Deletion refines removing a binding, without any condition.
 */
module AssocDelete {
  import opened AssocTree
  import opened AssocPlace
  import opened AssocWalk
  import opened AssocInsert
  import opened AssocRefine
  import opened AssocExact

  datatype Place = Nowhere | At(tree: Tree, ctx: Ctx)

  /** From the root towards `k`, the first node with at most 17 leaves. */
  ghost function FirstSmall(t: Tree, c: Ctx, k: Key): (r: Place)
    ensures r.At? ==> r.tree.Node? && |Leaves(r.tree)| <= 17
    decreases t
  {
    match t
    case Node(_, slots) =>
      if |Leaves(t)| <= 17 then At(t, c)
      else if |c.pre| < 16 && |slots| == 16 && Meta(slots[k[|c.pre|]]) then
        FirstSmall(slots[k[|c.pre|]], Below(t, c, k[|c.pre|]), k)
      else Nowhere
    case Shortcut(_, _, next) => FirstSmall(next, Behind(t), k)
    case _ => Nowhere
  }

  /** A node that holds just the leaves `ms`. */
  ghost predicate Packed(u: Tree, ms: multiset<Leaf>) {
    && u.Node? && |u.slots| == 16
    && (forall i :: 0 <= i < 16 ==> !Meta(u.slots[i]))
    && Items(Ptrs(u.slots)) == ms
  }

  /** The node with the slot of leaf `x` cleared. */
  ghost predicate Cleared(n: Tree, x: Leaf, u: Tree) {
    n.Node? && u.Node? && exists i :: 0 <= i < |n.slots| && n.slots[i] == Item(x) && u == Node(n.addr, n.slots[i := Empty])
  }

  /** The tree before and after a deletion script for the leaf `x` was applied. */
  ghost predicate Removes(t: Tree, x: Leaf, n: Tree, d: Ctx, t': Tree) {
    if |Leaves(t)| == 1 then t' == Empty
    else
      match FirstSmall(t, TOP, x.key)
      case At(p, e) =>
        if p == n && !HasMeta(n) then exists u :: Cleared(n, x, u) && t' == Subst(t, n.addr, u)
        else exists u :: Packed(u, Leaves(p) - multiset{x}) && Fresh(t, p, u) && t' == Subst(t, p.addr, u)
      case Nowhere => exists u :: Cleared(n, x, u) && t' == Subst(t, n.addr, u)
  }

  ghost predicate DeleteStep(t: Tree, k: Key, t': Tree) {
    match Find(t, k)
    case Absent => t' == t
    case Misread => false
    case Found(o) => Walk(t, TOP, k).TerminalNode? && Removes(t, Leaf(k, o), Walk(t, TOP, k).node, Walk(t, TOP, k).at, t')
  }

  /** The only leaf that goes is the one under the key. */
  ghost predicate DropsOnly(t: Tree, k: Key, t': Tree) {
    Leaves(t') + Superseded(t, k) == Leaves(t)
  }

  lemma {:induction false} FirstSmallLocated(t: Tree, c: Ctx, k: Key)
    ensures match FirstSmall(t, c, k)
            case At(p, e) => Located(t, c, p, e)
            case Nowhere => true
    decreases t
  {
    match t
    case Node(_, slots) =>
      if |Leaves(t)| > 17 && |c.pre| < 16 && |slots| == 16 && Meta(slots[k[|c.pre|]]) {
        FirstSmallLocated(slots[k[|c.pre|]], Below(t, c, k[|c.pre|]), k);
      }
    case Shortcut(_, _, next) => FirstSmallLocated(next, Behind(t), k);
    case _ =>
  }

  /** The leaf to delete lies inside the subtree that is collapsed. */
  lemma {:induction false} FirstSmallHolds(t: Tree, c: Ctx, x: Leaf)
    requires WF(t, c.pre) && c.pre <= x.key && x in Leaves(t)
    ensures FirstSmall(t, c, x.key).At? ==> x in Leaves(FirstSmall(t, c, x.key).tree)
    decreases t
  {
    if t.Shortcut? {
      LeavesPrefix(t.next, t.prefix);
      FirstSmallHolds(t.next, Behind(t), x);
    } else if |Leaves(t)| > 17 {
      var i := x.key[|c.pre|];
      if Meta(t.slots[i]) {
        LeafBelow(t, c.pre, x);
        assert Below(t, c, i).pre <= x.key;
        FirstSmallHolds(t.slots[i], Below(t, c, i), x);
        assert FirstSmall(t, c, x.key) == FirstSmall(t.slots[i], Below(t, c, i), x.key);
      }
    }
  }

  lemma {:induction false} ClearedItems(s: seq<Tree>, i: nat, x: Leaf)
    requires i < |s| && s[i] == Item(x)
    ensures Items(Ptrs(s[i := Empty])) + multiset{x} == Items(Ptrs(s))
    ensures BranchLeaves(s[i := Empty]) == BranchLeaves(s)
  {
    ItemsSet(s, i, Empty);
    CancelNone(Items(Ptrs(s[i := Empty])) + multiset{x}, Items(Ptrs(s)));
    BranchLeavesSame(s, s[i := Empty]);
  }

  lemma {:induction false} SumWithout(a: multiset<Leaf>, x: multiset<Leaf>, c: multiset<Leaf>, b: multiset<Leaf>)
    requires a + x == c
    ensures (a + b) + x == c + b
  {}

  lemma {:induction false} ClearedLeaves(n: Tree, x: Leaf, u: Tree)
    requires Cleared(n, x, u)
    ensures Items(Ptrs(u.slots)) + multiset{x} == Items(Ptrs(n.slots))
    ensures Leaves(u) + multiset{x} == Leaves(n)
  {
    var i :| 0 <= i < |n.slots| && n.slots[i] == Item(x) && u == Node(n.addr, n.slots[i := Empty]);
    ClearedItems(n.slots, i, x);
    SumWithout(Items(Ptrs(u.slots)), multiset{x}, Items(Ptrs(n.slots)), BranchLeaves(n.slots));
  }

  lemma {:induction false} ClearedFit(n: Tree, pre: seq<Nibble>, x: Leaf, u: Tree)
    requires WF(n, pre) && Cleared(n, x, u)
    ensures LeavesFit(Items(Ptrs(u.slots)), n.slots, pre)
  {
    assert Items(Ptrs(u.slots)) + multiset{x} == Items(Ptrs(n.slots)) by { ClearedLeaves(n, x, u); }
    SplitParts(Items(Ptrs(n.slots)), Items(Ptrs(u.slots)), multiset{x}, n.slots, pre);
  }

  lemma {:induction false} ClearedWF(n: Tree, pre: seq<Nibble>, x: Leaf, u: Tree)
    requires WF(n, pre) && Cleared(n, x, u)
    ensures WF(u, pre)
  {
    ClearedFit(n, pre, x, u);
    SettlesNodeWF(n, pre, u);
  }

  lemma {:induction false} PackedLeaves(u: Tree, ms: multiset<Leaf>)
    requires Packed(u, ms)
    ensures Leaves(u) == ms
  {
    NoBranches(u.slots);
  }

  lemma {:induction false} PackedWF(p: Tree, pre: seq<Nibble>, x: Leaf, u: Tree)
    requires p.Node? && WF(p, pre) && x in Leaves(p) && Packed(u, Leaves(p) - multiset{x})
    ensures WF(u, pre)
  {
    LeavesUnique(p, pre);
    LeavesPrefix(p, pre);
    PackedFit(Leaves(p), x, u, pre);
  }

  lemma {:induction false} PackedFit(all: multiset<Leaf>, x: Leaf, u: Tree, pre: seq<Nibble>)
    requires |pre| < 16 && Unique(all) && x in all && (forall y :: y in all ==> pre <= y.key) && Packed(u, all - multiset{x})
    ensures WF(u, pre)
  {
    var ms := all - multiset{x};
    assert all == ms + multiset{x};
    UniquePart(ms, multiset{x});
    assert forall y :: y in ms ==> y in all && Fits(y, u.slots, pre);
  }

  lemma {:induction false} DropSum(t: Tree, sub: Tree, d: Ctx, u: Tree, x: Leaf)
    requires Located(t, TOP, sub, d) && Distinct(t) && Meta(sub) && Meta(u)
    requires Leaves(u) + multiset{x} == Leaves(sub)
    ensures Leaves(Subst(t, sub.addr, u)) + multiset{x} == Leaves(t)
  {
    SubstLeaves(t, TOP, sub, d, u);
    forall y: Leaf ensures (Leaves(Subst(t, sub.addr, u)) + multiset{x})[y] == Leaves(t)[y] {
      assert (Leaves(Subst(t, sub.addr, u)) + Leaves(sub))[y] == (Leaves(t) + Leaves(u))[y];
      assert (Leaves(u) + multiset{x})[y] == Leaves(sub)[y];
    }
  }

  lemma {:induction false} DropPlaced(t: Tree, sub: Tree, d: Ctx, u: Tree, x: Leaf)
    requires Array(t) && t != Empty && Located(t, TOP, sub, d) && sub.Node? && Fresh(t, sub, u) && u.Node?
    requires WF(u, d.pre) && Leaves(u) + multiset{x} == Leaves(sub) && |Leaves(t)| > 1
    ensures Array(Subst(t, sub.addr, u))
    ensures Leaves(Subst(t, sub.addr, u)) + multiset{x} == Leaves(t)
  {
    DropSum(t, sub, d, u, x);
    SubstWF(t, TOP, sub, d, u);
    SubstAddrs(t, TOP, sub, d, u);
    assert |Leaves(Subst(t, sub.addr, u)) + multiset{x}| == |Leaves(Subst(t, sub.addr, u))| + 1;
  }

  lemma {:induction false} ClearedFresh(t: Tree, n: Tree, d: Ctx, x: Leaf, u: Tree)
    requires Distinct(n) && Cleared(n, x, u)
    ensures Fresh(t, n, u)
  {}

  lemma {:induction false} ClearStep(t: Tree, x: Leaf, n: Tree, d: Ctx, u: Tree)
    requires Array(t) && t != Empty && |Leaves(t)| > 1 && n.Node? && Located(t, TOP, n, d) && Cleared(n, x, u)
    ensures Array(Subst(t, n.addr, u)) && Leaves(Subst(t, n.addr, u)) + multiset{x} == Leaves(t)
  {
    LocatedWF(t, TOP, n, d);
    LocatedDistinct(t, TOP, n, d);
    ClearedWF(n, d.pre, x, u);
    ClearedLeaves(n, x, u);
    ClearedFresh(t, n, d, x, u);
    DropPlaced(t, n, d, u, x);
  }

  lemma {:induction false} CollapseStep(t: Tree, x: Leaf, p: Tree, e: Ctx, u: Tree)
    requires Array(t) && t != Empty && |Leaves(t)| > 1 && p.Node? && Located(t, TOP, p, e) && x in Leaves(p)
    requires Packed(u, Leaves(p) - multiset{x}) && Fresh(t, p, u)
    ensures Array(Subst(t, p.addr, u)) && Leaves(Subst(t, p.addr, u)) + multiset{x} == Leaves(t)
  {
    LocatedWF(t, TOP, p, e);
    PackedWF(p, e.pre, x, u);
    PackedLeaves(u, Leaves(p) - multiset{x});
    assert (Leaves(p) - multiset{x}) + multiset{x} == Leaves(p);
    DropPlaced(t, p, e, u, x);
  }

  lemma {:induction false} LastLeaf(ms: multiset<Leaf>, x: Leaf)
    requires x in ms && |ms| == 1
    ensures multiset{} + multiset{x} == ms
  {
    assert |ms - multiset{x}| == 0;
    assert ms == (ms - multiset{x}) + multiset{x};
  }

  lemma {:induction false} RemovesOne(t: Tree, x: Leaf, n: Tree, d: Ctx, t': Tree)
    requires Array(t) && x in Leaves(t) && Walk(t, TOP, x.key) == TerminalNode(n, d) && Removes(t, x, n, d, t')
    ensures Array(t') && Leaves(t') + multiset{x} == Leaves(t)
  {
    if |Leaves(t)| == 1 {
      LastLeaf(Leaves(t), x);
    } else {
      WalkLocated(t, TOP, x.key);
      FirstSmallLocated(t, TOP, x.key);
      FirstSmallHolds(t, TOP, x);
      var f := FirstSmall(t, TOP, x.key);
      if f.At? && (f.tree != n || HasMeta(n)) {
        var u :| Packed(u, Leaves(f.tree) - multiset{x}) && Fresh(t, f.tree, u) && t' == Subst(t, f.tree.addr, u);
        CollapseStep(t, x, f.tree, f.ctx, u);
      } else {
        var u :| Cleared(n, x, u) && t' == Subst(t, n.addr, u);
        ClearStep(t, x, n, d, u);
      }
    }
  }

  /** Deletion always yields an array again, and only the one binding goes. */
  lemma {:induction false} DeleteKeepsArray(t: Tree, k: Key, t': Tree)
    requires Array(t) && DeleteStep(t, k, t')
    ensures Array(t') && DropsOnly(t, k, t')
  {
    match Find(t, k)
    case Absent => assert Leaves(t) + multiset{} == Leaves(t);
    case Misread =>
    case Found(o) =>
      FindBinds(t, k);
      assert Binds(t, k, o);
      RemovesOne(t, Leaf(k, o), Walk(t, TOP, k).node, Walk(t, TOP, k).at, t');
  }

  lemma {:induction false} DroppedMap(a: multiset<Leaf>, x: Leaf, b: multiset<Leaf>)
    requires b + multiset{x} == a && Unique(a) && Unique(b)
    ensures MapOf(b) == MapOf(a) - {x.key}
  {}

  lemma {:induction false} WithoutKey(m: map<Key, Obj>, n: map<Key, Obj>, key: Key)
    requires forall k: Key :: k in m <==> k != key && k in n
    requires forall k: Key :: k in m ==> m[k] == n[k]
    ensures m == n - {key}
  {
  }

  /** The map after a deletion is the old map without the key. */
  lemma {:induction false} DeleteRefinesMap(t: Tree, k: Key, t': Tree)
    requires Array(t) && DeleteStep(t, k, t')
    ensures Array(t') && Unique(Leaves(t)) && Unique(Leaves(t'))
    ensures Contents(t') == Contents(t) - {k}
  {
    assert Array(t') && DropsOnly(t, k, t') by { DeleteKeepsArray(t, k, t'); }
    ArrayUnique(t);
    ArrayUnique(t');
    DropsOnlyContents(t, k, t');
  }

  lemma {:induction false} GoneMap(a: multiset<Leaf>, b: multiset<Leaf>, k: Key, gone: multiset<Leaf>)
    requires b + gone == a && Unique(a) && Unique(b)
    requires gone == if k in MapOf(a) then multiset{Leaf(k, MapOf(a)[k])} else multiset{}
    ensures MapOf(b) == MapOf(a) - {k}
  {
    if k in MapOf(a) {
      DroppedMap(a, Leaf(k, MapOf(a)[k]), b);
    } else {
      assert b + gone == b;
      WithoutKey(MapOf(a), MapOf(a), k);
    }
  }

  lemma {:induction false} DropsOnlyContents(t: Tree, k: Key, t': Tree)
    requires Array(t) && DropsOnly(t, k, t') && Unique(Leaves(t)) && Unique(Leaves(t'))
    ensures Contents(t') == Contents(t) - {k}
  {
    FindIsMapLookup(t, k);
    GoneMap(Leaves(t), Leaves(t'), k, Superseded(t, k));
  }

  // --------------------------------------------------------- mixed histories

  datatype Edit = Insert(leaf: Leaf) | Delete(key: Key)

  datatype History = Start | Then(before: History, edit: Edit, tree: Tree)

  function Now(h: History): Tree {
    if h.Start? then Empty else h.tree
  }

  /** Any interleaving of safe insertions and deletions, from the empty array. */
  ghost predicate Run(h: History) {
    h.Start? || (Run(h.before) && Step(Now(h.before), h.edit, h.tree))
  }

  ghost predicate Step(t: Tree, e: Edit, t': Tree) {
    match e
    case Insert(l) => InsertStep(t, l, t') && Safe(t, l.key)
    case Delete(k) => DeleteStep(t, k, t')
  }

  ghost function Replayed(h: History): map<Key, Obj> {
    if h.Start? then map[]
    else match h.edit
      case Insert(l) => Replayed(h.before)[l.key := l.obj]
      case Delete(k) => Replayed(h.before) - {k}
  }

  lemma {:induction false} StepRefinesMap(t: Tree, e: Edit, t': Tree)
    requires Array(t) && Step(t, e, t')
    ensures Array(t') && Unique(Leaves(t)) && Unique(Leaves(t'))
    ensures Contents(t') == if e.Insert? then Contents(t)[e.leaf.key := e.leaf.obj] else Contents(t) - {e.key}
  {
    match e
    case Insert(l) => InsertRefinesMap(t, l, t');
    case Delete(k) => DeleteRefinesMap(t, k, t');
  }

  lemma {:induction false} RunContents(h: History)
    requires Run(h)
    ensures Array(Now(h)) && Unique(Leaves(Now(h))) && Contents(Now(h)) == Replayed(h)
  {
    if h.Start? {
      EmptyContents();
    } else {
      RunContents(h.before);
      StepRefinesMap(Now(h.before), h.edit, h.tree);
    }
  }

  /** After any history of safe insertions and deletions, lookup is map lookup. */
  lemma {:induction false} RunRefinesMap(h: History, k: Key)
    requires Run(h)
    ensures Find(Now(h), k) == if k in Replayed(h) then Found(Replayed(h)[k]) else Absent
  {
    RunContents(h);
    FindIsMapLookup(Now(h), k);
  }
}
