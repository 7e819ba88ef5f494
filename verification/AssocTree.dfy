/**
 The abstract picture of an associative array: a 16-way trie whose nodes and
 shortcuts carry the kernel address they live at.  Every word-sized pointer of
 the array is a `Ptr`; every subtree hanging off such a pointer is a `Tree`.

 Keys are one machine word, seen as sixteen 4-bit segments with the low segment
 first.  A level is counted in segments, so the source's `level` is four times
 the level used here.
 */
module AssocTree {

  type Nibble = n: nat | n < 16
  type Key = k: seq<Nibble> | |k| == 16 witness seq(16, _ => 0)
  type Addr = nat
  type Obj = int

  datatype Leaf = Leaf(key: Key, obj: Obj)

  /** A tagged slot pointer: nothing, a leaf, a node or a shortcut. */
  datatype Ptr = Null | LeafPtr(leaf: Leaf) | NodePtr(addr: Addr) | ShortcutPtr(addr: Addr)

  predicate IsMeta(p: Ptr) {
    p.NodePtr? || p.ShortcutPtr?
  }

  /** `prefix` is the shortcut's index key below its `skip_to_level`. */
  datatype Tree =
    | Empty
    | Item(leaf: Leaf)
    | Node(addr: Addr, slots: seq<Tree>)
    | Shortcut(addr: Addr, prefix: seq<Nibble>, next: Tree)

  predicate Meta(t: Tree) {
    t.Node? || t.Shortcut?
  }

  function PtrOf(t: Tree): Ptr {
    match t
    case Empty => Null
    case Item(l) => LeafPtr(l)
    case Node(a, _) => NodePtr(a)
    case Shortcut(a, _, _) => ShortcutPtr(a)
  }

  function Ptrs(ts: seq<Tree>): (ps: seq<Ptr>)
    ensures |ps| == |ts|
    ensures forall i :: 0 <= i < |ts| ==> ps[i] == PtrOf(ts[i])
  {
    seq(|ts|, i requires 0 <= i < |ts| => PtrOf(ts[i]))
  }

  // ---------------------------------------------------------------- leaves

  ghost function ItemOf(p: Ptr): multiset<Leaf> {
    if p.LeafPtr? then multiset{p.leaf} else multiset{}
  }

  /** The leaves held directly by a run of slots. */
  ghost function Items(ps: seq<Ptr>): multiset<Leaf> {
    if ps == [] then multiset{} else ItemOf(ps[0]) + Items(ps[1..])
  }

  /** All leaves of a subtree, with multiplicity. */
  ghost function Leaves(t: Tree): multiset<Leaf>
    decreases t, 1
  {
    match t
    case Empty => multiset{}
    case Item(l) => multiset{l}
    case Node(_, slots) => Items(Ptrs(slots)) + BranchLeaves(slots)
    case Shortcut(_, _, next) => Leaves(next)
  }

  /** The leaves behind the metadata pointers of a run of slots. */
  ghost function BranchLeaves(ts: seq<Tree>): multiset<Leaf>
    decreases ts, 0
  {
    if ts == [] then multiset{} else BranchOf(ts[0]) + BranchLeaves(ts[1..])
  }

  ghost function BranchOf(t: Tree): multiset<Leaf>
    decreases t, 2
  {
    if Meta(t) then Leaves(t) else multiset{}
  }

  lemma {:induction false} ItemsAt(ps: seq<Ptr>, x: Leaf)
    ensures x in Items(ps) <==> exists i :: 0 <= i < |ps| && ps[i] == LeafPtr(x)
  {
    if ps != [] {
      ItemsAt(ps[1..], x);
      if exists i :: 0 <= i < |ps| && ps[i] == LeafPtr(x) {
        var i :| 0 <= i < |ps| && ps[i] == LeafPtr(x);
        if i > 0 { assert ps[1..][i - 1] == LeafPtr(x); }
      }
    }
  }

  lemma {:induction false} CancelNone(a: multiset<Leaf>, b: multiset<Leaf>)
    requires a + multiset{} == b + multiset{}
    ensures a == b
  {
    assert a + multiset{} == a && b + multiset{} == b;
  }

  lemma {:induction false} SumSwap(a: multiset<Leaf>, b: multiset<Leaf>, c: multiset<Leaf>, d: multiset<Leaf>,
                                   e: multiset<Leaf>)
    requires b + c == d + e
    ensures (a + b) + c == (a + d) + e
  {
    assert (a + b) + c == a + (b + c);
    assert (a + d) + e == a + (d + e);
  }

  lemma {:induction false} ItemsUpdate(ps: seq<Ptr>, i: nat, p: Ptr)
    requires i < |ps|
    ensures Items(ps[i := p]) + ItemOf(ps[i]) == Items(ps) + ItemOf(p)
  {
    var qs := ps[i := p];
    if i == 0 {
      assert qs[1..] == ps[1..];
    } else {
      ItemsUpdate(ps[1..], i - 1, p);
      assert qs[1..] == ps[1..][i - 1 := p];
      SumSwap(ItemOf(ps[0]), Items(qs[1..]), ItemOf(ps[i]), Items(ps[1..]), ItemOf(p));
    }
  }

  lemma {:induction false} ItemsSet(ts: seq<Tree>, i: nat, u: Tree)
    requires i < |ts|
    ensures Items(Ptrs(ts[i := u])) + ItemOf(PtrOf(ts[i])) == Items(Ptrs(ts)) + ItemOf(PtrOf(u))
  {
    ItemsUpdate(Ptrs(ts), i, PtrOf(u));
    assert Ptrs(ts[i := u]) == Ptrs(ts)[i := PtrOf(u)];
  }

  /** Filling a slot that holds no leaf adds just the filler. */
  lemma {:induction false} ItemsFill(ts: seq<Tree>, i: nat, u: Tree)
    requires i < |ts| && !ts[i].Item?
    ensures Items(Ptrs(ts[i := u])) == Items(Ptrs(ts)) + ItemOf(PtrOf(u))
  {
    ItemsSet(ts, i, u);
    CancelNone(Items(Ptrs(ts[i := u])), Items(Ptrs(ts)) + ItemOf(PtrOf(u)));
  }

  lemma {:induction false} BranchLeavesAt(ts: seq<Tree>, x: Leaf)
    ensures x in BranchLeaves(ts) <==> exists i :: 0 <= i < |ts| && Meta(ts[i]) && x in Leaves(ts[i])
  {
    if ts != [] {
      BranchLeavesAt(ts[1..], x);
      if exists i :: 0 <= i < |ts| && Meta(ts[i]) && x in Leaves(ts[i]) {
        var i :| 0 <= i < |ts| && Meta(ts[i]) && x in Leaves(ts[i]);
        if i > 0 { assert ts[1..][i - 1] == ts[i]; }
      }
    }
  }

  lemma {:induction false} BranchLeavesUpdate(ts: seq<Tree>, i: nat, t: Tree)
    requires i < |ts|
    ensures BranchLeaves(ts[i := t]) + BranchOf(ts[i]) == BranchLeaves(ts) + BranchOf(t)
  {
    var us := ts[i := t];
    if i == 0 {
      assert us[1..] == ts[1..];
    } else {
      BranchLeavesUpdate(ts[1..], i - 1, t);
      assert us[1..] == ts[1..][i - 1 := t];
      SumSwap(BranchOf(ts[0]), BranchLeaves(us[1..]), BranchOf(ts[i]), BranchLeaves(ts[1..]), BranchOf(t));
    }
  }

  /** Filling a slot that holds no branch adds just the filler. */
  lemma {:induction false} BranchLeavesFill(ts: seq<Tree>, i: nat, u: Tree)
    requires i < |ts| && !Meta(ts[i])
    ensures BranchLeaves(ts[i := u]) == BranchLeaves(ts) + BranchOf(u)
  {
    BranchLeavesUpdate(ts, i, u);
    CancelNone(BranchLeaves(ts[i := u]), BranchLeaves(ts) + BranchOf(u));
  }

  /** Only the metadata slots decide the branch leaves. */
  lemma {:induction false} BranchLeavesSame(ts: seq<Tree>, us: seq<Tree>)
    requires |ts| == |us|
    requires forall i :: 0 <= i < |ts| && (Meta(ts[i]) || Meta(us[i])) ==> ts[i] == us[i]
    ensures BranchLeaves(ts) == BranchLeaves(us)
  {
    if ts != [] {
      BranchLeavesSame(ts[1..], us[1..]);
    }
  }

  // ------------------------------------------------------- well-formedness

  /** No two leaves share a key and none occurs twice. */
  ghost predicate Unique(ms: multiset<Leaf>) {
    forall x, y :: x in ms && y in ms && x.key == y.key ==> x == y && ms[x] == 1
  }

  /**
   A subtree that is correctly placed after the segments `pre` of a key.
   Leaves may sit in any slot of their node, but never in a node whose slot for
   their own segment holds a metadata pointer: such leaves live behind it.
   */
  ghost predicate WF(t: Tree, pre: seq<Nibble>)
    decreases t
  {
    match t
    case Node(_, slots) =>
      && |pre| < 16 && |slots| == 16
      && LeavesFit(Items(Ptrs(slots)), slots, pre)
      && (forall i :: 0 <= i < 16 && Meta(slots[i]) ==> WF(slots[i], pre + [i]))
    case Shortcut(_, p, next) =>
      && |pre| < |p| < 16 && pre <= p
      && next.Node? && WF(next, p)
    case _ => false
  }

  ghost predicate LeavesFit(ms: multiset<Leaf>, slots: seq<Tree>, pre: seq<Nibble>)
    requires |pre| < 16 && |slots| == 16
  {
    Unique(ms) && forall x :: x in ms ==> Fits(x, slots, pre)
  }

  ghost predicate Fits(x: Leaf, slots: seq<Tree>, pre: seq<Nibble>)
    requires |pre| < 16 && |slots| == 16
  {
    pre <= x.key && !Meta(slots[x.key[|pre|]])
  }

  lemma {:induction false} LeavesPrefix(t: Tree, pre: seq<Nibble>)
    requires WF(t, pre)
    ensures forall x :: x in Leaves(t) ==> pre <= x.key
    decreases t
  {
    if t.Shortcut? {
      LeavesPrefix(t.next, t.prefix);
    } else {
      forall x | x in Leaves(t) ensures pre <= x.key {
        if x !in Items(Ptrs(t.slots)) {
          BranchLeavesAt(t.slots, x);
          var i :| 0 <= i < 16 && Meta(t.slots[i]) && x in Leaves(t.slots[i]);
          LeavesPrefix(t.slots[i], pre + [i]);
        }
      }
    }
  }

  /** A leaf behind slot `i` of a node has `i` as its segment there. */
  lemma {:induction false} BranchSegment(t: Tree, pre: seq<Nibble>, x: Leaf)
    requires t.Node? && WF(t, pre)
    requires x in BranchLeaves(t.slots)
    ensures pre <= x.key && Meta(t.slots[x.key[|pre|]]) && x in Leaves(t.slots[x.key[|pre|]])
  {
    BranchLeavesAt(t.slots, x);
    var i :| 0 <= i < 16 && Meta(t.slots[i]) && x in Leaves(t.slots[i]);
    LeavesPrefix(t.slots[i], pre + [i]);
    assert (pre + [i])[|pre|] == i;
  }

  /** A leaf whose segment has a metadata pointer lives behind it. */
  lemma {:induction false} LeafBelow(t: Tree, pre: seq<Nibble>, x: Leaf)
    requires t.Node? && WF(t, pre) && x in Leaves(t) && pre <= x.key && Meta(t.slots[x.key[|pre|]])
    ensures x in Leaves(t.slots[x.key[|pre|]])
  {
    if x in BranchLeaves(t.slots) {
      BranchSegment(t, pre, x);
    } else {
      assert false;
    }
  }

  lemma {:induction false} UniqueSum(a: multiset<Leaf>, b: multiset<Leaf>)
    requires Unique(a) && Unique(b)
    requires forall x, y :: x in a && y in b ==> x.key != y.key
    ensures Unique(a + b)
  {
    forall x, y | x in a + b && y in a + b && x.key == y.key
      ensures x == y && (a + b)[x] == 1
    {
      if x in a { assert y in a; assert x !in b; } else { assert x in b && y in b; }
    }
  }

  lemma {:induction false} BranchesApart(t: Tree, pre: seq<Nibble>, i: Nibble, j: Nibble, x: Leaf, y: Leaf)
    requires t.Node? && WF(t, pre) && i != j
    requires Meta(t.slots[i]) && x in Leaves(t.slots[i])
    requires Meta(t.slots[j]) && y in Leaves(t.slots[j])
    ensures x.key != y.key
  {
    LeavesPrefix(t.slots[i], pre + [i]);
    LeavesPrefix(t.slots[j], pre + [j]);
    assert (pre + [i])[|pre|] == i && (pre + [j])[|pre|] == j;
  }

  /** Branch leaves are unique because different slots mean different segments. */
  lemma {:induction false} BranchUnique(t: Tree, pre: seq<Nibble>, n: nat)
    requires t.Node? && WF(t, pre) && n <= 16
    requires forall i :: 0 <= i < 16 && Meta(t.slots[i]) ==> Unique(Leaves(t.slots[i]))
    ensures Unique(BranchLeaves(t.slots[n..]))
    decreases 16 - n
  {
    if n < 16 {
      BranchUnique(t, pre, n + 1);
      var rest := t.slots[n + 1..];
      assert t.slots[n..][1..] == rest;
      forall x, y | x in BranchOf(t.slots[n]) && y in BranchLeaves(rest) ensures x.key != y.key {
        BranchLeavesAt(rest, y);
        var i :| 0 <= i < |rest| && Meta(rest[i]) && y in Leaves(rest[i]);
        BranchesApart(t, pre, n, n + 1 + i, x, y);
      }
      UniqueSum(BranchOf(t.slots[n]), BranchLeaves(rest));
    }
  }

  /** Every key occurs at most once in a well-formed tree. */
  lemma {:induction false} LeavesUnique(t: Tree, pre: seq<Nibble>)
    requires WF(t, pre)
    ensures Unique(Leaves(t))
    decreases t
  {
    if t.Shortcut? {
      LeavesUnique(t.next, t.prefix);
    } else {
      forall i | 0 <= i < 16 && Meta(t.slots[i]) ensures Unique(Leaves(t.slots[i])) {
        LeavesUnique(t.slots[i], pre + [i]);
      }
      BranchUnique(t, pre, 0);
      assert t.slots[0..] == t.slots;
      forall x, y | x in Items(Ptrs(t.slots)) && y in BranchLeaves(t.slots) ensures x.key != y.key {
        BranchSegment(t, pre, y);
        assert Fits(x, t.slots, pre);
      }
      UniqueSum(Items(Ptrs(t.slots)), BranchLeaves(t.slots));
    }
  }
}
