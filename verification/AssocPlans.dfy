/**
 What each kind of edit script does to memory: the new cells it prepares together
 with its writes hold the intended tree, with back pointers, parent slots and
 leaf counts right and every address accounted for.
 */
module AssocPlans {
  import opened AssocTree
  import opened AssocPlace
  import opened AssocWalk
  import opened AssocInsert
  import opened AssocRefine
  import opened AssocMemory
  import opened AssocScript
  import opened AssocSlots

  // ------------------------------------------------------ splitting a node

  ghost predicate IsChild(n: Tree, b: Addr) {
    n.Node? && exists i :: 0 <= i < |n.slots| && Meta(n.slots[i]) && n.slots[i].addr == b
  }

  /** Memory in which the node `n` has been prepared to be split over `a0` and `a1`. */
  ghost predicate SplitCells(m: Memory, m': Memory, n: Tree, slot: Nibble, a0: Addr, s0: seq<Tree>, a1: Addr,
                             s1: seq<Tree>,
                             back: Ptr, parentSlot: int, nr1: int)
  {
    && n.Node? && a0 != a1 && a0 !in Addrs(n) && a1 !in Addrs(n)
    && a0 in m' && m'[a0] == NodeCell(back, parentSlot, Ptrs(s0), |Leaves(n)|)
    && a1 in m' && m'[a1] == NodeCell(NodePtr(a0), slot, Ptrs(s1), nr1)
    && forall b :: b in AddrsOf(n.slots) && b in m ==>
         b in m' && m'[b] == if IsChild(n, b) then WithBack(m[b], NodePtr(a0)) else m[b]
  }

  lemma {:induction false} ChildOnce(n: Tree, j: nat, b: Addr)
    requires n.Node? && Distinct(n) && j < |n.slots| && Meta(n.slots[j]) && b in Addrs(n.slots[j])
    ensures IsChild(n, b) <==> b == n.slots[j].addr
  {}

  /** Only the top cell of `k` changed, and only its back pointer. */
  ghost predicate Rehung(m: Memory, m': Memory, k: Tree, back: Ptr) {
    Meta(k) && forall b :: b in Addrs(k) && b in m ==> b in m' && m'[b] == if b == k.addr then WithBack(m[b], back) else m[b]
  }

  lemma {:induction false} ChildRehung(m: Memory, m': Memory, n: Tree, slot: Nibble, a0: Addr, s0: seq<Tree>, a1: Addr,
                                       s1: seq<Tree>,
                                       back: Ptr, parentSlot: int, nr1: int, j: Nibble)
    requires SplitCells(m, m', n, slot, a0, s0, a1, s1, back, parentSlot, nr1) && Distinct(n) && j < |n.slots| && Meta(n.slots[j])
    ensures Rehung(m, m', n.slots[j], NodePtr(a0))
  {
    forall b | b in Addrs(n.slots[j]) ensures b in AddrsOf(n.slots) && (IsChild(n, b) <==> b == n.slots[j].addr) {
      ChildOnce(n, j, b);
    }
  }

  lemma {:induction false} RehungShape(m: Memory, m': Memory, k: Tree, a: Addr, a0: Addr, j: nat)
    requires Rehung(m, m', k, NodePtr(a0)) && Distinct(k) && Shape(m, k, NodePtr(a), j)
    ensures Shape(m', k, NodePtr(a0), j) && SameCounts(m, m', Addrs(k))
  {
    ShapeRehang(m, m', k, NodePtr(a), j, NodePtr(a0), j);
  }

  /** A child moves from the old node to the one that keeps it. */
  lemma {:induction false} ChildMoves(m: Memory, m': Memory, n: Tree, slot: Nibble, a0: Addr, s0: seq<Tree>, a1: Addr,
                                      s1: seq<Tree>,
                                      back: Ptr, parentSlot: int, nr1: int, j: Nibble)
    requires SplitCells(m, m', n, slot, a0, s0, a1, s1, back, parentSlot, nr1) && Distinct(n)
    requires |n.slots| == 16 && Meta(n.slots[j]) && Shape(m, n.slots[j], NodePtr(n.addr), j)
    ensures Shape(m', n.slots[j], NodePtr(a0), j)
    ensures SameCounts(m, m', Addrs(n.slots[j]))
  {
    ChildRehung(m, m', n, slot, a0, s0, a1, s1, back, parentSlot, nr1, j);
    RehungShape(m, m', n.slots[j], n.addr, a0, j);
  }

  lemma {:induction false} SplitShape(m: Memory, m': Memory, n: Tree, d: Ctx, l: Leaf, level: nat, slot: Nibble,
                                      a0: Addr, s0: seq<Tree>, a1: Addr, s1: seq<Tree>,
                                      back: Ptr, parentSlot: int, nr1: int, slot': int)
    requires SplitCells(m, m', n, slot, a0, s0, a1, s1, back, parentSlot, nr1) && Distinct(n) && Shape(m, n, d.back, d.slot)
    requires Splits(n.slots, l, level, slot, a1, s0, s1) && (slot' >= 0 ==> slot' == parentSlot)
    ensures Shape(m', Node(a0, s0), back, slot')
  {
    forall j: Nibble | Meta(s0[j]) ensures Shape(m', s0[j], NodePtr(a0), j) {
      if j != slot {
        ChildMoves(m, m', n, slot, a0, s0, a1, s1, back, parentSlot, nr1, j);
      }
    }
  }

  lemma {:induction false} SplitAddrs(n: Tree, l: Leaf, level: nat, slot: Nibble, a0: Addr, s0: seq<Tree>, a1: Addr,
                                      s1: seq<Tree>)
    requires n.Node? && Distinct(n) && a0 != a1 && a0 !in Addrs(n) && a1 !in Addrs(n)
    requires Splits(n.slots, l, level, slot, a1, s0, s1)
    ensures AddrsOf(s0) == AddrsOf(n.slots) + {a1}
    ensures Distinct(Node(a0, s0))
  {
    assert AddrsOf(s1) == {};
    forall i | 0 <= i < 16 && i != slot ensures Addrs(s0[i]) == Addrs(n.slots[i]) && Distinct(s0[i]) {
      if Meta(s0[i]) || Meta(n.slots[i]) { assert s0[i] == n.slots[i]; }
    }
    OneAddrMore(n.slots, s0, slot, a1);
  }

  lemma {:induction false} OneAddrMore(s: seq<Tree>, s0: seq<Tree>, slot: Nibble, a: Addr)
    requires |s| == |s0| == 16 && Addrs(s[slot]) == {} && Addrs(s0[slot]) == {a}
    requires forall i :: 0 <= i < 16 && i != slot ==> Addrs(s0[i]) == Addrs(s[i])
    ensures AddrsOf(s0) == AddrsOf(s) + {a}
  {
    forall b | b in AddrsOf(s) ensures b in AddrsOf(s0) {
      var i :| 0 <= i < |s| && b in Addrs(s[i]);
      assert b in Addrs(s0[i]);
    }
  }

  lemma {:induction false} SplitPath(n: Tree, l: Leaf, level: nat, slot: Nibble, a0: Addr, s0: seq<Tree>, a1: Addr,
                                     s1: seq<Tree>, a: Addr)
    requires n.Node? && Splits(n.slots, l, level, slot, a1, s0, s1) && Distinct(Node(a0, s0)) && a in {a0, a1}
    ensures PathSet(Node(a0, s0), a) == {a0, a}
  {
    if a == a1 {
      assert a1 in Addrs(s0[slot]);
      assert a1 in AddrsOf(s0);
      PathNode(Node(a0, s0), slot, a1);
      assert Path(s0[slot], a1) == [a1];
    }
  }

  lemma {:induction false} SplitCounts(m: Memory, m': Memory, n: Tree, d: Ctx, l: Leaf, level: nat, slot: Nibble,
                                       a0: Addr, s0: seq<Tree>, a1: Addr, s1: seq<Tree>,
                                       back: Ptr, parentSlot: int, nr1: int, a: Addr)
    requires SplitCells(m, m', n, slot, a0, s0, a1, s1, back, parentSlot, nr1) && Distinct(n) && Shape(m, n, d.back, d.slot)
    requires Splits(n.slots, l, level, slot, a1, s0, s1) && Counts(m, n, {}, 0)
    requires a in {a0, a1} && nr1 == |Items(Ptrs(s1))| - (if a == a1 then 1 else 0)
    ensures Counts(m', Node(a0, s0), PathSet(Node(a0, s0), a), 1)
  {
    SplitAddrs(n, l, level, slot, a0, s0, a1, s1);
    SplitPath(n, l, level, slot, a0, s0, a1, s1, a);
    assert |Leaves(Node(a0, s0))| == |Leaves(n)| + 1 by { SplitsLeaves(n.slots, l, level, slot, n.addr, a0, a1, s0, s1); }
    forall j | 0 <= j < 16 && Meta(s0[j]) ensures Counts(m', s0[j], {a0, a}, 1) {
      if j == slot {
        assert Leaves(s0[slot]) == Items(Ptrs(s1)) by { NoBranches(s1); }
      } else {
        SplitChildCounts(m, m', n, d, slot, a0, s0, a1, s1, back, parentSlot, nr1, a, j);
      }
    }
  }

  lemma {:induction false} SplitChildCounts(m: Memory, m': Memory, n: Tree, d: Ctx, slot: Nibble, a0: Addr,
                                            s0: seq<Tree>, a1: Addr, s1: seq<Tree>,
                                            back: Ptr, parentSlot: int, nr1: int, a: Addr, j: Nibble)
    requires SplitCells(m, m', n, slot, a0, s0, a1, s1, back, parentSlot, nr1) && Distinct(n) && Shape(m, n, d.back, d.slot)
    requires Counts(m, n, {}, 0) && a in {a0, a1} && Meta(n.slots[j])
    ensures Counts(m', n.slots[j], {a0, a}, 1)
  {
    ChildMoves(m, m', n, slot, a0, s0, a1, s1, back, parentSlot, nr1, j);
    assert Addrs(n.slots[j]) <= AddrsOf(n.slots);
    CountsFrame(m, m', n.slots[j], {}, 0, {a0, a}, 1);
  }

  /** The trees behind the slots of a split node: new leaves, the new node, or what was there. */
  function LiftSlots(q: seq<Ptr>, s: seq<Tree>, slot: nat, child: Tree): (r: seq<Tree>)
    requires |q| == |s|
    ensures |r| == |q|
  {
    seq(|q|, i requires 0 <= i < |q| =>
      match q[i]
      case Null => Empty
      case LeafPtr(x) => Item(x)
      case _ => if i == slot then child else s[i])
  }

  lemma {:induction false} LiftPtrs(q: seq<Ptr>, s: seq<Tree>, slot: nat, child: Tree)
    requires |q| == |s| && slot < |q| && q[slot] == PtrOf(child) && KeepsMeta(Ptrs(s), q, slot)
    ensures Ptrs(LiftSlots(q, s, slot, child)) == q
  {}

  lemma {:induction false} LiftLeaves(q: seq<Ptr>)
    requires forall i :: 0 <= i < |q| ==> !IsMeta(q[i])
    ensures Ptrs(LiftSlots(q, seq(|q|, _ => Empty), 0, Empty)) == q
    ensures forall x :: x in LiftSlots(q, seq(|q|, _ => Empty), 0, Empty) ==> !Meta(x)
  {}

  /** Dealing out the pointers is splitting the node. */
  lemma {:induction false} LiftSplits(s: seq<Tree>, l: Leaf, level: nat, slot: Nibble, a1: Addr, q0: seq<Ptr>,
                                      q1: seq<Ptr>, s0: seq<Tree>, s1: seq<Tree>)
    requires |s| == 16 && level < 16 && SplitPtrs(Ptrs(s), l, level, slot, NodePtr(a1), q0, q1)
    requires s1 == LiftSlots(q1, seq(16, _ => Empty), 0, Empty)
    requires s0 == LiftSlots(q0, s, slot, Node(a1, s1))
    ensures Splits(s, l, level, slot, a1, s0, s1) && Ptrs(s0) == q0 && Ptrs(s1) == q1
  {
    assert Ptrs(s1) == q1 && forall i :: 0 <= i < 16 ==> !Meta(s1[i]) by { LiftLeaves(q1); }
    assert Ptrs(s0) == q0 by { LiftPtrs(q0, s, slot, Node(a1, s1)); }
    LiftMeta(q0, s, slot, Node(a1, s1));
    SplitsAre(s, l, level, slot, a1, s0, s1);
  }

  /** Metadata pointers lie where they were, but for the new one. */
  lemma {:induction false} LiftMeta(q: seq<Ptr>, s: seq<Tree>, slot: nat, child: Tree)
    requires |q| == |s| && slot < |q| && q[slot] == PtrOf(child) && Meta(child) && KeepsMeta(Ptrs(s), q, slot) && !IsMeta(Ptrs(s)[slot])
    ensures var r := LiftSlots(q, s, slot, child);
            && !Meta(s[slot]) && r[slot] == child
            && forall i :: 0 <= i < |q| && i != slot && (Meta(s[i]) || Meta(r[i])) ==> r[i] == s[i]
  {}

  lemma {:induction false} SplitsAre(s: seq<Tree>, l: Leaf, level: nat, slot: Nibble, a1: Addr, s0: seq<Tree>,
                                     s1: seq<Tree>)
    requires |s| == |s0| == |s1| == 16 && level < 16 && SplitPtrs(Ptrs(s), l, level, slot, NodePtr(a1), Ptrs(s0), Ptrs(s1))
    requires !Meta(s[slot]) && s0[slot] == Node(a1, s1) && forall i :: 0 <= i < 16 ==> !Meta(s1[i])
    requires forall i :: 0 <= i < 16 && i != slot && (Meta(s[i]) || Meta(s0[i])) ==> s0[i] == s[i]
    ensures Splits(s, l, level, slot, a1, s0, s1)
  {}

  /** The writes of a split, up to the one that puts the new nodes in place. */
  lemma {:induction false} SplitWritten(m: Memory, n: Tree, slot: Nibble, a0: Addr, s0: seq<Tree>, a1: Addr,
                                        s1: seq<Tree>,
                                        back: Ptr, parentSlot: int, nr1: int, w: Write, kids: seq<Addr>, m': Memory)
    requires n.Node? && a0 != a1 && a0 !in Addrs(n) && a1 !in Addrs(n) && a0 in m && a1 in m
    requires m' == Reback(Put(m, w), kids, NodePtr(a0)) && forall b :: b in kids <==> IsChild(n, b)
    requires w.at.SlotLoc? && w.at.addr in {a0, a1}
    requires Put(m, w)[a0] == NodeCell(back, parentSlot, Ptrs(s0), |Leaves(n)|)
    requires Put(m, w)[a1] == NodeCell(NodePtr(a0), slot, Ptrs(s1), nr1)
    ensures SplitCells(m, m', n, slot, a0, s0, a1, s1, back, parentSlot, nr1)
  {
    ChildInside(n, a0);
    ChildInside(n, a1);
    RebackAt(Put(m, w), kids, NodePtr(a0), a0);
    RebackAt(Put(m, w), kids, NodePtr(a0), a1);
    forall b | b in AddrsOf(n.slots) && b in m
      ensures b in m' && m'[b] == if IsChild(n, b) then WithBack(m[b], NodePtr(a0)) else m[b]
    {
      RebackAt(Put(m, w), kids, NodePtr(a0), b);
    }
  }

  lemma {:induction false} ChildInside(n: Tree, b: Addr)
    ensures IsChild(n, b) ==> b in Addrs(n)
  {}

  // -------------------------------------------------- splitting a shortcut

  /** What stands in for the rest of a split shortcut: the node behind it, rehung. */
  ghost predicate RestCells(m: Memory, m': Memory, s: Tree, dd: nat, a0: Addr, post: Addr)
    requires s.Shortcut? && dd < |s.prefix| && s.next.Node?
  {
    var side := s.next.addr;
    && side in m && m[side].NodeCell? && side in m' && Agree(m, m', AddrsOf(s.next.slots))
    && (if dd + 1 < |s.prefix| then
          && post in m' && m'[post] == ShortcutCell(NodePtr(a0), s.prefix[dd], s.prefix, NodePtr(side))
          && m'[side] == WithBack(m[side], ShortcutPtr(post))
        else m'[side] == WithBack(WithSlot(m[side], s.prefix[dd]), NodePtr(a0)))
  }

  lemma {:induction false} RestShape(m: Memory, m': Memory, s: Tree, d: Ctx, dd: nat, a0: Addr, post: Addr)
    requires s.Shortcut? && dd < |s.prefix| && s.next.Node? && Shape(m, s, d.back, d.slot) && Distinct(s)
    requires RestCells(m, m', s, dd, a0, post)
    ensures Shape(m', MidRest(s, dd, post), NodePtr(a0), s.prefix[dd])
  {
    var back, slot := if dd + 1 < |s.prefix| then ShortcutPtr(post) else NodePtr(a0), if dd + 1 < |s.prefix| then -1 else s.prefix[dd];
    assert Agree(m, m', Addrs(s.next) - {s.next.addr});
    ShapeRehang(m, m', s.next, ShortcutPtr(s.addr), -1, back, slot);
  }

  lemma {:induction false} RestCounts(m: Memory, m': Memory, s: Tree, dd: nat, a0: Addr, post: Addr)
    requires s.Shortcut? && dd < |s.prefix| && s.next.Node? && Distinct(s) && Counts(m, s, {}, 0)
    requires RestCells(m, m', s, dd, a0, post) && a0 !in Addrs(s)
    ensures Counts(m', MidRest(s, dd, post), {a0}, 1)
  {
    assert SameCounts(m, m', Addrs(s.next));
    CountsFrame(m, m', s.next, {}, 0, {a0}, 1);
  }

  /** Memory in which the shortcut `s` has been prepared to be split. */
  ghost predicate MidCells(m: Memory, m': Memory, s: Tree, base: nat, l: Leaf, a0: Addr, pre0: Addr, post: Addr,
                           back: Ptr, parentSlot: int)
    requires s.Shortcut? && |s.prefix| <= 16 && !(s.prefix <= l.key) && s.next.Node?
  {
    var dd := FirstDiff(s.prefix, l.key);
    && RestCells(m, m', s, dd, a0, post)
    && a0 in m' && m'[a0].NodeCell? && m'[a0].slots == Ptrs(MidNode(s, l, a0, post).slots) && m'[a0].nr == m[s.next.addr].nr
    && (if dd > base then
          && pre0 in m' && m'[pre0] == ShortcutCell(back, parentSlot, s.prefix[..dd], NodePtr(a0))
          && m'[a0].back == ShortcutPtr(pre0)
        else m'[a0].back == back && m'[a0].parentSlot == parentSlot)
  }

  lemma {:induction false} MidNodeShape(m': Memory, s: Tree, l: Leaf, a0: Addr, post: Addr, back: Ptr, slot: int)
    requires s.Shortcut? && |s.prefix| <= 16 && !(s.prefix <= l.key) && s.next.Node?
    requires a0 in m' && m'[a0].NodeCell? && m'[a0].slots == Ptrs(MidNode(s, l, a0, post).slots)
    requires m'[a0].back == back && (slot >= 0 ==> m'[a0].parentSlot == slot)
    requires Shape(m', MidRest(s, FirstDiff(s.prefix, l.key), post), NodePtr(a0), s.prefix[FirstDiff(s.prefix, l.key)])
    ensures Shape(m', MidNode(s, l, a0, post), back, slot)
  {}

  lemma {:induction false} MidShape(m: Memory, m': Memory, s: Tree, d: Ctx, base: nat, l: Leaf, a0: Addr, pre0: Addr,
                                    post: Addr, parentSlot: int)
    requires s.Shortcut? && |s.prefix| <= 16 && !(s.prefix <= l.key) && s.next.Node? && Distinct(s)
    requires Shape(m, s, d.back, d.slot) && MidCells(m, m', s, base, l, a0, pre0, post, d.back, parentSlot)
    requires d.slot >= 0 ==> parentSlot == d.slot
    ensures Shape(m', MidSplit(s, base, l, a0, pre0, post), d.back, d.slot)
  {
    var dd := FirstDiff(s.prefix, l.key);
    RestShape(m, m', s, d, dd, a0, post);
    if dd > base {
      MidNodeShape(m', s, l, a0, post, ShortcutPtr(pre0), -1);
    } else {
      MidNodeShape(m', s, l, a0, post, d.back, d.slot);
    }
  }

  lemma {:induction false} MidPath(s: Tree, base: nat, l: Leaf, a0: Addr, pre0: Addr, post: Addr)
    requires s.Shortcut? && |s.prefix| <= 16 && !(s.prefix <= l.key)
    ensures PathSet(MidSplit(s, base, l, a0, pre0, post), a0) == {a0}
  {
    assert Path(MidNode(s, l, a0, post), a0) == [a0];
    assert Path(MidSplit(s, base, l, a0, pre0, post), a0) == [a0];
  }

  lemma {:induction false} MidSize(s: Tree, dd: nat, l: Leaf, a0: Addr, post: Addr)
    requires s.Shortcut? && |s.prefix| <= 16 && !(s.prefix <= l.key) && s.next.Node? && dd == FirstDiff(s.prefix, l.key)
    ensures |Leaves(MidNode(s, l, a0, post))| == |Leaves(s)| + 1
  {
    MidLeaves(s, dd, l, a0, a0, post);
    assert MidSplit(s, dd, l, a0, a0, post) == MidNode(s, l, a0, post);
  }

  lemma {:induction false} MidNodeCounts(m': Memory, s: Tree, dd: nat, l: Leaf, a0: Addr, post: Addr)
    requires s.Shortcut? && |s.prefix| <= 16 && !(s.prefix <= l.key) && s.next.Node? && dd == FirstDiff(s.prefix, l.key)
    requires a0 in m' && m'[a0].NodeCell? && m'[a0].nr == |Leaves(s)| && Counts(m', MidRest(s, dd, post), {a0}, 1)
    ensures Counts(m', MidNode(s, l, a0, post), {a0}, 1)
  {
    var n := MidNode(s, l, a0, post);
    assert |Leaves(n)| == |Leaves(s)| + 1 by { MidSize(s, dd, l, a0, post); }
    forall j | 0 <= j < |n.slots| && Meta(n.slots[j]) ensures Counts(m', n.slots[j], {a0}, 1) {
      assert n.slots[j] == MidRest(s, dd, post);
    }
  }

  lemma {:induction false} MidCounts(m: Memory, m': Memory, s: Tree, base: nat, l: Leaf, a0: Addr, pre0: Addr,
                                     post: Addr, back: Ptr, parentSlot: int)
    requires s.Shortcut? && |s.prefix| <= 16 && !(s.prefix <= l.key) && s.next.Node? && Distinct(s)
    requires Counts(m, s, {}, 0) && MidCells(m, m', s, base, l, a0, pre0, post, back, parentSlot) && a0 !in Addrs(s)
    ensures Counts(m', MidSplit(s, base, l, a0, pre0, post), {a0}, 1)
  {
    var dd := FirstDiff(s.prefix, l.key);
    RestCounts(m, m', s, dd, a0, post);
    MidNodeCounts(m', s, dd, l, a0, post);
  }

  lemma {:induction false} MidAddrs(s: Tree, base: nat, l: Leaf, a0: Addr, pre0: Addr, post: Addr, added: set<Addr>)
    requires s.Shortcut? && |s.prefix| <= 16 && !(s.prefix <= l.key) && s.next.Node? && Distinct(s)
    requires a0 !in Addrs(s)
    requires FirstDiff(s.prefix, l.key) > base ==> pre0 !in Addrs(s) + {a0}
    requires FirstDiff(s.prefix, l.key) + 1 < |s.prefix| ==> post !in Addrs(s) + {a0} && (FirstDiff(s.prefix, l.key) > base ==> post != pre0)
    requires added == {a0} + (if FirstDiff(s.prefix, l.key) > base then {pre0} else {})
                      + (if FirstDiff(s.prefix, l.key) + 1 < |s.prefix| then {post} else {})
    ensures Distinct(MidSplit(s, base, l, a0, pre0, post))
    ensures Addrs(MidSplit(s, base, l, a0, pre0, post)) == Addrs(s.next) + added
  {
    MidNodeAddrs(s, l, a0, post);
  }

  lemma {:induction false} MidNodeAddrs(s: Tree, l: Leaf, a0: Addr, post: Addr)
    requires s.Shortcut? && |s.prefix| <= 16 && !(s.prefix <= l.key) && s.next.Node? && Distinct(s) && a0 !in Addrs(s)
    requires FirstDiff(s.prefix, l.key) + 1 < |s.prefix| ==> post !in Addrs(s) + {a0}
    ensures Distinct(MidNode(s, l, a0, post))
    ensures Addrs(MidNode(s, l, a0, post)) == Addrs(s.next) + {a0} + if FirstDiff(s.prefix, l.key) + 1 < |s.prefix| then {post} else {}
  {
    var dd := FirstDiff(s.prefix, l.key);
    var n := MidNode(s, l, a0, post);
    var rest := MidRest(s, dd, post);
    MidRestAddrs(s, dd, post);
    assert forall j :: 0 <= j < 16 ==> if j == s.prefix[dd] then n.slots[j] == rest else Addrs(n.slots[j]) == {} && Distinct(n.slots[j]);
    OneBranchAddrs(n.slots, s.prefix[dd], rest);
  }

  lemma {:induction false} MidRestAddrs(s: Tree, dd: nat, post: Addr)
    requires s.Shortcut? && dd < |s.prefix| && Distinct(s) && (dd + 1 < |s.prefix| ==> post !in Addrs(s))
    ensures var rest := MidRest(s, dd, post);
            Distinct(rest) && Addrs(rest) == Addrs(s.next) + if dd + 1 < |s.prefix| then {post} else {}
  {}

  lemma {:induction false} OneBranchAddrs(s: seq<Tree>, i: Nibble, b: Tree)
    requires |s| == 16 && s[i] == b && forall j :: 0 <= j < 16 && j != i ==> Addrs(s[j]) == {}
    ensures AddrsOf(s) == Addrs(b)
  {}
}
