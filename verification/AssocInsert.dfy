/**
 What an insertion script puts in place of the subtree the walk stopped at, and
 when the result is again an array.
 */
module AssocInsert {
  import opened AssocTree
  import opened AssocPlace
  import opened AssocWalk

  /** The first segment at which a shortcut's prefix and a key disagree. */
  function FirstDiff(p: seq<Nibble>, k: Key): (n: nat)
    requires |p| <= 16 && !(p <= k)
    ensures n < |p| && p[..n] == k[..n] && p[n] != k[n]
  {
    if p[0] != k[0] then 0 else DiffFrom(p, k, 1)
  }

  function DiffFrom(p: seq<Nibble>, k: Key, i: nat): (n: nat)
    requires i <= |p| <= 16 && p[..i] == k[..i] && !(p <= k)
    ensures i <= n < |p| && p[..n] == k[..n] && p[n] != k[n]
    decreases |p| - i
  {
    if i < |p| && p[i] != k[i] then i
    else
      assert i < |p| by { assert p[..|p|] == p; }
      assert p[..i + 1] == p[..i] + [p[i]] && k[..i + 1] == k[..i] + [k[i]];
      DiffFrom(p, k, i + 1)
  }

  function Blank(): (s: seq<Tree>)
    ensures |s| == 16 && forall i :: 0 <= i < 16 ==> s[i] == Empty
  {
    seq(16, _ => Empty)
  }

  lemma {:induction false} NoItems(ts: seq<Tree>)
    requires forall i :: 0 <= i < |ts| ==> !ts[i].Item?
    ensures Items(Ptrs(ts)) == multiset{}
  {
    if ts != [] {
      NoItems(ts[1..]);
      assert Ptrs(ts)[1..] == Ptrs(ts[1..]);
    }
  }

  lemma {:induction false} NoBranches(ts: seq<Tree>)
    requires forall i :: 0 <= i < |ts| ==> !Meta(ts[i])
    ensures BranchLeaves(ts) == multiset{}
  {
    if ts != [] { NoBranches(ts[1..]); }
  }

  // ------------------------------------------------- leaf into a free slot

  /** The leaf takes slot `i` of the node, which is empty or holds the same key. */
  ghost predicate Settles(n: Tree, l: Leaf, i: nat, u: Tree) {
    && n.Node? && i < |n.slots|
    && u == Node(n.addr, n.slots[i := Item(l)])
    && (n.slots[i].Item? ==> n.slots[i].leaf.key == l.key)
    && (n.slots[i] == Empty ==> forall x :: x in Items(Ptrs(n.slots)) ==> x.key != l.key)
    && !Meta(n.slots[i])
  }

  lemma {:induction false} SettlesItems(n: Tree, l: Leaf, i: nat, u: Tree)
    requires Settles(n, l, i, u)
    ensures Items(Ptrs(u.slots)) + ItemOf(PtrOf(n.slots[i])) == Items(Ptrs(n.slots)) + multiset{l}
    ensures BranchLeaves(u.slots) == BranchLeaves(n.slots)
  {
    ItemsSet(n.slots, i, Item(l));
    BranchLeavesSame(n.slots, u.slots);
  }

  /** `gone` is what `l` replaces among `ms`: the leaf of the same key, if there is one. */
  ghost predicate Supersedes(ms: multiset<Leaf>, l: Leaf, gone: multiset<Leaf>) {
    || (gone == multiset{} && forall y :: y in ms ==> y.key != l.key)
    || (exists y :: y in ms && y.key == l.key && gone == multiset{y})
  }

  lemma {:induction false} SettlesSupersedes(n: Tree, l: Leaf, i: nat, u: Tree)
    requires Settles(n, l, i, u)
    ensures Supersedes(Items(Ptrs(n.slots)), l, ItemOf(PtrOf(n.slots[i])))
  {
    if n.slots[i].Item? {
      ItemsAt(Ptrs(n.slots), n.slots[i].leaf);
      assert Ptrs(n.slots)[i] == LeafPtr(n.slots[i].leaf);
    }
  }

  /** `ns` is `ms` with any leaf of the key of `l` traded for `l`. */
  lemma {:induction false} Traded(ms: multiset<Leaf>, l: Leaf, gone: multiset<Leaf>, ns: multiset<Leaf>, x: Leaf)
    requires Unique(ms) && ns + gone == ms + multiset{l} && x in ns
    requires Supersedes(ms, l, gone)
    ensures ns[x] == 1 && (x == l || (x in ms && x.key != l.key))
  {
    assert (ns + gone)[x] == (ms + multiset{l})[x];
    if gone != multiset{} {
      var y :| y in ms && y.key == l.key && gone == multiset{y};
      assert ms[y] == 1;
      if x.key == l.key && x in ms { assert x == y; }
    }
  }

  lemma {:induction false} SettlesFit(ms: multiset<Leaf>, l: Leaf, gone: multiset<Leaf>, ns: multiset<Leaf>,
                                      slots: seq<Tree>, pre: seq<Nibble>)
    requires |pre| < 16 && |slots| == 16 && LeavesFit(ms, slots, pre)
    requires Fits(l, slots, pre)
    requires ns + gone == ms + multiset{l}
    requires Supersedes(ms, l, gone)
    ensures LeavesFit(ns, slots, pre)
  {
    forall x | x in ns ensures Fits(x, slots, pre) {
      Traded(ms, l, gone, ns, x);
    }
    forall x, y | x in ns && y in ns && x.key == y.key ensures x == y && ns[x] == 1 {
      Traded(ms, l, gone, ns, x);
      Traded(ms, l, gone, ns, y);
    }
  }

  lemma {:induction false} SettlesWF(n: Tree, pre: seq<Nibble>, l: Leaf, i: nat, u: Tree)
    requires Settles(n, l, i, u) && WF(n, pre) && Fits(l, n.slots, pre)
    ensures WF(u, pre)
  {
    assert LeavesFit(Items(Ptrs(u.slots)), n.slots, pre) by {
      SettlesItems(n, l, i, u);
      SettlesSupersedes(n, l, i, u);
      SettlesFit(Items(Ptrs(n.slots)), l, ItemOf(PtrOf(n.slots[i])), Items(Ptrs(u.slots)), n.slots, pre);
    }
    SettlesNodeWF(n, pre, u);
  }

  lemma {:induction false} SettlesLeaves(n: Tree, l: Leaf, i: nat, u: Tree)
    requires Settles(n, l, i, u)
    ensures Leaves(u) + ItemOf(PtrOf(n.slots[i])) == Leaves(n) + multiset{l}
  {
    SettlesItems(n, l, i, u);
    SumMove(Items(Ptrs(u.slots)), Items(Ptrs(n.slots)), ItemOf(PtrOf(n.slots[i])), multiset{l}, BranchLeaves(n.slots));
  }

  lemma {:induction false} SettlesNodeWF(n: Tree, pre: seq<Nibble>, u: Tree)
    requires n.Node? && u.Node? && WF(n, pre) && |u.slots| == 16
    requires forall j :: 0 <= j < 16 && (Meta(n.slots[j]) || Meta(u.slots[j])) ==> n.slots[j] == u.slots[j]
    requires LeavesFit(Items(Ptrs(u.slots)), n.slots, pre)
    ensures WF(u, pre)
  {}

  lemma {:induction false} SumMove(a: multiset<Leaf>, b: multiset<Leaf>, g: multiset<Leaf>, l: multiset<Leaf>,
                                   r: multiset<Leaf>)
    requires a + g == b + l
    ensures (a + r) + g == (b + r) + l
  {
    assert (a + r) + g == (a + g) + r;
    assert (b + r) + l == (b + l) + r;
  }

  // ------------------------------------------------------- splitting a node

  /**
   The slots `s` of a full node plus the leaf `l` redistributed over two nodes:
   `s0` keeps the metadata pointers in place and gets the new node `a1` in
   `slot`; the leaves whose segment is `slot` move there, at least two of them.
   */
  ghost predicate Splits(s: seq<Tree>, l: Leaf, level: nat, slot: Nibble, a1: Addr, s0: seq<Tree>, s1: seq<Tree>) {
    && |s| == |s0| == |s1| == 16 && level < 16
    && !Meta(s[slot]) && s0[slot] == Node(a1, s1)
    && (forall i :: 0 <= i < 16 && i != slot && (Meta(s[i]) || Meta(s0[i])) ==> s0[i] == s[i])
    && (forall i :: 0 <= i < 16 ==> !Meta(s1[i]))
    && Items(Ptrs(s0)) + Items(Ptrs(s1)) == Items(Ptrs(s)) + multiset{l}
    && (forall x :: x in Items(Ptrs(s1)) ==> x.key[level] == slot)
    && (forall x :: x in Items(Ptrs(s0)) ==> x.key[level] != slot)
    && |Items(Ptrs(s1))| >= 2
  }

  lemma {:induction false} SplitsBranches(s: seq<Tree>, l: Leaf, level: nat, slot: Nibble, a1: Addr, s0: seq<Tree>,
                                          s1: seq<Tree>)
    requires Splits(s, l, level, slot, a1, s0, s1)
    ensures BranchLeaves(s0) == BranchLeaves(s) + Items(Ptrs(s1))
  {
    var e := s0[slot := Empty];
    assert BranchLeaves(s) == BranchLeaves(e) by { BranchLeavesSame(s, e); }
    assert e[slot := s0[slot]] == s0;
    assert BranchLeaves(s0) == BranchLeaves(e) + Leaves(s0[slot]) by { BranchLeavesFill(e, slot, s0[slot]); }
    assert Leaves(s0[slot]) == Items(Ptrs(s1)) by { NoBranches(s1); }
  }

  /** No leaf is lost or invented by a split. */
  lemma {:induction false} SplitsLeaves(s: seq<Tree>, l: Leaf, level: nat, slot: Nibble, a: Addr, a0: Addr, a1: Addr,
                                        s0: seq<Tree>, s1: seq<Tree>)
    requires Splits(s, l, level, slot, a1, s0, s1)
    ensures Leaves(Node(a0, s0)) == Leaves(Node(a, s)) + multiset{l}
  {
    SplitsBranches(s, l, level, slot, a1, s0, s1);
    SplitSum(Items(Ptrs(s0)), Items(Ptrs(s1)), Items(Ptrs(s)), BranchLeaves(s), multiset{l});
  }

  lemma {:induction false} SplitSum(a: multiset<Leaf>, b: multiset<Leaf>, c: multiset<Leaf>, d: multiset<Leaf>, l: multiset<Leaf>)
    requires a + b == c + l
    ensures a + (d + b) == (c + d) + l
  {
    assert a + (d + b) == (a + b) + d;
    assert (c + d) + l == (c + l) + d;
  }

  /** Two different keys with a common prefix have a segment left to differ in. */
  lemma {:induction false} PairLeavesRoom(ms: multiset<Leaf>, pre: seq<Nibble>)
    requires |ms| >= 2 && Unique(ms) && |pre| <= 16
    requires forall x :: x in ms ==> pre <= x.key
    ensures |pre| < 16
  {
    var x :| x in ms;
    assert |ms - multiset{x}| == |ms| - 1;
    var y :| y in ms - multiset{x};
    assert ms[x] == 1;
    assert x != y;
    assert |pre| == 16 ==> x.key == pre && y.key == pre;
  }

  lemma {:induction false} SplitParts(ms: multiset<Leaf>, m0: multiset<Leaf>, m1: multiset<Leaf>, s: seq<Tree>,
                                      pre: seq<Nibble>)
    requires |pre| < 16 && |s| == 16 && LeavesFit(ms, s, pre) && m0 + m1 == ms
    ensures LeavesFit(m0, s, pre) && LeavesFit(m1, s, pre)
  {}

  /** The expelled leaves form a well-formed node of their own one level down. */
  lemma {:induction false} ExpelledWF(s: seq<Tree>, pre: seq<Nibble>, slot: Nibble, a1: Addr, s1: seq<Tree>)
    requires |pre| < 16 && |s| == |s1| == 16 && LeavesFit(Items(Ptrs(s1)), s, pre)
    requires forall i :: 0 <= i < 16 ==> !Meta(s1[i])
    requires forall x :: x in Items(Ptrs(s1)) ==> x.key[|pre|] == slot
    requires |Items(Ptrs(s1))| >= 2
    ensures WF(Node(a1, s1), pre + [slot])
  {
    var ms := Items(Ptrs(s1));
    forall x | x in ms ensures pre + [slot] <= x.key {
      assert Fits(x, s, pre);
    }
    PairLeavesRoom(ms, pre + [slot]);
    assert forall x :: x in ms ==> Fits(x, s1, pre + [slot]);
  }

  lemma {:induction false} KeptFit(m0: multiset<Leaf>, s: seq<Tree>, s0: seq<Tree>, pre: seq<Nibble>, slot: Nibble)
    requires |pre| < 16 && |s| == |s0| == 16 && LeavesFit(m0, s, pre)
    requires forall i :: 0 <= i < 16 && i != slot && Meta(s0[i]) ==> s0[i] == s[i]
    requires forall x :: x in m0 ==> x.key[|pre|] != slot
    ensures LeavesFit(m0, s0, pre)
  {}

  ghost predicate BranchesWF(s: seq<Tree>, pre: seq<Nibble>) {
    forall i :: 0 <= i < 16 && i < |s| && Meta(s[i]) ==> WF(s[i], pre + [i])
  }

  /** A split of slots whose leaves, old and new, belong here yields a well-formed node. */
  lemma {:induction false} SplitsWF(s: seq<Tree>, pre: seq<Nibble>, l: Leaf, slot: Nibble, a0: Addr, a1: Addr,
                                    s0: seq<Tree>, s1: seq<Tree>)
    requires |pre| < 16 && Splits(s, l, |pre|, slot, a1, s0, s1)
    requires LeavesFit(Items(Ptrs(s)) + multiset{l}, s, pre) && BranchesWF(s, pre)
    ensures WF(Node(a0, s0), pre)
  {
    SplitParts(Items(Ptrs(s)) + multiset{l}, Items(Ptrs(s0)), Items(Ptrs(s1)), s, pre);
    ExpelledWF(s, pre, slot, a1, s1);
    KeptFit(Items(Ptrs(s0)), s, s0, pre, slot);
    forall i | 0 <= i < 16 && Meta(s0[i]) ensures WF(s0[i], pre + [i]) {
      if i != slot { assert s0[i] == s[i]; }
    }
  }

  lemma {:induction false} JoinFits(ms: multiset<Leaf>, l: Leaf, s: seq<Tree>, pre: seq<Nibble>)
    requires |pre| < 16 && |s| == 16 && LeavesFit(ms, s, pre) && Fits(l, s, pre)
    requires forall x :: x in ms ==> x.key != l.key
    ensures LeavesFit(ms + multiset{l}, s, pre)
  {}

  // ------------------------------------------------------ splitting a shortcut

  /**
   What replaces a shortcut whose prefix disagrees with the key of `l`.  `base`
   is the level at which the replacement is taken to start; the source takes
   one segment as consumed even when the shortcut is the root.
   */
  function MidSplit(s: Tree, base: nat, l: Leaf, a0: Addr, pre0: Addr, post: Addr): Tree
    requires s.Shortcut? && |s.prefix| <= 16 && !(s.prefix <= l.key)
  {
    var n := MidNode(s, l, a0, post);
    var d := FirstDiff(s.prefix, l.key);
    if d > base then Shortcut(pre0, s.prefix[..d], n) else n
  }

  function MidNode(s: Tree, l: Leaf, a0: Addr, post: Addr): Tree
    requires s.Shortcut? && |s.prefix| <= 16 && !(s.prefix <= l.key)
  {
    var d := FirstDiff(s.prefix, l.key);
    Node(a0, MidSlots(s.prefix[d], MidRest(s, d, post), l))
  }

  function MidRest(s: Tree, d: nat, post: Addr): Tree
    requires s.Shortcut? && d < |s.prefix|
  {
    if d + 1 < |s.prefix| then Shortcut(post, s.prefix, s.next) else s.next
  }

  function MidSlots(slot: Nibble, rest: Tree, l: Leaf): (r: seq<Tree>)
    ensures |r| == 16
  {
    Blank()[slot := rest][(if slot == 0 then 1 else 0) := Item(l)]
  }

  /** The level at which the source starts the replacement of a shortcut. */
  function MidBase(d: Ctx): nat {
    if d.back == Null then 1 else |d.pre|
  }

  lemma {:induction false} FillTwoItems(b: seq<Tree>, slot: nat, rest: Tree, f: nat, l: Leaf)
    requires slot < |b| && f < |b| && f != slot && b[slot] == b[f] == Empty && Meta(rest)
    ensures Items(Ptrs(b[slot := rest][f := Item(l)])) == Items(Ptrs(b)) + multiset{l}
  {
    var c := b[slot := rest];
    assert Items(Ptrs(c)) == Items(Ptrs(b)) by { ItemsFill(b, slot, rest); }
    ItemsFill(c, f, Item(l));
  }

  lemma {:induction false} FillTwoBranches(b: seq<Tree>, slot: nat, rest: Tree, f: nat, l: Leaf)
    requires slot < |b| && f < |b| && f != slot && b[slot] == b[f] == Empty && Meta(rest)
    ensures BranchLeaves(b[slot := rest][f := Item(l)]) == BranchLeaves(b) + Leaves(rest)
  {
    var c := b[slot := rest];
    assert BranchLeaves(c) == BranchLeaves(b) + Leaves(rest) by { BranchLeavesFill(b, slot, rest); }
    BranchLeavesSame(c, c[f := Item(l)]);
  }

  lemma {:induction false} MidItems(slot: Nibble, rest: Tree, l: Leaf)
    requires Meta(rest)
    ensures Items(Ptrs(MidSlots(slot, rest, l))) == multiset{l}
    ensures BranchLeaves(MidSlots(slot, rest, l)) == Leaves(rest)
  {
    NoItems(Blank());
    NoBranches(Blank());
    var f := if slot == 0 then 1 else 0;
    FillTwoItems(Blank(), slot, rest, f, l);
    FillTwoBranches(Blank(), slot, rest, f, l);
  }

  /** Splitting a shortcut adds exactly the new leaf. */
  lemma {:induction false} MidLeaves(s: Tree, base: nat, l: Leaf, a0: Addr, pre0: Addr, post: Addr)
    requires s.Shortcut? && |s.prefix| <= 16 && !(s.prefix <= l.key) && s.next.Node?
    ensures Leaves(MidSplit(s, base, l, a0, pre0, post)) == Leaves(s) + multiset{l}
  {
    var d := FirstDiff(s.prefix, l.key);
    var rest := MidRest(s, d, post);
    MidItems(s.prefix[d], rest, l);
    assert Leaves(rest) == Leaves(s.next);
    assert multiset{l} + Leaves(s.next) == Leaves(s.next) + multiset{l};
  }

  lemma {:induction false} MidRestWF(s: Tree, pre: seq<Nibble>, d: nat, post: Addr)
    requires s.Shortcut? && WF(s, pre) && |pre| <= d < |s.prefix|
    ensures WF(MidRest(s, d, post), s.prefix[..d] + [s.prefix[d]])
  {
    assert s.prefix[..d] + [s.prefix[d]] == s.prefix[..d + 1];
    assert d + 1 == |s.prefix| ==> s.prefix[..d + 1] == s.prefix;
  }

  lemma {:induction false} MidSlotsWF(slot: Nibble, rest: Tree, l: Leaf, pre: seq<Nibble>, a0: Addr)
    requires Meta(rest) && |pre| < 16 && pre <= l.key && l.key[|pre|] != slot && WF(rest, pre + [slot])
    ensures WF(Node(a0, MidSlots(slot, rest, l)), pre)
  {
    MidItems(slot, rest, l);
    MidMeta(slot, rest, l);
    OneFits(l, MidSlots(slot, rest, l), pre);
  }

  lemma {:induction false} MidMeta(slot: Nibble, rest: Tree, l: Leaf)
    requires Meta(rest)
    ensures forall i :: 0 <= i < 16 && Meta(MidSlots(slot, rest, l)[i]) ==> i == slot && MidSlots(slot, rest, l)[i] == rest
  {}

  lemma {:induction false} OneFits(l: Leaf, slots: seq<Tree>, pre: seq<Nibble>)
    requires |pre| < 16 && |slots| == 16 && pre <= l.key && !Meta(slots[l.key[|pre|]])
    ensures LeavesFit(multiset{l}, slots, pre)
  {
    assert Fits(l, slots, pre);
  }

  lemma {:induction false} MidNodeWF(s: Tree, pre: seq<Nibble>, l: Leaf, a0: Addr, post: Addr)
    requires s.Shortcut? && WF(s, pre) && pre <= l.key && !(s.prefix <= l.key)
    ensures |pre| <= FirstDiff(s.prefix, l.key)
    ensures WF(MidNode(s, l, a0, post), s.prefix[..FirstDiff(s.prefix, l.key)])
  {
    var d := FirstDiff(s.prefix, l.key);
    assert s.prefix[..|pre|] == pre == l.key[..|pre|];
    MidRestWF(s, pre, d, post);
    MidSlotsWF(s.prefix[d], MidRest(s, d, post), l, s.prefix[..d], a0);
  }

  /** Started at the right level, the replacement of a shortcut is well formed. */
  lemma {:induction false} MidWF(s: Tree, pre: seq<Nibble>, base: nat, l: Leaf, a0: Addr, pre0: Addr, post: Addr)
    requires s.Shortcut? && WF(s, pre) && pre <= l.key && !(s.prefix <= l.key)
    requires FirstDiff(s.prefix, l.key) > base <==> FirstDiff(s.prefix, l.key) > |pre|
    ensures WF(MidSplit(s, base, l, a0, pre0, post), pre)
  {
    var d := FirstDiff(s.prefix, l.key);
    MidNodeWF(s, pre, l, a0, post);
    assert s.prefix[..|pre|] == pre;
    assert pre <= s.prefix[..d];
  }

  // ------------------------------------------------- clustering leaves

  /** All leaves of a full node agree with the new one on their segment here. */
  ghost predicate Clusters(s: seq<Tree>, level: nat, l: Leaf) {
    && |s| == 16 && level < 16
    && forall i :: 0 <= i < 16 ==> s[i].Item? && s[i].leaf.key != l.key && s[i].leaf.key[level] == l.key[level]
  }

  /** `d` is the first level at which some leaf of the slots leaves the key of `l`. */
  ghost predicate DivergesAt(s: seq<Tree>, l: Leaf, d: nat) {
    && |s| == 16 && d < 16
    && (forall i :: 0 <= i < 16 ==> s[i].Item? && s[i].leaf.key[..d] == l.key[..d])
    && (exists i :: 0 <= i < 16 && s[i].Item? && s[i].leaf.key[d] != l.key[d])
  }

  lemma {:induction false} DivergesLeaf(s: seq<Tree>, l: Leaf, level: nat, d: nat, x: Leaf)
    requires Clusters(s, level, l) && DivergesAt(s, l, d) && x in Items(Ptrs(s))
    ensures x.key != l.key && Fits(x, s, l.key[..d])
  {
    ItemsAt(Ptrs(s), x);
    var i :| 0 <= i < 16 && Ptrs(s)[i] == LeafPtr(x);
    assert s[i] == Item(x);
    assert x.key[..d] == l.key[..d];
  }

  lemma {:induction false} DivergesFit(s: seq<Tree>, pre: seq<Nibble>, l: Leaf, d: nat)
    requires |pre| < 16 && |s| == 16 && LeavesFit(Items(Ptrs(s)), s, pre)
    requires Clusters(s, |pre|, l) && DivergesAt(s, l, d)
    ensures LeavesFit(Items(Ptrs(s)) + multiset{l}, s, l.key[..d])
  {
    var ms := Items(Ptrs(s));
    assert LeavesFit(ms, s, l.key[..d]) && forall x :: x in ms ==> x.key != l.key by {
      forall x | x in ms ensures x.key != l.key && Fits(x, s, l.key[..d]) {
        DivergesLeaf(s, l, |pre|, d, x);
      }
    }
    assert Fits(l, s, l.key[..d]);
    JoinFits(ms, l, s, l.key[..d]);
  }

  lemma {:induction false} DivergesBelow(s: seq<Tree>, pre: seq<Nibble>, l: Leaf, d: nat)
    requires |pre| < 16 && |s| == 16 && LeavesFit(Items(Ptrs(s)), s, pre) && pre <= l.key
    requires Clusters(s, |pre|, l) && DivergesAt(s, l, d)
    ensures |pre| < d && pre <= l.key[..d]
  {
    var i :| 0 <= i < 16 && s[i].Item? && s[i].leaf.key[d] != l.key[d];
    ItemsAt(Ptrs(s), s[i].leaf);
    assert Ptrs(s)[i] == LeafPtr(s[i].leaf);
    assert Fits(s[i].leaf, s, pre);
    assert s[i].leaf.key[..|pre|] == pre == l.key[..|pre|];
  }
}
