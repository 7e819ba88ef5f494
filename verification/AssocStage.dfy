/**
 The operations on memory that come before an edit is applied: walking, looking
 up, allocating, and preparing the cells and the script of an insertion or a
 deletion.  Nothing that the array reaches is changed yet.
 */
module AssocStage {
  import opened Common
  import opened AssocTree
  import opened AssocPlace
  import opened AssocWalk
  import opened AssocInsert
  import opened AssocRefine
  import opened AssocMemory
  import opened AssocSlots
  import opened AssocScript
  import opened AssocPlans

  // ------------------------------------------------------------- walking

  /** `base` is the level at which a mismatching shortcut is taken to start. */
  datatype Walked = NoTree | AtNode(addr: Addr, level: nat) | AtShortcut(addr: Addr, base: nat, diff: nat)

  /** The walk's outcome in memory is the walk's outcome in the tree. */
  ghost predicate Reports(w: Walked, r: WalkResult, k: Key) {
    match r
    case TreeEmpty => w == NoTree
    case TerminalNode(n, d) => n.Node? && w == AtNode(n.addr, |d.pre|)
    case WrongShortcut(s, d) =>
      && s.Shortcut? && |s.prefix| <= 16 && !(s.prefix <= k)
      && w == AtShortcut(s.addr, MidBase(d), FirstDiff(s.prefix, k))
    case Confused => false
  }

  /** The walk stands at `cur`, having consumed the prefix of its surroundings. */
  ghost predicate Standing(m: Memory, cursor: Ptr, level: nat, k: Key, cur: Tree, d: Ctx) {
    && WF(cur, d.pre) && Shape(m, cur, d.back, d.slot) && d.pre <= k && cursor == PtrOf(cur)
    && if cur.Node? then level == |d.pre| else level + 1 == MidBase(d)
  }

  lemma {:induction false} StepDown(m: Memory, cursor: Ptr, level: nat, k: Key, cur: Tree, d: Ctx)
    requires Standing(m, cursor, level, k, cur, d) && cur.Node? && IsMeta(m[cur.addr].slots[k[level]])
    ensures cur.slots[k[level]] < cur && Walk(cur, d, k) == Walk(cur.slots[k[level]], Below(cur, d, k[level]), k)
    ensures var p := m[cur.addr].slots[k[level]];
            Standing(m, p, if p.NodePtr? then level + 1 else level, k, cur.slots[k[level]], Below(cur, d, k[level]))
  {
    var i := k[level];
    assert d.pre + [i] <= k;
  }

  lemma {:induction false} StepThrough(m: Memory, cursor: Ptr, level: nat, k: Key, cur: Tree, d: Ctx)
    requires Standing(m, cursor, level, k, cur, d) && cur.Shortcut? && cur.prefix <= k
    ensures Walk(cur, d, k) == Walk(cur.next, Behind(cur), k)
    ensures Standing(m, m[cur.addr].next, |cur.prefix|, k, cur.next, Behind(cur))
  {}

  /** Follows nodes and matching shortcuts as far as the key leads. */
  method WalkCells(m: Memory, root: Ptr, k: Key, ghost t: Tree) returns (w: Walked)
    requires root == PtrOf(t) && (t == Empty || (WF(t, []) && Shape(m, t, Null, -1)))
    ensures Reports(w, Walk(t, TOP, k), k)
  {
    if root == Null { return NoTree; }
    var cursor, level: nat := root, 0;
    ghost var cur, d := t, TOP;
    while true
      invariant Standing(m, cursor, level, k, cur, d) && Walk(t, TOP, k) == Walk(cur, d, k)
      decreases cur
    {
      if cursor.NodePtr? {
        var slot := k[level];
        var p := m[cursor.addr].slots[slot];
        if !IsMeta(p) {
          return AtNode(cursor.addr, level);
        }
        StepDown(m, cursor, level, k, cur, d);
        cursor := p;
        if p.NodePtr? { level := level + 1; }
        cur, d := cur.slots[slot], Below(cur, d, slot);
      } else {
        var cell := m[cursor.addr];
        assert level + 1 <= |cell.prefix|;
        if !(cell.prefix <= k) {
          return AtShortcut(cursor.addr, level + 1, FirstDiff(cell.prefix, k));
        }
        StepThrough(m, cursor, level, k, cur, d);
        cursor, level := cell.next, |cell.prefix|;
        cur, d := cur.next, Behind(cur);
      }
    }
  }

  /** The scan of a terminal node for a matching leaf. */
  method ScanLeaf(ps: seq<Ptr>, k: Key) returns (found: Option<Obj>)
    ensures found == Search(ps, k)
  {
    found := None;
    var i := 0;
    while i < |ps|
      invariant 0 <= i <= |ps| && Search(ps, k) == Search(ps[i..], k)
    {
      if ps[i].LeafPtr? && ps[i].leaf.key == k {
        return Some(ps[i].leaf.obj);
      }
      assert ps[i..][1..] == ps[i + 1..];
      i := i + 1;
    }
  }

  method FindCells(m: Memory, root: Ptr, k: Key, ghost t: Tree) returns (found: Option<Obj>)
    requires Array(t) && root == PtrOf(t) && Shape(m, t, Null, -1)
    ensures Find(t, k) == AsAnswer(found)
  {
    var w := WalkCells(m, root, k, t);
    match w {
      case AtNode(a, _) =>
        if t != Empty {
          WalkLocated(t, TOP, k);
          LocatedShape(m, t, TOP, Walk(t, TOP, k).node, Walk(t, TOP, k).at);
        }
        found := ScanLeaf(m[a].slots, k);
      case _ => found := None;
    }
  }

  // ---------------------------------------------------------- allocation

  lemma {:induction false} Crowd(s: set<Addr>, n: nat)
    requires forall x: Addr :: x < n ==> x in s
    ensures |s| >= n
  {
    if n > 0 { Crowd(s - {n - 1}, n - 1); }
  }

  /** An unused address always exists; whether the allocator has one to give is another matter. */
  lemma {:induction false} SomeUnused(m: Memory)
    ensures exists a: Addr :: a !in m
  {
    if forall a: Addr :: a in m {
      Crowd(m.Keys, |m| + 1);
      assert false;
    }
  }

  function ZeroNode(): Cell {
    NodeCell(Null, 0, seq(16, _ => Null), 0)
  }

  function ZeroShortcut(): Cell {
    ShortcutCell(Null, 0, [], Null)
  }

  /** Hands out any address not in use, as long as there is room. */
  method Allocate(m: Memory, room: nat) returns (a: Option<Addr>)
    ensures (a.Some? <==> room > 0) && (a.Some? ==> a.value !in m)
  {
    if room == 0 { return None; }
    SomeUnused(m);
    var x: Addr :| x !in m;
    return Some(x);
  }

  // ------------------------------------------------------ splitting a node

  ghost predicate PtrTo(ps: seq<Ptr>, b: Addr) {
    exists i :: 0 <= i < |ps| && IsMeta(ps[i]) && ps[i].addr == b
  }

  /** The loop that records whose back pointers have to move. */
  method CollectBacks(ps: seq<Ptr>, cache: seq<nat>, ghost l: Leaf, ghost level: nat) returns (kids: seq<Addr>)
    requires Caches(cache, ps, l, level)
    ensures forall b :: b in kids <==> PtrTo(ps, b)
  {
    kids := [];
    var i := 0;
    while i < 16
      invariant 0 <= i <= 16
      invariant forall b :: b in kids <==> PtrTo(ps[..i], b)
    {
      ghost var was := ps[..i];
      assert ps[..i + 1] == was + [ps[i]];
      if cache[i] == META_SEGMENT {
        kids := kids + [ps[i].addr];
        assert ps[..i + 1][i] == ps[i];
      }
      forall b ensures b in kids <==> PtrTo(ps[..i + 1], b) {
        if PtrTo(was, b) {
          var j :| 0 <= j < |was| && IsMeta(was[j]) && was[j].addr == b;
          assert ps[..i + 1][j] == was[j];
        }
        if PtrTo(ps[..i + 1], b) {
          var j :| 0 <= j < i + 1 && IsMeta(ps[..i + 1][j]) && ps[..i + 1][j].addr == b;
          assert j < i ==> was[j] == ps[j];
        }
      }
      i := i + 1;
    }
    assert ps[..16] == ps;
  }

  lemma {:induction false} PtrToChild(n: Tree, b: Addr)
    requires n.Node?
    ensures PtrTo(Ptrs(n.slots), b) <==> IsChild(n, b)
  {}

  /** The node `u` holds what the full node `n` and the leaf hold, under addresses of its own. */
  ghost predicate SplitTree(n: Tree, l: Leaf, level: nat, a1: Addr, on: Addr, u: Tree) {
    && n.Node? && u.Node? && SplitsInto(n.slots, l, level, u)
    && Distinct(u) && Addrs(u) == AddrsOf(n.slots) + {u.addr, a1} && on in {u.addr, a1}
  }

  /** `m` is `m0` with the cells in `s` put in. */
  ghost predicate Extends(m0: Memory, m: Memory, s: set<Addr>) {
    m.Keys == m0.Keys + s && forall b :: b in m0 && b !in s ==> m[b] == m0[b]
  }

  /** `m'` differs from `m` at most in the cells of `s`. */
  ghost predicate Only(m: Memory, m': Memory, s: set<Addr>) {
    m'.Keys == m.Keys && forall b :: b in m && b !in s ==> m'[b] == m[b]
  }

  /** Memory that holds `u`, up to the count of the leaf that was added at `on`. */
  ghost predicate Lies(m: Memory, u: Tree, back: Ptr, slot: int, on: Addr) {
    Shape(m, u, back, slot) && Counts(m, u, PathSet(u, on), 1) && IsNodeCell(m, on)
  }

  /** The memory `m'`, apart from `m` only where it holds `u`, a split of the full node `n` with the leaf. */
  ghost predicate Splitted(m: Memory, m': Memory, n: Tree, l: Leaf, level: nat, a1: Addr, back: Ptr, slot: int,
                           on: Addr, u: Tree) {
    SplitTree(n, l, level, a1, on, u) && Only(m, m', Addrs(u)) && Lies(m', u, back, slot, on)
  }

  /** The prepared memory `m`, and `m'` after the leaf and the back pointers are written. */
  ghost predicate Prepared(m0: Memory, m: Memory, m': Memory, n: Tree, l: Leaf, level: nat, a1: Addr, back: Ptr,
                           slot: int,
                           w: Write, kids: seq<Addr>, on: Addr, u: Tree)
  {
    && u.Node? && Extends(m0, m, {u.addr, a1}) && m' == Reback(Put(m, w), kids, NodePtr(u.addr))
    && Splitted(m, m', n, l, level, a1, back, slot, on, u)
  }

  lemma {:induction false} RebackOutside(m: Memory, w: Write, kids: seq<Addr>, to: Ptr, s: set<Addr>)
    requires w.at.SlotLoc? && w.at.addr in s && forall b :: b in kids ==> b in s
    ensures Only(m, Reback(Put(m, w), kids, to), s)
  {
    forall b ensures b in Reback(Put(m, w), kids, to) <==> b in m { RebackAt(Put(m, w), kids, to, b); }
    forall b | b in m && b !in s ensures Reback(Put(m, w), kids, to)[b] == m[b] { RebackAt(Put(m, w), kids, to, b); }
  }

  lemma {:induction false} SplitLies(m0: Memory, m: Memory, m': Memory, n: Tree, d: Ctx, l: Leaf, level: nat,
                                     slot: Nibble, a0: Addr, s0: seq<Tree>, a1: Addr, s1: seq<Tree>,
                                     back: Ptr, parentSlot: int, nr1: int, slot': int, on: Addr)
    requires n.Node? && Distinct(n) && Shape(m0, n, d.back, d.slot) && Counts(m0, n, {}, 0) && Agree(m0, m, Addrs(n))
    requires Splits(n.slots, l, level, slot, a1, s0, s1) && (slot' >= 0 ==> slot' == parentSlot)
    requires SplitCells(m, m', n, slot, a0, s0, a1, s1, back, parentSlot, nr1)
    requires on in {a0, a1} && nr1 == |Items(Ptrs(s1))| - (if on == a1 then 1 else 0)
    ensures Lies(m', Node(a0, s0), back, slot', on)
  {
    assert Shape(m, n, d.back, d.slot) by { ShapeFrame(m0, m, n, d.back, d.slot); }
    assert Counts(m, n, {}, 0) by { CountsFrame(m0, m, n, {}, 0, {}, 0); }
    SplitShape(m, m', n, d, l, level, slot, a0, s0, a1, s1, back, parentSlot, nr1, slot');
    SplitCounts(m, m', n, d, l, level, slot, a0, s0, a1, s1, back, parentSlot, nr1, on);
  }

  lemma {:induction false} SplitIsTree(n: Tree, l: Leaf, level: nat, slot: Nibble, a0: Addr, s0: seq<Tree>, a1: Addr,
                                       s1: seq<Tree>, on: Addr)
    requires n.Node? && Distinct(n) && Splits(n.slots, l, level, slot, a1, s0, s1)
    requires a0 != a1 && a0 !in Addrs(n) && a1 !in Addrs(n) && on in {a0, a1}
    ensures SplitTree(n, l, level, a1, on, Node(a0, s0))
  {
    SplitAddrs(n, l, level, slot, a0, s0, a1, s1);
    assert Splits(n.slots, l, level, slot, a1, Node(a0, s0).slots, s1);
  }

  lemma {:induction false} KidsInside(n: Tree, kids: seq<Addr>)
    requires n.Node? && forall b :: b in kids <==> IsChild(n, b)
    ensures forall b :: b in kids ==> b in AddrsOf(n.slots)
  {}

  lemma {:induction false} SplitPrepared(m0: Memory, m: Memory, n: Tree, d: Ctx, l: Leaf, level: nat, slot: Nibble,
                                         a0: Addr, s0: seq<Tree>, a1: Addr, s1: seq<Tree>,
                                         back: Ptr, parentSlot: int, nr1: int, slot': int, w: Write, kids: seq<Addr>, on: Addr, m': Memory)
    requires n.Node? && Distinct(n) && Shape(m0, n, d.back, d.slot) && Counts(m0, n, {}, 0) && m' == Reback(Put(m, w), kids, NodePtr(a0))
    requires Splits(n.slots, l, level, slot, a1, s0, s1) && (slot' >= 0 ==> slot' == parentSlot)
    requires a0 != a1 && a0 !in Addrs(n) && a1 !in Addrs(n) && on in {a0, a1}
    requires Extends(m0, m, {a0, a1})
    requires w.at.SlotLoc? && w.at.addr == on && forall b :: b in kids <==> IsChild(n, b)
    requires Put(m, w)[a0] == NodeCell(back, parentSlot, Ptrs(s0), |Leaves(n)|)
    requires Put(m, w)[a1] == NodeCell(NodePtr(a0), slot, Ptrs(s1), nr1)
    requires nr1 == |Items(Ptrs(s1))| - (if on == a1 then 1 else 0)
    ensures Prepared(m0, m, m', n, l, level, a1, back, slot', w, kids, on, Node(a0, s0))
  {
    assert Lies(m', Node(a0, s0), back, slot', on) by {
      SplitWritten(m, n, slot, a0, s0, a1, s1, back, parentSlot, nr1, w, kids, m');
      SplitLies(m0, m, m', n, d, l, level, slot, a0, s0, a1, s1, back, parentSlot, nr1, slot', on);
    }
    assert SplitTree(n, l, level, a1, on, Node(a0, s0)) by { SplitIsTree(n, l, level, slot, a0, s0, a1, s1, on); }
    assert Only(m, m', Addrs(Node(a0, s0))) by {
      KidsInside(n, kids);
      RebackOutside(m, w, kids, NodePtr(a0), Addrs(Node(a0, s0)));
    }
  }

  lemma {:induction false} CollisionSlot(cache: seq<nat>, ps: seq<Ptr>, l: Leaf, level: nat, slot: nat)
    requires Caches(cache, ps, l, level) && NoClash(ps, l, level) && slot != META_SEGMENT
    requires exists i, j :: Collides(cache, i, j) && cache[i] == slot
    ensures slot < 16 && !IsMeta(ps[slot])
  {}

  lemma {:induction false} SomeOther(cache: seq<nat>, slot: nat)
    requires |cache| == 17 && exists i, j :: 0 <= i < 17 && 0 <= j < 17 && cache[i] != cache[j]
    ensures exists i :: 0 <= i < 17 && cache[i] != slot
  {}

  /** Finds a slot that two leaves want and deals the leaves out around it. */
  method DealNode(ps: seq<Ptr>, l: Leaf, level: nat, cache: seq<nat>, np: Ptr)
    returns (slot: nat, q0: seq<Ptr>, q1: seq<Ptr>, next: nat, expelNew: bool, at: nat, ghost f0: seq<Ptr>, ghost f1: seq<Ptr>)
    requires Caches(cache, ps, l, level) && NoClash(ps, l, level) && np.NodePtr?
    requires exists i, j :: 0 <= i < 17 && 0 <= j < 17 && cache[i] != cache[j]
    ensures |q0| == |q1| == 16 && at < 16 && slot < 16
    ensures f0 == (if expelNew then q0 else q0[at := LeafPtr(l)]) && f1 == (if expelNew then q1[at := LeafPtr(l)] else q1)
    ensures SplitPtrs(ps, l, level, slot, np, f0, f1) && next == |Items(f1)| - (if expelNew then 1 else 0)
  {
    SomeCollide(cache, ps, l, level);
    slot := FindPair(cache);
    CollisionSlot(cache, ps, l, level, slot);
    SomeOther(cache, slot);
    q0, q1, next, expelNew, at := Distribute(ps, l, level, slot, np, cache);
    f0, f1 := if expelNew then q0 else q0[at := LeafPtr(l)], if expelNew then q1[at := LeafPtr(l)] else q1;
    if expelNew { ItemsPut(q1, at, l); }
  }

  lemma {:induction false} SplitPut(m0: Memory, m: Memory, a0: Addr, a1: Addr, c0: Cell, c1: Cell, second: bool,
                                    at: nat, p: Ptr)
    requires a0 != a1 && m == m0[a0 := c0][a1 := c1] && c0.NodeCell? && c1.NodeCell? && at < |c0.slots| && at < |c1.slots|
    ensures Extends(m0, m, {a0, a1})
    ensures var m' := Put(m, Write(SlotLoc(if second then a1 else a0, at), p));
            && m'[a0] == (if second then c0 else c0.(slots := c0.slots[at := p]))
            && m'[a1] == (if second then c1.(slots := c1.slots[at := p]) else c1)
  {}

  /** The cells and the leaf write of a split, as pointers. */
  ghost predicate Built(m0: Memory, m: Memory, ps: seq<Ptr>, l: Leaf, level: nat, slot: nat, a0: Addr, a1: Addr,
                        back: Ptr, parentSlot: int, nr: int, w: Write, on: Addr, q0: seq<Ptr>, q1: seq<Ptr>)
  {
    && SplitPtrs(ps, l, level, slot, NodePtr(a1), q0, q1) && Extends(m0, m, {a0, a1}) && on in {a0, a1}
    && w.at.SlotLoc? && w.at.addr == on
    && Put(m, w)[a0] == NodeCell(back, parentSlot, q0, nr)
    && Put(m, w)[a1] == NodeCell(NodePtr(a0), slot, q1, |Items(q1)| - (if on == a1 then 1 else 0))
  }

  method BuildSplit(m0: Memory, ps: seq<Ptr>, nr: int, l: Leaf, level: nat, cache: seq<nat>, a0: Addr, a1: Addr,
                    back: Ptr, parentSlot: int)
    returns (m: Memory, w: Write, on: Addr, ghost slot: nat, ghost q0': seq<Ptr>, ghost q1': seq<Ptr>)
    requires Caches(cache, ps, l, level) && NoClash(ps, l, level) && a0 != a1
    requires exists i, j :: 0 <= i < 17 && 0 <= j < 17 && cache[i] != cache[j]
    ensures Built(m0, m, ps, l, level, slot, a0, a1, back, parentSlot, nr, w, on, q0', q1')
  {
    var s, q0, q1, next, expelNew, at;
    s, q0, q1, next, expelNew, at, q0', q1' := DealNode(ps, l, level, cache, NodePtr(a1));
    slot := s;
    m, w, on := BuildCells(m0, l, a0, a1, back, parentSlot, nr, s, q0, q1, next, expelNew, at);
    BuiltIs(m0, m, ps, l, level, a0, a1, back, parentSlot, nr, s, q0, q1, next, expelNew, at, q0', q1');
  }

  method BuildCells(m0: Memory, l: Leaf, a0: Addr, a1: Addr, back: Ptr, parentSlot: int, nr: int,
                    s: nat, q0: seq<Ptr>, q1: seq<Ptr>, next: nat, expelNew: bool, at: nat)
    returns (m: Memory, w: Write, on: Addr)
    ensures m == m0[a0 := NodeCell(back, parentSlot, q0, nr)][a1 := NodeCell(NodePtr(a0), s, q1, next)]
    ensures on == (if expelNew then a1 else a0) && w == Write(SlotLoc(on, at), LeafPtr(l))
  {
    on := if expelNew then a1 else a0;
    m := m0[a0 := NodeCell(back, parentSlot, q0, nr)][a1 := NodeCell(NodePtr(a0), s, q1, next)];
    w := Write(SlotLoc(on, at), LeafPtr(l));
  }

  lemma {:induction false} BuiltIs(m0: Memory, m: Memory, ps: seq<Ptr>, l: Leaf, level: nat, a0: Addr, a1: Addr,
                                   back: Ptr, parentSlot: int,
                                   nr: int, s: nat, q0: seq<Ptr>, q1: seq<Ptr>, next: nat, expelNew: bool, at: nat, f0: seq<Ptr>, f1: seq<Ptr>)
    requires a0 != a1 && |q0| == |q1| == 16 && at < 16
    requires SplitPtrs(ps, l, level, s, NodePtr(a1), f0, f1) && next == |Items(f1)| - (if expelNew then 1 else 0)
    requires m == m0[a0 := NodeCell(back, parentSlot, q0, nr)][a1 := NodeCell(NodePtr(a0), s, q1, next)]
    requires f0 == (if expelNew then q0 else q0[at := LeafPtr(l)]) && f1 == (if expelNew then q1[at := LeafPtr(l)] else q1)
    ensures var on := if expelNew then a1 else a0;
            Built(m0, m, ps, l, level, s, a0, a1, back, parentSlot, nr, Write(SlotLoc(on, at), LeafPtr(l)), on, f0, f1)
  {
    SplitPut(m0, m, a0, a1, NodeCell(back, parentSlot, q0, nr), NodeCell(NodePtr(a0), s, q1, next), expelNew, at, LeafPtr(l));
  }

  /**
   Splits a full node and prepares the writes.  `back` and `parentSlot` say what
   the new upper node is to hang from.
   */
  method SplitNode(m0: Memory, na: Addr, l: Leaf, level: nat, cache: seq<nat>, a0: Addr, a1: Addr, back: Ptr,
                   parentSlot: int,
                   ghost n: Tree, ghost d: Ctx, ghost slot': int)
    returns (m: Memory, w: Write, kids: seq<Addr>, on: Addr, ghost u: Tree, ghost m': Memory)
    requires n.Node? && n.addr == na && |n.slots| == 16 && Distinct(n) && Shape(m0, n, d.back, d.slot) && Counts(m0, n, {}, 0)
    requires Caches(cache, Ptrs(n.slots), l, level) && NoClash(Ptrs(n.slots), l, level)
    requires exists i, j :: 0 <= i < 17 && 0 <= j < 17 && cache[i] != cache[j]
    requires a0 != a1 && a0 !in Addrs(n) && a1 !in Addrs(n) && (slot' >= 0 ==> slot' == parentSlot)
    ensures Extends(m0, m, {a0, a1}) && on in {a0, a1}
    ensures Prepared(m0, m, m', n, l, level, a1, back, slot', w, kids, on, u) && u.addr == a0
  {
    ghost var slot, q0, q1;
    m, w, on, slot, q0, q1 := BuildSplit(m0, m0[na].slots, m0[na].nr, l, level, cache, a0, a1, back, parentSlot);
    kids := CollectBacks(m0[na].slots, cache, l, level);
    u, m' := SplitBuilt(m0, m, n, d, l, level, slot, a0, a1, back, parentSlot, slot', w, kids, on, q0, q1);
  }

  lemma {:induction false} SplitBuilt(m0: Memory, m: Memory, n: Tree, d: Ctx, l: Leaf, level: nat, slot: Nibble,
                                      a0: Addr, a1: Addr,
                                      back: Ptr, parentSlot: int, slot': int, w: Write, kids: seq<Addr>, on: Addr,
                                      q0: seq<Ptr>, q1: seq<Ptr>)
    returns (u: Tree, m': Memory)
    requires n.Node? && |n.slots| == 16 && level < 16 && Distinct(n) && Shape(m0, n, d.back, d.slot) && Counts(m0, n, {}, 0)
    requires a0 != a1 && a0 !in Addrs(n) && a1 !in Addrs(n) && (slot' >= 0 ==> slot' == parentSlot)
    requires Built(m0, m, Ptrs(n.slots), l, level, slot, a0, a1, back, parentSlot, m0[n.addr].nr, w, on, q0, q1)
    requires forall b :: b in kids <==> PtrTo(Ptrs(n.slots), b)
    ensures Prepared(m0, m, m', n, l, level, a1, back, slot', w, kids, on, u) && u.addr == a0
  {
    var s1 := LiftSlots(q1, seq(16, _ => Empty), 0, Empty);
    var s0 := LiftSlots(q0, n.slots, slot, Node(a1, s1));
    LiftSplits(n.slots, l, level, slot, a1, q0, q1, s0, s1);
    forall b ensures b in kids <==> IsChild(n, b) { PtrToChild(n, b); }
    m' := Reback(Put(m, w), kids, NodePtr(a0));
    SplitPrepared(m0, m, n, d, l, level, slot, a0, s0, a1, s1, back, parentSlot, |Items(q1)| - (if on == a1 then 1 else 0), slot', w, kids, on, m');
    u := Node(a0, s0);
  }
}
