/**
 Scripting an insertion: into an empty array, into the terminal node of the walk,
 or into the middle of a shortcut.  Every path yields a script whose writes have
 exactly the effect of one insertion step, or runs out of memory and leaves only
 cells of its own behind.
 */
module AssocGrowth {
  import opened Common
  import opened AssocTree
  import opened AssocPlace
  import opened AssocWalk
  import opened AssocInsert
  import opened AssocRefine
  import opened AssocMemory
  import opened AssocSlots
  import opened AssocScript
  import opened AssocPlans
  import opened AssocStage
  import opened AssocEdits

  const INSERTION := BLANK_SCRIPT.(adjustBy := 1)

  // ------------------------------------------------------ splitting a node

  ghost predicate SplitScript(n: Tree, d: Ctx, u: Tree, a1: Addr, w: Write, kids: seq<Addr>, on: Addr, e: Script) {
    && n.Node? && u.Node?
    && e == INSERTION.(leaf := w, rebacked := kids, backTo := NodePtr(u.addr), set0 := Write(ParentLoc(d), NodePtr(u.addr)),
                       adjustOn := Some(on), newMeta := {u.addr, a1}, excisedMeta := Some(n.addr))
  }

  lemma {:induction false} SplitTreeSize(n: Tree, l: Leaf, level: nat, a1: Addr, on: Addr, u: Tree)
    requires SplitTree(n, l, level, a1, on, u)
    ensures |Leaves(u)| == |Leaves(n)| + 1
  {
    var slot: Nibble, b, s1 :| Splits(n.slots, l, level, slot, b, u.slots, s1);
    SplitsLeaves(n.slots, l, level, slot, n.addr, u.addr, b, u.slots, s1);
  }

  lemma {:induction false} SplitFresh(t: Tree, n: Tree, d: Ctx, l: Leaf, level: nat, a1: Addr, on: Addr, u: Tree)
    requires Located(t, TOP, n, d) && Distinct(t) && Distinct(n) && SplitTree(n, l, level, a1, on, u) && {u.addr, a1} !! Addrs(t)
    ensures Fresh(t, n, u) && n.addr !in Addrs(u) && Addrs(n) + {u.addr, a1} == Addrs(u) + {n.addr}
  {
    LocatedAddrs(t, TOP, n, d);
  }

  lemma {:induction false} SplitReplaces(m0: Memory, t: Tree, n: Tree, d: Ctx, l: Leaf, a1: Addr, w: Write,
                                         kids: seq<Addr>, on: Addr, u: Tree, e: Script)
    requires Crowded(m0, t, n, d, l) && SplitScript(n, d, u, a1, w, kids, on, e) && {u.addr, a1} !! Addrs(t)
    requires SplitTree(n, l, |d.pre|, a1, on, u)
    ensures Replaces(t, n, d, u, e, on)
  {
    TerminalFacts(m0, t, n, d, l.key);
    SplitTreeSize(n, l, |d.pre|, a1, on, u);
    SplitFresh(t, n, d, l, |d.pre|, a1, on, u);
  }

  lemma {:induction false} LinkedWritten(m: Memory, e: Script, m': Memory, p: Ptr, d: Ctx)
    requires m' == Reback(Put(m, e.leaf), e.rebacked, e.backTo) && e.slotOf == None
    requires e.set0 == Write(ParentLoc(d), p) && e.set1 == NO_WRITE
    ensures Written(m, e) == Put(m', Write(ParentLoc(d), p))
  {}

  lemma {:induction false} OnlyMore(m: Memory, m': Memory, s: set<Addr>, a: Addr)
    requires Only(m, m', s)
    ensures Only(m, m', s + {a})
  {}

  lemma {:induction false} SplitScripted(m0: Memory, m: Memory, m': Memory, t: Tree, n: Tree, d: Ctx, l: Leaf, a1: Addr,
                                         w: Write, kids: seq<Addr>, on: Addr, u: Tree, e: Script)
    requires Crowded(m0, t, n, d, l) && SplitScript(n, d, u, a1, w, kids, on, e) && {u.addr, a1} !! Addrs(t)
    requires Extends(m0, m, {u.addr, a1}) && m' == Reback(Put(m, w), kids, NodePtr(u.addr))
    requires Splitted(m, m', n, l, |d.pre|, a1, d.back, d.slot, on, u)
    ensures Scripted(m, t, e, Subst(t, n.addr, u), Empty, TOP)
  {
    SplitReplaces(m0, t, n, d, l, a1, w, kids, on, u, e);
    OnlyMore(m, m', Addrs(u), n.addr);
    LinkedWritten(m, e, m', PtrOf(u), d);
    ReplacesScripted(m0, m, m', t, n, d, u, e, on);
  }

  lemma {:induction false} SplitStep(m: Memory, t: Tree, n: Tree, d: Ctx, l: Leaf, a1: Addr, on: Addr, u: Tree)
    requires Crowded(m, t, n, d, l) && !Clusters(n.slots, |d.pre|, l) && SplitTree(n, l, |d.pre|, a1, on, u) && {u.addr, a1} !! Addrs(t)
    ensures InsertStep(t, l, Subst(t, n.addr, u))
  {
    TerminalFacts(m, t, n, d, l.key);
    SplitFresh(t, n, d, l, |d.pre|, a1, on, u);
    assert Grows(n, d, l, u);
  }

  // ------------------------------------------------- clustering leaves

  ghost predicate ClusterScript(n: Tree, d: Ctx, u: Tree, a1: Addr, w: Write, kids: seq<Addr>, on: Addr, e: Script) {
    && n.Node? && u.Shortcut? && u.next.Node?
    && e == INSERTION.(leaf := w, rebacked := kids, backTo := NodePtr(u.next.addr), set0 := Write(ParentLoc(d), ShortcutPtr(u.addr)),
                       adjustOn := Some(on), newMeta := {u.next.addr, a1, u.addr}, excisedMeta := Some(n.addr))
  }

  /** The shortcut in front of the split node. */
  lemma {:induction false} ClusterLies(m: Memory, u: Tree, back: Ptr, slot: int, on: Addr, cell: Cell)
    requires u.Shortcut? && u.next.Node? && u.addr in m && m[u.addr] == cell
    requires cell.ShortcutCell? && cell.back == back && (slot >= 0 ==> cell.parentSlot == slot)
    requires cell.prefix == u.prefix && cell.next == NodePtr(u.next.addr)
    requires Lies(m, u.next, ShortcutPtr(u.addr), -1, on)
    ensures Lies(m, u, back, slot, on)
  {
    assert Path(u, on) == Path(u.next, on);
  }

  lemma {:induction false} ClusterFresh(t: Tree, n: Tree, d: Ctx, l: Leaf, level: nat, a1: Addr, on: Addr, u: Tree)
    requires u.Shortcut? && u.next.Node? && {u.next.addr, a1, u.addr} !! Addrs(t) && u.addr !in {u.next.addr, a1}
    requires Located(t, TOP, n, d) && Distinct(t) && Distinct(n) && SplitTree(n, l, level, a1, on, u.next)
    ensures Fresh(t, n, u) && n.addr !in Addrs(u) && Addrs(n) + {u.next.addr, a1, u.addr} == Addrs(u) + {n.addr}
  {
    SplitFresh(t, n, d, l, level, a1, on, u.next);
    LocatedAddrs(t, TOP, n, d);
  }

  lemma {:induction false} ClusterReplaces(m0: Memory, t: Tree, n: Tree, d: Ctx, l: Leaf, a1: Addr, w: Write,
                                           kids: seq<Addr>, on: Addr, u: Tree, e: Script)
    requires Crowded(m0, t, n, d, l) && ClusterScript(n, d, u, a1, w, kids, on, e)
    requires {u.next.addr, a1, u.addr} !! Addrs(t) && u.addr !in {u.next.addr, a1} && SplitTree(n, l, |u.prefix|, a1, on, u.next)
    ensures Replaces(t, n, d, u, e, on)
  {
    TerminalFacts(m0, t, n, d, l.key);
    SplitTreeSize(n, l, |u.prefix|, a1, on, u.next);
    ClusterFresh(t, n, d, l, |u.prefix|, a1, on, u);
  }

  lemma {:induction false} ClusterScripted(m0: Memory, m: Memory, m': Memory, t: Tree, n: Tree, d: Ctx, l: Leaf,
                                           a1: Addr, w: Write, kids: seq<Addr>, on: Addr, u: Tree, e: Script)
    requires Crowded(m0, t, n, d, l) && ClusterScript(n, d, u, a1, w, kids, on, e)
    requires {u.next.addr, a1, u.addr} !! Addrs(t) && u.addr !in {u.next.addr, a1}
    requires Extends(m0, m, {u.next.addr, a1, u.addr}) && SplitTree(n, l, |u.prefix|, a1, on, u.next)
    requires m' == Reback(Put(m, w), kids, NodePtr(u.next.addr)) && Only(m, m', Addrs(u)) && Lies(m', u, d.back, d.slot, on)
    ensures Scripted(m, t, e, Subst(t, n.addr, u), Empty, TOP)
  {
    ClusterReplaces(m0, t, n, d, l, a1, w, kids, on, u, e);
    OnlyMore(m, m', Addrs(u), n.addr);
    LinkedWritten(m, e, m', PtrOf(u), d);
    ReplacesScripted(m0, m, m', t, n, d, u, e, on);
  }

  lemma {:induction false} ClusterStep(m: Memory, t: Tree, n: Tree, d: Ctx, l: Leaf, a1: Addr, on: Addr, u: Tree)
    requires Crowded(m, t, n, d, l) && Clusters(n.slots, |d.pre|, l)
    requires u.Shortcut? && |u.prefix| < 16 && u.prefix == l.key[..|u.prefix|] && DivergesAt(n.slots, l, |u.prefix|)
    requires SplitTree(n, l, |u.prefix|, a1, on, u.next) && {u.next.addr, a1, u.addr} !! Addrs(t) && u.addr !in {u.next.addr, a1}
    ensures InsertStep(t, l, Subst(t, n.addr, u))
  {
    TerminalFacts(m, t, n, d, l.key);
    ClusterFresh(t, n, d, l, |u.prefix|, a1, on, u);
    assert ClustersInto(n.slots, l, u);
    assert Grows(n, d, l, u);
  }

  // --------------------------------------------------------- the methods

  /** What an insertion script promises before it is applied. */
  ghost predicate Inserts(m: Memory, t: Tree, l: Leaf, e: Script, t': Tree) {
    InsertStep(t, l, t') && Scripted(m, t, e, t', Empty, TOP)
  }

  lemma {:induction false} CrowdedFrame(m0: Memory, m: Memory, t: Tree, n: Tree, d: Ctx, l: Leaf, s: set<Addr>)
    requires Crowded(m0, t, n, d, l) && Extends(m0, m, s) && s !! Addrs(t)
    ensures n.Node? && |n.slots| == 16 && |d.pre| < 16 && Distinct(n) && Addrs(n) <= Addrs(t)
    ensures n.addr in Addrs(n) && n.addr in m0 && m[n.addr] == m0[n.addr]
    ensures Shape(m, n, d.back, d.slot) && Counts(m, n, {}, 0) && NoClash(Ptrs(n.slots), l, |d.pre|)
    ensures ParentOf(m[n.addr]) == ParentLoc(d) && (d.slot >= 0 ==> m[n.addr].parentSlot == d.slot)
  {
    TerminalFacts(m0, t, n, d, l.key);
    NodeFrame(m0, m, n, d, Addrs(t), s);
    CrowdedNoClash(n, d, l);
  }

  lemma {:induction false} NodeFrame(m0: Memory, m: Memory, n: Tree, d: Ctx, all: set<Addr>, s: set<Addr>)
    requires n.Node? && Shape(m0, n, d.back, d.slot) && Counts(m0, n, {}, 0) && (d.back.NodePtr? ==> d.slot >= 0)
    requires n.addr in Addrs(n) && Addrs(n) <= all && m0.Keys == all && Extends(m0, m, s) && s !! all
    ensures n.addr in m0 && m[n.addr] == m0[n.addr] && Shape(m, n, d.back, d.slot) && Counts(m, n, {}, 0)
    ensures ParentOf(m[n.addr]) == ParentLoc(d) && (d.slot >= 0 ==> m[n.addr].parentSlot == d.slot)
  {
    assert Shape(m, n, d.back, d.slot) by { ShapeFrame(m0, m, n, d.back, d.slot); }
    assert Counts(m, n, {}, 0) by { CountsFrame(m0, m, n, {}, 0, {}, 0); }
  }

  /** The node is split where it stands. */
  method SplitInPlace(m0: Memory, m1: Memory, na: Addr, level: nat, l: Leaf, cache: seq<nat>, a0: Addr, a1: Addr,
                      ghost t: Tree, ghost n: Tree, ghost d: Ctx)
    returns (m: Memory, e: Script, ghost t': Tree)
    requires Crowded(m0, t, n, d, l) && n.addr == na && level == |d.pre| && Extends(m0, m1, {a0, a1}) && a0 != a1 && {a0, a1} !! Addrs(t)
    requires Caches(cache, Ptrs(n.slots), l, level) && !Clusters(n.slots, level, l)
    requires exists i, j :: 0 <= i < 17 && 0 <= j < 17 && cache[i] != cache[j]
    ensures Extends(m0, m, {a0, a1}) && e.newMeta == {a0, a1} && Inserts(m, t, l, e, t')
    ensures e.deadLeaf == None && !e.ops
  {
    CrowdedFrame(m0, m1, t, n, d, l, {a0, a1});
    var cell := m1[na];
    var w, kids, on;
    ghost var u, m';
    m, w, kids, on, u, m' := SplitNode(m1, na, l, level, cache, a0, a1, cell.back, cell.parentSlot, n, d, d.slot);
    e := INSERTION.(leaf := w, rebacked := kids, backTo := NodePtr(a0), set0 := Write(ParentOf(cell), NodePtr(a0)),
                    adjustOn := Some(on), newMeta := {a0, a1}, excisedMeta := Some(na));
    ExtendsTwice(m0, m1, m, {a0, a1}, {a0, a1});
    SplitScripted(m0, m, m', t, n, d, l, a1, w, kids, on, u, e);
    SplitStep(m0, t, n, d, l, a1, on, u);
    t' := Subst(t, n.addr, u);
  }

  lemma {:induction false} ExtendsTwice(m0: Memory, m1: Memory, m: Memory, s: set<Addr>, r: set<Addr>)
    requires Extends(m0, m1, s) && Extends(m1, m, r) && r <= s
    ensures Extends(m0, m, s)
  {}

  lemma {:induction false} DivergedCache(cache: seq<nat>, s: seq<Tree>, l: Leaf, diff: nat)
    requires Caches(cache, Ptrs(s), l, diff) && DivergesAt(s, l, diff)
    ensures NoClash(Ptrs(s), l, diff) && exists i, j :: 0 <= i < 17 && 0 <= j < 17 && cache[i] != cache[j]
  {
    var i :| 0 <= i < 16 && s[i].Item? && s[i].leaf.key[diff] != l.key[diff];
    assert Ptrs(s)[i] == LeafPtr(s[i].leaf);
    assert cache[i] != cache[16];
  }

  lemma {:induction false} ClusterPrepared(m: Memory, m': Memory, n: Tree, d: Ctx, l: Leaf, a1: Addr, on: Addr, u: Tree)
    requires u.Shortcut? && u.next.Node? && Splitted(m, m', n, l, |u.prefix|, a1, ShortcutPtr(u.addr), -1, on, u.next)
    requires u.addr in m && u.addr !in Addrs(u.next)
    requires m[u.addr].ShortcutCell? && m[u.addr].back == d.back && (d.slot >= 0 ==> m[u.addr].parentSlot == d.slot)
    requires m[u.addr].prefix == u.prefix && m[u.addr].next == NodePtr(u.next.addr)
    ensures Only(m, m', Addrs(u)) && Lies(m', u, d.back, d.slot, on)
  {
    assert m'[u.addr] == m[u.addr];
    ClusterLies(m', u, d.back, d.slot, on, m[u.addr]);
  }

  /** The new shortcut, and the segments of the leaves at the level it leads to. */
  method PrepareShortcut(m0: Memory, m1: Memory, na: Addr, l: Leaf, a0: Addr, a1: Addr, a2: Addr, ghost t: Tree,
                         ghost n: Tree, ghost d: Ctx)
    returns (m: Memory, diff: nat, cache: seq<nat>)
    requires Crowded(m0, t, n, d, l) && n.addr == na && Extends(m0, m1, {a0, a1})
    requires {a0, a1, a2} !! Addrs(t) && Clusters(n.slots, |d.pre|, l)
    ensures |d.pre| < diff < 16 && DivergesAt(n.slots, l, diff) && Caches(cache, Ptrs(n.slots), l, diff)
    ensures na in m1 && m == m1[a2 := ShortcutCell(m1[na].back, m1[na].parentSlot, l.key[..diff], NodePtr(a0))]
  {
    CrowdedFrame(m0, m1, t, n, d, l, {a0, a1});
    var cell := m1[na];
    diff := Divergence(cell.slots, l, n.slots);
    assert |d.pre| < diff by { TerminalFacts(m0, t, n, d, l.key); DivergesBelow(n.slots, d.pre, l, diff); }
    m := m1[a2 := ShortcutCell(cell.back, cell.parentSlot, l.key[..diff], NodePtr(a0))];
    var haveMeta;
    cache, haveMeta := CacheSegments(cell.slots, l, diff);
  }

  /** All leaves cluster: the node is split at their first divergence, behind a new shortcut. */
  method SplitBehindShortcut(m0: Memory, m1: Memory, na: Addr, level: nat, l: Leaf, a0: Addr, a1: Addr, a2: Addr,
                             ghost t: Tree, ghost n: Tree, ghost d: Ctx)
    returns (m: Memory, e: Script, ghost t': Tree)
    requires Crowded(m0, t, n, d, l) && n.addr == na && level == |d.pre| && Extends(m0, m1, {a0, a1})
    requires a0 != a1 && a2 !in {a0, a1} && {a0, a1, a2} !! Addrs(t) && Clusters(n.slots, level, l)
    ensures Extends(m0, m, {a0, a1, a2}) && e.newMeta == {a0, a1, a2} && Inserts(m, t, l, e, t')
    ensures e.deadLeaf == None && !e.ops
  {
    var m2, diff, w, kids, on;
    ghost var u, m';
    m2, m, diff, w, kids, on, u, m' := BuildBehind(m0, m1, na, level, l, a0, a1, a2, t, n, d);
    e := INSERTION.(leaf := w, rebacked := kids, backTo := NodePtr(a0), set0 := Write(ParentOf(m2[na]), ShortcutPtr(a2)),
                    adjustOn := Some(on), newMeta := {a0, a1, a2}, excisedMeta := Some(na));
    ClusterInserts(m0, m2, m, m', t, n, d, l, a0, a1, w, kids, on, u, e);
    t' := Subst(t, n.addr, u);
  }

  /** The cells of the shortcut and of the split node behind it. */
  method BuildBehind(m0: Memory, m1: Memory, na: Addr, level: nat, l: Leaf, a0: Addr, a1: Addr, a2: Addr,
                     ghost t: Tree, ghost n: Tree, ghost d: Ctx)
    returns (m2: Memory, m: Memory, diff: nat, w: Write, kids: seq<Addr>, on: Addr, ghost u: Tree, ghost m': Memory)
    requires Crowded(m0, t, n, d, l) && n.addr == na && level == |d.pre| && Extends(m0, m1, {a0, a1})
    requires a0 != a1 && a2 !in {a0, a1} && {a0, a1, a2} !! Addrs(t) && Clusters(n.slots, level, l)
    ensures Extends(m0, m, {a0, a1, a2}) && na in m2 && ParentOf(m2[na]) == ParentLoc(d)
    ensures BuiltBehind(m2, m, m', n, d, l, a0, a1, w, kids, on, u) && u.addr == a2
  {
    var cache;
    m2, diff, cache := PrepareShortcut(m0, m1, na, l, a0, a1, a2, t, n, d);
    CrowdedFrame(m0, m2, t, n, d, l, {a0, a1, a2});
    m, w, kids, on, u, m' := SplitDeeper(m2, na, l, diff, cache, a0, a1, a2, n, d);
    ExtendsTwice(m0, m2, m, {a0, a1, a2}, {a0, a1});
  }

  /** Splits the node at the level where its leaves diverge. */
  method SplitDeeper(m2: Memory, na: Addr, l: Leaf, diff: nat, cache: seq<nat>, a0: Addr, a1: Addr, a2: Addr,
                     ghost n: Tree, ghost d: Ctx)
    returns (m: Memory, w: Write, kids: seq<Addr>, on: Addr, ghost u: Tree, ghost m': Memory)
    requires n.Node? && n.addr == na && |n.slots| == 16 && Distinct(n) && Shape(m2, n, d.back, d.slot) && Counts(m2, n, {}, 0)
    requires diff < 16 && Caches(cache, Ptrs(n.slots), l, diff) && DivergesAt(n.slots, l, diff)
    requires a0 != a1 && a2 !in {a0, a1} && a0 !in Addrs(n) && a1 !in Addrs(n)
    requires a2 in m2 && m2[a2].ShortcutCell? && m2[a2].prefix == l.key[..diff] && m2[a2].next == NodePtr(a0)
    requires m2[a2].back == d.back && (d.slot >= 0 ==> m2[a2].parentSlot == d.slot)
    ensures Extends(m2, m, {a0, a1}) && BuiltBehind(m2, m, m', n, d, l, a0, a1, w, kids, on, u) && u.addr == a2
  {
    DivergedCache(cache, n.slots, l, diff);
    ghost var u0;
    m, w, kids, on, u0, m' := SplitNode(m2, na, l, diff, cache, a0, a1, ShortcutPtr(a2), 0, n, d, -1);
    u := Shortcut(a2, l.key[..diff], u0);
    BuiltBehindIs(m2, m, m', n, d, l, a0, a1, w, kids, on, u);
  }

  lemma {:induction false} BuiltBehindIs(m2: Memory, m: Memory, m': Memory, n: Tree, d: Ctx, l: Leaf, a0: Addr, a1: Addr,
                                         w: Write, kids: seq<Addr>, on: Addr, u: Tree)
    requires u.Shortcut? && |u.prefix| < 16 && u.prefix == l.key[..|u.prefix|] && u.addr !in {a0, a1} && u.addr in m2
    requires u.next.Node? && u.next.addr == a0 && Prepared(m2, m, m', n, l, |u.prefix|, a1, ShortcutPtr(u.addr), -1, w, kids, on, u.next)
    requires m2[u.addr].ShortcutCell? && m2[u.addr].prefix == u.prefix && m2[u.addr].next == NodePtr(a0)
    requires m2[u.addr].back == d.back && (d.slot >= 0 ==> m2[u.addr].parentSlot == d.slot) && DivergesAt(n.slots, l, |u.prefix|)
    ensures BuiltBehind(m2, m, m', n, d, l, a0, a1, w, kids, on, u)
  {
    assert m[u.addr] == m2[u.addr];
  }

  /** A split node in memory behind a shortcut that spells out what its leaves share. */
  ghost predicate BuiltBehind(m1: Memory, m: Memory, m': Memory, n: Tree, d: Ctx, l: Leaf, a0: Addr, a1: Addr,
                             w: Write, kids: seq<Addr>, on: Addr, u: Tree)
  {
    && u.Shortcut? && u.next.Node? && u.next.addr == a0 && u.addr !in {a0, a1} && u.addr in m1 && u.addr in m && m[u.addr] == m1[u.addr]
    && Splitted(m, m', n, l, |u.prefix|, a1, ShortcutPtr(u.addr), -1, on, u.next) && m' == Reback(Put(m, w), kids, NodePtr(a0))
    && m1[u.addr].ShortcutCell? && m1[u.addr].back == d.back && (d.slot >= 0 ==> m1[u.addr].parentSlot == d.slot)
    && m1[u.addr].prefix == u.prefix && m1[u.addr].next == NodePtr(u.next.addr)
    && |u.prefix| < 16 && u.prefix == l.key[..|u.prefix|] && DivergesAt(n.slots, l, |u.prefix|)
  }

  lemma {:induction false} ClusterInserts(m0: Memory, m1: Memory, m: Memory, m': Memory, t: Tree, n: Tree, d: Ctx,
                                          l: Leaf, a0: Addr, a1: Addr,
                                          w: Write, kids: seq<Addr>, on: Addr, u: Tree, e: Script)
    requires BuiltBehind(m1, m, m', n, d, l, a0, a1, w, kids, on, u) && Clusters(n.slots, |d.pre|, l)
    requires Crowded(m0, t, n, d, l) && Extends(m0, m, {a0, a1, u.addr}) && {a0, a1, u.addr} !! Addrs(t)
    requires ClusterScript(n, d, u, a1, w, kids, on, e)
    ensures Inserts(m, t, l, e, Subst(t, n.addr, u))
  {
    ClusterDone(m0, m1, m, m', t, n, d, l, a0, a1, w, kids, on, u, e);
    ClusterStep(m0, t, n, d, l, a1, on, u);
  }

  lemma {:induction false} ClusterDone(m0: Memory, m1: Memory, m: Memory, m': Memory, t: Tree, n: Tree, d: Ctx, l: Leaf,
                                       a0: Addr, a1: Addr,
                                       w: Write, kids: seq<Addr>, on: Addr, u: Tree, e: Script)
    requires BuiltBehind(m1, m, m', n, d, l, a0, a1, w, kids, on, u)
    requires Crowded(m0, t, n, d, l) && Extends(m0, m, {a0, a1, u.addr}) && {a0, a1, u.addr} !! Addrs(t)
    requires ClusterScript(n, d, u, a1, w, kids, on, e)
    ensures Scripted(m, t, e, Subst(t, n.addr, u), Empty, TOP)
  {
    assert u.addr !in Addrs(u.next) by { ClusterApart(m0, t, n, d, l, a1, on, u); }
    assert Only(m, m', Addrs(u)) && Lies(m', u, d.back, d.slot, on) by { ClusterPrepared(m, m', n, d, l, a1, on, u); }
    ClusterScripted(m0, m, m', t, n, d, l, a1, w, kids, on, u, e);
  }

  lemma {:induction false} ClusterApart(m: Memory, t: Tree, n: Tree, d: Ctx, l: Leaf, a1: Addr, on: Addr, u: Tree)
    requires Crowded(m, t, n, d, l) && u.Shortcut? && SplitTree(n, l, |u.prefix|, a1, on, u.next)
    requires u.addr !in Addrs(t) && u.addr !in {u.next.addr, a1}
    ensures u.addr !in Addrs(u.next)
  {
    TerminalFacts(m, t, n, d, l.key);
  }

  /** The two nodes every split needs. */
  method AllocateNodes(m0: Memory, room: nat) returns (m: Memory, added: set<Addr>, pair: Option<(Addr, Addr)>)
    ensures Extends(m0, m, added) && added !! m0.Keys && (pair.Some? <==> room >= 2)
    ensures pair.Some? ==> added == {pair.value.0, pair.value.1} && pair.value.0 != pair.value.1
  {
    m, added, pair := m0, {}, None;
    var n0 := Allocate(m, room);
    if n0.None? { return; }
    m, added := m[n0.value := ZeroNode()], {n0.value};
    var n1 := Allocate(m, room - 1);
    if n1.None? { return; }
    m, added, pair := m[n1.value := ZeroNode()], {n0.value, n1.value}, Some((n0.value, n1.value));
  }

  lemma {:induction false} CrowdedCell(m: Memory, t: Tree, n: Tree, d: Ctx, l: Leaf)
    requires Crowded(m, t, n, d, l)
    ensures n.Node? && |n.slots| == 16 && |d.pre| < 16 && n.addr in m && m[n.addr].NodeCell? && m[n.addr].slots == Ptrs(n.slots)
    ensures forall i :: 0 <= i < 16 ==> Ptrs(n.slots)[i] != Null
  {
    TerminalFacts(m, t, n, d, l.key);
  }

  /** The cells needed to make room in a full node. */
  ghost function SplitNeed(n: Tree, level: nat, l: Leaf): nat
    requires n.Node?
  {
    if Clusters(n.slots, level, l) then 3 else 2
  }

  /** Insertion into a full node; on failure `m` holds only the cells named in the script besides. */
  method InsertIntoFullNode(m0: Memory, na: Addr, level: nat, l: Leaf, room: nat, ghost t: Tree, ghost n: Tree,
                            ghost d: Ctx)
    returns (ok: bool, m: Memory, e: Script, ghost t': Tree)
    requires Crowded(m0, t, n, d, l) && n.addr == na && level == |d.pre|
    ensures Extends(m0, m, e.newMeta) && e.newMeta !! m0.Keys && (ok <==> room >= SplitNeed(n, level, l))
    ensures ok ==> Inserts(m, t, l, e, t') && e.deadLeaf == None && !e.ops
  {
    CrowdedCell(m0, t, n, d, l);
    var added, pair;
    m, added, pair := AllocateNodes(m0, room);
    ok, e, t' := false, INSERTION.(newMeta := added), t;
    if pair.None? { return; }
    var cache, haveMeta := CacheSegments(m0[na].slots, l, level);
    var cluster := AllCluster(cache, haveMeta, n, l, level);
    if !cluster {
      ok := true;
      m, e, t' := SplitInPlace(m0, m, na, level, l, cache, pair.value.0, pair.value.1, t, n, d);
    } else {
      var s0 := Allocate(m, room - 2);
      if s0.None? { return; }
      ok := true;
      m, e, t' := SplitBehindShortcut(m0, m, na, level, l, pair.value.0, pair.value.1, s0.value, t, n, d);
    }
  }

  // -------------------------------------------------- into a terminal node

  lemma {:induction false} FoundSettles(n: Tree, l: Leaf, i: nat)
    requires n.Node? && i < |n.slots| && n.slots[i].Item? && n.slots[i].leaf.key == l.key
    ensures Settles(n, l, i, Node(n.addr, n.slots[i := Item(l)])) && !Lacks(n, l.key)
  {
    ItemsAt(Ptrs(n.slots), n.slots[i].leaf);
    assert Ptrs(n.slots)[i] == LeafPtr(n.slots[i].leaf);
  }

  /** What the scan of the cell says about the node. */
  lemma {:induction false} ScanTells(n: Tree, k: Key, found: int, free: int)
    requires n.Node? && |n.slots| == 16 && -1 <= found < 16 && -1 <= free < 16
    requires found >= 0 ==> Ptrs(n.slots)[found].LeafPtr? && Ptrs(n.slots)[found].leaf.key == k
    requires found < 0 ==> forall i :: 0 <= i < 16 && Ptrs(n.slots)[i].LeafPtr? ==> Ptrs(n.slots)[i].leaf.key != k
    requires found < 0 && free >= 0 ==> Ptrs(n.slots)[free] == Null
    requires found < 0 && free < 0 ==> forall i :: 0 <= i < 16 ==> Ptrs(n.slots)[i] != Null
    ensures if found >= 0 then n.slots[found].Item? && n.slots[found].leaf.key == k && !Lacks(n, k) else Lacks(n, k)
    ensures found < 0 && free >= 0 ==> n.slots[free] == Empty && !Full(n)
    ensures found < 0 && free < 0 ==> Full(n)
  {
    if found >= 0 {
      FoundSettles(n, Leaf(k, 0), found);
    } else {
      assert forall i :: 0 <= i < 16 && n.slots[i].Item? ==> Ptrs(n.slots)[i].LeafPtr?;
      AbsentLacks(n, k);
      if free < 0 {
        forall i | 0 <= i < 16 ensures n.slots[i] != Empty { assert Ptrs(n.slots)[i] != Null; }
      }
    }
  }

  /** Replaces the leaf of the same key, or takes a free slot, or makes room. */
  method InsertIntoTerminalNode(m0: Memory, na: Addr, level: nat, l: Leaf, room: nat, ghost t: Tree, ghost n: Tree,
                                ghost d: Ctx)
    returns (ok: bool, m: Memory, e: Script, ghost t': Tree)
    requires Terminal(m0, t, n, d, l.key) && n.Node? && n.addr == na && level == |d.pre|
    ensures Extends(m0, m, e.newMeta) && e.newMeta !! m0.Keys
    ensures ok <==> room >= if Full(n) && Lacks(n, l.key) then SplitNeed(n, level, l) else 0
    ensures ok ==> Inserts(m, t, l, e, t') && Retires(t, l.key, e)
  {
    assert n.Node? && |n.slots| == 16 && na in m0 && m0[na].NodeCell? && m0[na].slots == Ptrs(n.slots) by { TerminalFacts(m0, t, n, d, l.key); }
    var found, free := ScanSlots(m0[na].slots, l.key);
    ScanTells(n, l.key, found, free);
    FindHere(m0, t, n, d, l.key, found);
    if found < 0 && free < 0 {
      ok, m, e, t' := InsertIntoFullNode(m0, na, level, l, room, t, n, d);
    } else {
      ok, m := true, m0;
      e, t' := Settle(m0, na, if found >= 0 then found else free, l, t, n, d);
    }
  }

  /** The leaf goes into a slot of the node as it is, in place of a leaf of the same key or of nothing. */
  method Settle(m: Memory, na: Addr, i: nat, l: Leaf, ghost t: Tree, ghost n: Tree, ghost d: Ctx)
    returns (e: Script, ghost t': Tree)
    requires Terminal(m, t, n, d, l.key) && n.Node? && n.addr == na && na in m
    requires m[na].NodeCell? && m[na].slots == Ptrs(n.slots) && i < |n.slots|
    requires if n.slots[i].Item? then n.slots[i].leaf.key == l.key else n.slots[i] == Empty && Lacks(n, l.key)
    ensures e.newMeta == {} && Inserts(m, t, l, e, t')
    ensures !e.ops && e.deadLeaf == if n.slots[i].Item? then Some(n.slots[i].leaf) else None
  {
    e := INSERTION.(leaf := Write(SlotLoc(na, i), LeafPtr(l)));
    var p := m[na].slots[i];
    e := if p.LeafPtr? then e.(deadLeaf := Some(p.leaf)) else e.(adjustOn := Some(na));
    t' := SettleInserts(m, t, n, d, l, i, e);
  }

  lemma {:induction false} SettleInserts(m: Memory, t: Tree, n: Tree, d: Ctx, l: Leaf, i: nat, e: Script)
    returns (t': Tree)
    requires Terminal(m, t, n, d, l.key) && SettleScript(n, l, i, e)
    requires if n.slots[i].Item? then n.slots[i].leaf.key == l.key else n.slots[i] == Empty && Lacks(n, l.key)
    ensures Inserts(m, t, l, e, t')
  {
    var u := Node(n.addr, n.slots[i := Item(l)]);
    if n.slots[i].Item? { FoundSettles(n, l, i); }
    t' := Subst(t, n.addr, u);
    SettleScripted(m, t, n, d, l, i, u, e);
    SettleStep(m, t, n, d, l, i, u);
  }

  // ------------------------------------------------------ the empty array

  /** The first leaf of an array gets a root node of its own. */
  method InsertInEmptyTree(m0: Memory, l: Leaf, room: nat) returns (ok: bool, m: Memory, e: Script, ghost t': Tree)
    requires m0.Keys == {}
    ensures Extends(m0, m, e.newMeta) && e.newMeta !! m0.Keys && (ok <==> room >= 1)
    ensures ok ==> Inserts(m, Empty, l, e, t') && e.deadLeaf == None && !e.ops
  {
    ok, m, e, t' := false, m0, INSERTION, Empty;
    var n0 := Allocate(m, room);
    if n0.None? { return; }
    var a := n0.value;
    ok, m := true, m[a := ZeroNode()];
    e := e.(newMeta := {a}, leaf := Write(SlotLoc(a, 0), LeafPtr(l)), adjustOn := Some(a), set0 := Write(RootLoc, NodePtr(a)));
    t' := Node(a, Blank()[0 := Item(l)]);
    FirstScripted(m, a, l, e, t');
  }

  lemma {:induction false} FirstScripted(m: Memory, a: Addr, l: Leaf, e: Script, t': Tree)
    requires m == map[a := ZeroNode()] && t' == Node(a, Blank()[0 := Item(l)])
    requires e == INSERTION.(newMeta := {a}, leaf := Write(SlotLoc(a, 0), LeafPtr(l)), adjustOn := Some(a), set0 := Write(RootLoc, NodePtr(a)))
    ensures Inserts(m, Empty, l, e, t')
  {
    FirstWritten(m, a, l, e);
    FirstSingle(l, t');
    FirstAchieves(m, Written(m, e), a, l, e, t');
  }

  lemma {:induction false} FirstWritten(m: Memory, a: Addr, l: Leaf, e: Script)
    requires m == map[a := ZeroNode()]
    requires e == INSERTION.(newMeta := {a}, leaf := Write(SlotLoc(a, 0), LeafPtr(l)), adjustOn := Some(a), set0 := Write(RootLoc, NodePtr(a)))
    ensures Written(m, e) == map[a := NodeCell(Null, 0, Ptrs(Blank()[0 := Item(l)]), 0)]
  {
    assert ZeroNode().slots[0 := LeafPtr(l)] == Ptrs(Blank()[0 := Item(l)]);
    assert Written(m, e) == Put(m, e.leaf);
  }

  /** A node with nothing but one leaf. */
  ghost predicate Single(n: Tree, l: Leaf) {
    n.Node? && |n.slots| == 16 && (forall i :: 0 <= i < 16 ==> !Meta(n.slots[i])) && Leaves(n) == multiset{l} && Distinct(n)
  }

  lemma {:induction false} FirstSingle(l: Leaf, n: Tree)
    requires n.Node? && n.slots == Blank()[0 := Item(l)]
    ensures Single(n, l)
  {
    FirstLeaf(l, n);
  }

  lemma {:induction false} FirstAchieves(m: Memory, m': Memory, a: Addr, l: Leaf, e: Script, t': Tree)
    requires m.Keys == {a} && Single(t', l) && t'.addr == a && m'.Keys == {a} && m'[a] == NodeCell(Null, 0, Ptrs(t'.slots), 0)
    requires e == INSERTION.(newMeta := {a}, leaf := Write(SlotLoc(a, 0), LeafPtr(l)), adjustOn := Some(a), set0 := Write(RootLoc, NodePtr(a)))
    ensures Achieves(m, m', Empty, e, t', Empty, TOP)
  {
    LeafNodeMemory(m', t', a);
    assert Addrs(Empty) + e.newMeta == {a} && {a} - Addrs(t') == {};
  }

  /** A node without branches is held by its one cell. */
  lemma {:induction false} LeafNodeMemory(m: Memory, n: Tree, a: Addr)
    requires n.Node? && n.addr == a && |n.slots| == 16 && (forall i :: 0 <= i < 16 ==> !Meta(n.slots[i])) && |Leaves(n)| == 1
    requires m.Keys == {a} && m[a] == NodeCell(Null, 0, Ptrs(n.slots), 0)
    ensures Addrs(n) == {a} && PathSet(n, a) == {a} && Shape(m, n, Null, -1) && Counts(m, n, {a}, 1)
  {
    assert forall i :: 0 <= i < 16 ==> Addrs(n.slots[i]) == {};
  }

  // ------------------------------------------------------- mid-shortcut

  /** A shortcut that the key does not follow, which the walk stopped at. */
  ghost predicate Mismatch(m: Memory, t: Tree, s: Tree, d: Ctx, k: Key) {
    HoldsTree(m, t) && t != Empty && m.Keys == Addrs(t) && Walk(t, TOP, k) == WrongShortcut(s, d)
  }

  lemma {:induction false} MismatchFacts(m: Memory, t: Tree, s: Tree, d: Ctx, k: Key)
    requires Mismatch(m, t, s, d, k)
    ensures Located(t, TOP, s, d) && s.Shortcut? && s.next.Node? && WF(s, d.pre) && Distinct(s) && d.pre <= k && !(s.prefix <= k)
    ensures Shape(m, s, d.back, d.slot) && Counts(m, s, {}, 0) && (d.back.NodePtr? ==> d.slot >= 0)
    ensures s.addr in Addrs(s) && Addrs(s) <= Addrs(t)
  {
    WalkLocated(t, TOP, k);
    LocatedDistinct(t, TOP, s, d);
    LocatedShape(m, t, TOP, s, d);
    LocatedCounts(m, t, TOP, s, d, {}, 0);
    LocatedAddrs(t, TOP, s, d);
    BackOutside(t, TOP, s, d);
  }

  lemma {:induction false} MismatchFrame(m0: Memory, m: Memory, t: Tree, s: Tree, d: Ctx, k: Key, added: set<Addr>)
    requires Mismatch(m0, t, s, d, k) && Extends(m0, m, added) && added !! Addrs(t)
    ensures s.Shortcut? && s.next.Node? && |s.prefix| < 16 && !(s.prefix <= k) && Distinct(s)
    ensures Addrs(s) <= Addrs(t) && s.addr in m && s.next.addr in m && m[s.next.addr].NodeCell?
    ensures Shape(m, s, d.back, d.slot) && Counts(m, s, {}, 0)
    ensures ParentOf(m[s.addr]) == ParentLoc(d) && (d.slot >= 0 ==> m[s.addr].parentSlot == d.slot)
  {
    MismatchFacts(m0, t, s, d, k);
    ShapeFrame(m0, m, s, d.back, d.slot);
    CountsFrame(m0, m, s, {}, 0, {}, 0);
  }

  /** The pieces of a shortcut split: whether there is a shortcut before and after the new node. */
  datatype Pieces = Pieces(node: Addr, pre: Option<Addr>, post: Option<Addr>)

  function OptAddr(a: Option<Addr>): set<Addr> {
    if a.Some? then {a.value} else {}
  }

  function NewCells(p: Pieces): set<Addr> {
    {p.node} + OptAddr(p.pre) + OptAddr(p.post)
  }

  function AddrOr(a: Option<Addr>, b: Addr): Addr {
    if a.Some? then a.value else b
  }

  /** All addresses are different and the optional ones are there when needed. */
  ghost predicate PiecesFor(p: Pieces, prefix: seq<Nibble>, base: nat, diff: nat) {
    && (p.pre.Some? <==> diff > base) && (p.post.Some? <==> diff + 1 < |prefix|)
    && p.node !in OptAddr(p.pre) + OptAddr(p.post) && OptAddr(p.pre) !! OptAddr(p.post)
  }

  method AllocatePieces(m0: Memory, needPre: bool, needPost: bool, room: nat)
    returns (m: Memory, added: set<Addr>, p: Option<Pieces>)
    ensures Extends(m0, m, added) && added !! m0.Keys && (p.Some? <==> room >= 1 + One(needPre) + One(needPost))
    ensures p.Some? ==> added == NewCells(p.value) && (p.value.pre.Some? <==> needPre) && (p.value.post.Some? <==> needPost)
                        && p.value.node !in OptAddr(p.value.pre) + OptAddr(p.value.post) && OptAddr(p.value.pre) !! OptAddr(p.value.post)
  {
    m, added, p := m0, {}, None;
    var n0 := Allocate(m, room);
    if n0.None? { return; }
    m, added := m[n0.value := ZeroNode()], {n0.value};
    var s0, s1: Option<Addr> := None, None;
    if needPre {
      s0 := Allocate(m, room - 1);
      if s0.None? { return; }
      m, added := m[s0.value := ZeroShortcut()], added + {s0.value};
    }
    if needPost {
      s1 := Allocate(m, room - 1 - One(needPre));
      if s1.None? { return; }
      m, added := m[s1.value := ZeroShortcut()], added + {s1.value};
    }
    p := Some(Pieces(n0.value, s0, s1));
  }

  function RestPtr(p: Pieces, side: Addr): Ptr {
    if p.post.Some? then ShortcutPtr(p.post.value) else NodePtr(side)
  }

  function RestBack(p: Pieces): Ptr {
    if p.post.Some? then ShortcutPtr(p.post.value) else NodePtr(p.node)
  }

  function TopPtr(p: Pieces): Ptr {
    if p.pre.Some? then ShortcutPtr(p.pre.value) else NodePtr(p.node)
  }

  function SpareSlot(slot: Nibble): Nibble {
    if slot == 0 then 1 else 0
  }

  /** The cells of a shortcut split before anything reachable is written. */
  function MidMemory(m: Memory, p: Pieces, cell: Cell, diff: nat, side: Addr): Memory
    requires cell.ShortcutCell? && diff < |cell.prefix| && side in m && m[side].NodeCell?
  {
    var slots := ZeroNode().slots[cell.prefix[diff] := RestPtr(p, side)];
    var nc := if p.pre.Some? then NodeCell(ShortcutPtr(p.pre.value), 0, slots, m[side].nr)
              else NodeCell(cell.back, cell.parentSlot, slots, m[side].nr);
    var m1 := m[p.node := nc];
    var m2 := if p.pre.Some? then m1[p.pre.value := ShortcutCell(cell.back, cell.parentSlot, cell.prefix[..diff], NodePtr(p.node))] else m1;
    if p.post.Some? then m2[p.post.value := ShortcutCell(NodePtr(p.node), cell.prefix[diff], cell.prefix, NodePtr(side))] else m2
  }

  function MidScript(p: Pieces, l: Leaf, sa: Addr, cell: Cell, diff: nat, side: Addr): Script
    requires cell.ShortcutCell? && diff < |cell.prefix|
  {
    INSERTION.(leaf := Write(SlotLoc(p.node, SpareSlot(cell.prefix[diff])), LeafPtr(l)),
               slotOf := if p.post.Some? then None else Some(side), slotTo := cell.prefix[diff],
               set0 := Write(ParentOf(cell), TopPtr(p)), set1 := Write(BackLoc(side), RestBack(p)),
               adjustOn := Some(p.node), newMeta := NewCells(p), excisedMeta := Some(sa))
  }

  /** Memory once everything but the link from above is written. */
  function MidUnlinked(m: Memory, e: Script): Memory {
    Put(PutSlotNumber(Put(m, e.leaf), e.slotOf, e.slotTo), e.set1)
  }

  lemma {:induction false} BackCommutes(m: Memory, w: Write, b: Addr, q: Ptr)
    requires !w.at.BackLoc?
    ensures Put(Put(m, w), Write(BackLoc(b), q)) == Put(Put(m, Write(BackLoc(b), q)), w)
  {}

  lemma {:induction false} MidWritten(m: Memory, p: Pieces, l: Leaf, sa: Addr, cell: Cell, diff: nat, side: Addr,
                                      e: Script)
    requires cell.ShortcutCell? && diff < |cell.prefix| && e == MidScript(p, l, sa, cell, diff, side)
    ensures Written(m, e) == Put(MidUnlinked(m, e), e.set0)
  {
    BackCommutes(PutSlotNumber(Put(m, e.leaf), e.slotOf, e.slotTo), e.set0, side, RestBack(p));
  }

  /** What the cells are once everything but the link from above is written. */
  lemma {:induction false} MidUnlinkedCells(m0: Memory, m: Memory, m': Memory, p: Pieces, l: Leaf, sa: Addr, cell: Cell,
                                            base: nat, diff: nat, side: Addr, e: Script)
    requires cell.ShortcutCell? && diff < |cell.prefix| && side in m0 && m0[side].NodeCell?
    requires PiecesFor(p, cell.prefix, base, diff) && NewCells(p) !! m0.Keys
    requires m == MidMemory(m0, p, cell, diff, side) && e == MidScript(p, l, sa, cell, diff, side) && m' == MidUnlinked(m, e)
    ensures Extends(m0, m, NewCells(p)) && Only(m, m', {p.node, side}) && m[side] == m0[side]
    ensures m'[p.node].NodeCell? && m'[p.node].slots == ZeroNode().slots[cell.prefix[diff] := RestPtr(p, side)][SpareSlot(cell.prefix[diff]) := LeafPtr(l)]
    ensures m'[p.node].nr == m0[side].nr
    ensures if p.pre.Some? then m'[p.node].back == ShortcutPtr(p.pre.value) else m'[p.node].back == cell.back && m'[p.node].parentSlot == cell.parentSlot
    ensures p.pre.Some? ==> m'[p.pre.value] == ShortcutCell(cell.back, cell.parentSlot, cell.prefix[..diff], NodePtr(p.node))
    ensures p.post.Some? ==> m'[p.post.value] == ShortcutCell(NodePtr(p.node), cell.prefix[diff], cell.prefix, NodePtr(side))
    ensures m'[side] == if p.post.Some? then WithBack(m[side], RestBack(p)) else WithBack(WithSlot(m[side], cell.prefix[diff]), RestBack(p))
  {}

  function MidTree(s: Tree, base: nat, l: Leaf, p: Pieces): Tree
    requires s.Shortcut? && |s.prefix| <= 16 && !(s.prefix <= l.key)
  {
    MidSplit(s, base, l, p.node, AddrOr(p.pre, p.node), AddrOr(p.post, p.node))
  }

  /** The shortcut's surroundings as the split finds them in its cell. */
  ghost predicate MidPlan(m0: Memory, s: Tree, d: Ctx, base: nat, l: Leaf, p: Pieces, e: Script) {
    && s.Shortcut? && s.next.Node? && |s.prefix| < 16 && !(s.prefix <= l.key) && Distinct(s)
    && s.addr in m0 && s.next.addr in m0 && m0[s.next.addr].NodeCell?
    && Shape(m0, s, d.back, d.slot) && Counts(m0, s, {}, 0) && ParentOf(m0[s.addr]) == ParentLoc(d)
    && (d.slot >= 0 ==> m0[s.addr].parentSlot == d.slot)
    && PiecesFor(p, s.prefix, base, FirstDiff(s.prefix, l.key)) && NewCells(p) !! m0.Keys && Addrs(s) <= m0.Keys
    && e == MidScript(p, l, s.addr, m0[s.addr], FirstDiff(s.prefix, l.key), s.next.addr)
  }

  lemma {:induction false} MidSlotPtrs(s: Tree, l: Leaf, p: Pieces, diff: nat)
    requires s.Shortcut? && |s.prefix| <= 16 && !(s.prefix <= l.key) && s.next.Node? && diff == FirstDiff(s.prefix, l.key)
    requires p.post.Some? <==> diff + 1 < |s.prefix|
    ensures Ptrs(MidNode(s, l, p.node, AddrOr(p.post, p.node)).slots)
            == ZeroNode().slots[s.prefix[diff] := RestPtr(p, s.next.addr)][SpareSlot(s.prefix[diff]) := LeafPtr(l)]
  {}

  lemma {:induction false} MidHasCells(m0: Memory, m: Memory, m': Memory, s: Tree, d: Ctx, base: nat, l: Leaf,
                                       p: Pieces, e: Script)
    requires MidPlan(m0, s, d, base, l, p, e) && m == MidMemory(m0, p, m0[s.addr], FirstDiff(s.prefix, l.key), s.next.addr)
    requires m' == MidUnlinked(m, e)
    ensures MidCells(m, m', s, base, l, p.node, AddrOr(p.pre, p.node), AddrOr(p.post, p.node), d.back, m0[s.addr].parentSlot)
    ensures Extends(m0, m, NewCells(p)) && Only(m, m', {p.node, s.next.addr})
  {
    var diff := FirstDiff(s.prefix, l.key);
    MidSlotPtrs(s, l, p, diff);
    MidUnlinkedCells(m0, m, m', p, l, s.addr, m0[s.addr], base, diff, s.next.addr, e);
    assert Distinct(s.next) && s.next.addr !in AddrsOf(s.next.slots);
    assert AddrsOf(s.next.slots) <= Addrs(s);
    assert Agree(m, m', AddrsOf(s.next.slots));
  }

  lemma {:induction false} MidLies(m0: Memory, m: Memory, m': Memory, s: Tree, d: Ctx, base: nat, l: Leaf, p: Pieces,
                                   e: Script)
    requires MidPlan(m0, s, d, base, l, p, e) && Extends(m0, m, NewCells(p))
    requires MidCells(m, m', s, base, l, p.node, AddrOr(p.pre, p.node), AddrOr(p.post, p.node), d.back, m0[s.addr].parentSlot)
    ensures Lies(m', MidTree(s, base, l, p), d.back, d.slot, p.node)
  {
    assert Shape(m, s, d.back, d.slot) by { ShapeFrame(m0, m, s, d.back, d.slot); }
    assert Counts(m, s, {}, 0) by { CountsFrame(m0, m, s, {}, 0, {}, 0); }
    var pre0, post := AddrOr(p.pre, p.node), AddrOr(p.post, p.node);
    MidShape(m, m', s, d, base, l, p.node, pre0, post, m0[s.addr].parentSlot);
    MidCounts(m, m', s, base, l, p.node, pre0, post, d.back, m0[s.addr].parentSlot);
    MidPath(s, base, l, p.node, pre0, post);
  }

  lemma {:induction false} MidTreeFacts(m0: Memory, s: Tree, d: Ctx, base: nat, l: Leaf, p: Pieces, e: Script)
    requires MidPlan(m0, s, d, base, l, p, e)
    ensures var u := MidTree(s, base, l, p);
            && Meta(u) && PtrOf(u) == TopPtr(p) && Distinct(u) && Addrs(u) == Addrs(s.next) + NewCells(p) && |Leaves(u)| == |Leaves(s)| + 1
  {
    MidAddrs(s, base, l, p.node, AddrOr(p.pre, p.node), AddrOr(p.post, p.node), NewCells(p));
    MidLeaves(s, base, l, p.node, AddrOr(p.pre, p.node), AddrOr(p.post, p.node));
  }

  lemma {:induction false} ShortcutReplaces(t: Tree, s: Tree, d: Ctx, u: Tree, e: Script, on: Addr)
    requires Located(t, TOP, s, d) && s.Shortcut? && Distinct(s) && Addrs(s) <= Addrs(t)
    requires Meta(u) && Distinct(u) && Addrs(u) == Addrs(s.next) + e.newMeta && e.newMeta !! Addrs(t) && |Leaves(u)| == |Leaves(s)| + 1
    requires on in e.newMeta && e.set0 == Write(ParentLoc(d), PtrOf(u)) && !e.set1.at.RootLoc?
    requires e.adjustOn == Some(on) && e.adjustBy == 1 && e.excisedSubtree == Null && e.excisedMeta == Some(s.addr)
    ensures Replaces(t, s, d, u, e, on)
  {}

  lemma {:induction false} MidReplaces(m0: Memory, t: Tree, s: Tree, d: Ctx, base: nat, l: Leaf, p: Pieces, e: Script)
    requires Mismatch(m0, t, s, d, l.key) && MidPlan(m0, s, d, base, l, p, e)
    ensures Replaces(t, s, d, MidTree(s, base, l, p), e, p.node)
  {
    assert Located(t, TOP, s, d) && Addrs(s) <= Addrs(t) by { MismatchFacts(m0, t, s, d, l.key); }
    MidTreeFacts(m0, s, d, base, l, p, e);
    ShortcutReplaces(t, s, d, MidTree(s, base, l, p), e, p.node);
  }

  lemma {:induction false} MidScripted(m0: Memory, m: Memory, m': Memory, t: Tree, s: Tree, d: Ctx, base: nat, l: Leaf,
                                       p: Pieces, e: Script)
    requires Mismatch(m0, t, s, d, l.key) && MidPlan(m0, s, d, base, l, p, e)
    requires m == MidMemory(m0, p, m0[s.addr], FirstDiff(s.prefix, l.key), s.next.addr) && m' == MidUnlinked(m, e)
    ensures Scripted(m, t, e, Subst(t, s.addr, MidTree(s, base, l, p)), Empty, TOP)
    ensures Extends(m0, m, NewCells(p))
  {
    var u := MidTree(s, base, l, p);
    MidHasCells(m0, m, m', s, d, base, l, p, e);
    MidLies(m0, m, m', s, d, base, l, p, e);
    MidReplaces(m0, t, s, d, base, l, p, e);
    MidWritten(m, p, l, s.addr, m0[s.addr], FirstDiff(s.prefix, l.key), s.next.addr, e);
    assert Only(m, m', Addrs(u) + {s.addr});
    ReplacesScripted(m0, m, m', t, s, d, u, e, p.node);
  }

  lemma {:induction false} MidGrown(s: Tree, d: Ctx, l: Leaf, p: Pieces)
    requires s.Shortcut? && |s.prefix| <= 16 && !(s.prefix <= l.key)
    ensures Grows(s, d, l, MidTree(s, MidBase(d), l, p))
  {
    assert MidInsert(s, d, l, MidTree(s, MidBase(d), l, p));
  }

  lemma {:induction false} GrownStep(t: Tree, s: Tree, d: Ctx, l: Leaf, u: Tree)
    requires Walk(t, TOP, l.key) == WrongShortcut(s, d) && Grows(s, d, l, u) && Fresh(t, s, u) && s.Shortcut?
    ensures InsertStep(t, l, Subst(t, s.addr, u))
  {}

  lemma {:induction false} MidInsertStep(m: Memory, t: Tree, s: Tree, d: Ctx, l: Leaf, p: Pieces, e: Script)
    requires Mismatch(m, t, s, d, l.key) && MidPlan(m, s, d, MidBase(d), l, p, e)
    ensures InsertStep(t, l, Subst(t, s.addr, MidTree(s, MidBase(d), l, p)))
  {
    MidReplaces(m, t, s, d, MidBase(d), l, p, e);
    MidGrown(s, d, l, p);
    GrownStep(t, s, d, l, MidTree(s, MidBase(d), l, p));
  }

  /** A new node takes the place where the key leaves the shortcut. */
  method InsertMidShortcut(m0: Memory, sa: Addr, base: nat, diff: nat, l: Leaf, room: nat, ghost t: Tree, ghost s: Tree,
                           ghost d: Ctx)
    returns (ok: bool, m: Memory, e: Script, ghost t': Tree)
    requires Mismatch(m0, t, s, d, l.key) && s.Shortcut? && s.addr == sa && base == MidBase(d)
    requires |s.prefix| <= 16 && !(s.prefix <= l.key) && diff == FirstDiff(s.prefix, l.key)
    ensures Extends(m0, m, e.newMeta) && e.newMeta !! m0.Keys && (ok <==> room >= 1 + One(diff > base) + One(diff + 1 < |s.prefix|))
    ensures ok ==> Inserts(m, t, l, e, t') && e.deadLeaf == None && !e.ops
  {
    MismatchFrame(m0, m0, t, s, d, l.key, {});
    var cell := m0[sa];
    var side := cell.next.addr;
    var added, p;
    m, added, p := AllocatePieces(m0, diff > base, diff + 1 < |cell.prefix|, room);
    ok, e, t' := false, INSERTION.(newMeta := added), t;
    if p.None? { return; }
    ok, m, e := true, MidMemory(m0, p.value, cell, diff, side), MidScript(p.value, l, sa, cell, diff, side);
    t' := Subst(t, s.addr, MidTree(s, base, l, p.value));
    MidInserts(m0, m, t, s, d, l, p.value, e);
  }

  lemma {:induction false} MidInserts(m0: Memory, m: Memory, t: Tree, s: Tree, d: Ctx, l: Leaf, p: Pieces, e: Script)
    requires Mismatch(m0, t, s, d, l.key) && MidPlan(m0, s, d, MidBase(d), l, p, e)
    requires m == MidMemory(m0, p, m0[s.addr], FirstDiff(s.prefix, l.key), s.next.addr)
    ensures Inserts(m, t, l, e, Subst(t, s.addr, MidTree(s, MidBase(d), l, p))) && Extends(m0, m, NewCells(p))
  {
    MidScripted(m0, m, MidUnlinked(m, e), t, s, d, MidBase(d), l, p, e);
    MidInsertStep(m0, t, s, d, l, p, e);
  }

  /** How many new cells the insertion of a leaf takes. */
  ghost function InsertNeed(t: Tree, l: Leaf): nat {
    match Walk(t, TOP, l.key)
    case TreeEmpty => 1
    case TerminalNode(n, d) => if Full(n) && Lacks(n, l.key) then SplitNeed(n, |d.pre|, l) else 0
    case WrongShortcut(s, d) =>
      if |s.prefix| <= 16 && !(s.prefix <= l.key) then
        1 + One(FirstDiff(s.prefix, l.key) > MidBase(d)) + One(FirstDiff(s.prefix, l.key) + 1 < |s.prefix|)
      else 0
    case Confused => 0
  }

  /**
   Scripts the insertion of a leaf.  Without memory the result is only the cells
   allocated so far, which cancelling gives back.
   */
  method ScriptInsert(m0: Memory, root: Ptr, l: Leaf, room: nat, ghost t: Tree)
    returns (ok: bool, m: Memory, e: Script, ghost t': Tree)
    requires HoldsTree(m0, t) && root == PtrOf(t) && m0.Keys == Addrs(t)
    ensures Extends(m0, m, e.newMeta) && e.newMeta !! m0.Keys && (ok <==> room >= InsertNeed(t, l))
    ensures ok ==> Inserts(m, t, l, e, t') && Retires(t, l.key, e)
  {
    var w := WalkCells(m0, root, l.key, t);
    match w {
      case NoTree =>
        EmptyWalk(t, l.key);
        ok, m, e, t' := InsertInEmptyTree(m0, l, room);
      case AtNode(a, level) =>
        ok, m, e, t' := InsertIntoTerminalNode(m0, a, level, l, room, t, Walk(t, TOP, l.key).node, Walk(t, TOP, l.key).at);
      case AtShortcut(a, base, diff) =>
        ok, m, e, t' := InsertAtShortcut(m0, a, base, diff, l, room, t);
    }
  }

  method InsertAtShortcut(m0: Memory, a: Addr, base: nat, diff: nat, l: Leaf, room: nat, ghost t: Tree)
    returns (ok: bool, m: Memory, e: Script, ghost t': Tree)
    requires HoldsTree(m0, t) && m0.Keys == Addrs(t) && t != Empty && Reports(AtShortcut(a, base, diff), Walk(t, TOP, l.key), l.key)
    ensures Extends(m0, m, e.newMeta) && e.newMeta !! m0.Keys && (ok <==> room >= InsertNeed(t, l))
    ensures ok ==> Inserts(m, t, l, e, t') && Retires(t, l.key, e)
  {
    ok, m, e, t' := InsertMidShortcut(m0, a, base, diff, l, room, t, Walk(t, TOP, l.key).shortcut, Walk(t, TOP, l.key).at);
  }

  lemma {:induction false} EmptyWalk(t: Tree, k: Key)
    requires Array(t) && Walk(t, TOP, k) == TreeEmpty
    ensures t == Empty
  {
    if t != Empty { WalkLocated(t, TOP, k); }
  }
}
