/**
 The destroying traversal.  It frees leaves, nodes and shortcuts as it goes and
 reads back pointers only of cells it has not freed yet; at the end exactly the
 cells of the subtree are gone and everything was freed exactly once.
 */
module AssocDestroy {
  import opened AssocTree
  import opened AssocPlace
  import opened AssocWalk
  import opened AssocMemory
  import opened AssocTraverse

  datatype Event = FreeLeaf(leaf: Leaf) | FreeMeta(addr: Addr)

  /** The recursive destruction; `ops` says whether the objects are freed too. */
  ghost function Destroys(t: Tree, ops: bool): seq<Event>
    decreases t, 1
  {
    match t
    case Empty => []
    case Item(l) => if ops then [FreeLeaf(l)] else []
    case Node(a, slots) => DestroySlots(slots, ops) + [FreeMeta(a)]
    case Shortcut(a, _, next) => Destroys(next, ops) + [FreeMeta(a)]
  }

  ghost function DestroySlots(ts: seq<Tree>, ops: bool): seq<Event>
    decreases ts, 0
  {
    if ts == [] then [] else Destroys(ts[0], ops) + DestroySlots(ts[1..], ops)
  }

  ghost function Frees(es: seq<Event>, a: Addr): nat {
    multiset(es)[FreeMeta(a)]
  }

  lemma {:induction false} FreesSum(x: seq<Event>, y: seq<Event>, a: Addr)
    ensures Frees(x + y, a) == Frees(x, a) + Frees(y, a)
  {}

  /** Destruction frees each address of the tree once, and no other. */
  lemma {:induction false} DestroysMeta(t: Tree, ops: bool, a: Addr)
    requires Distinct(t)
    ensures Frees(Destroys(t, ops), a) == if a in Addrs(t) then 1 else 0
    decreases t, 1
  {
    match t
    case Node(b, slots) =>
      assert slots[0..] == slots;
      SlotsMeta(t, ops, a, 0);
      FreesSum(DestroySlots(slots, ops), [FreeMeta(b)], a);
    case Shortcut(b, _, next) =>
      DestroysMeta(next, ops, a);
      FreesSum(Destroys(next, ops), [FreeMeta(b)], a);
    case _ =>
  }

  lemma {:induction false} SlotsMeta(t: Tree, ops: bool, a: Addr, n: nat)
    requires t.Node? && Distinct(t) && n <= |t.slots|
    ensures Frees(DestroySlots(t.slots[n..], ops), a) == if a in AddrsOf(t.slots[n..]) then 1 else 0
    decreases t, 0, |t.slots| - n
  {
    if n < |t.slots| {
      var ts := t.slots[n..];
      assert ts[0] == t.slots[n] && ts[1..] == t.slots[n + 1..];
      SlotsMeta(t, ops, a, n + 1);
      DestroysMeta(t.slots[n], ops, a);
      FreesSum(Destroys(ts[0], ops), DestroySlots(ts[1..], ops), a);
      FirstOrRest(t, n, a);
    }
  }

  lemma {:induction false} FirstOrRest(t: Tree, n: nat, a: Addr)
    requires t.Node? && Distinct(t) && n < |t.slots|
    ensures a in AddrsOf(t.slots[n..]) <==> a in Addrs(t.slots[n]) || a in AddrsOf(t.slots[n + 1..])
    ensures !(a in Addrs(t.slots[n]) && a in AddrsOf(t.slots[n + 1..]))
  {}

  ghost function LeafFrees(es: seq<Event>, l: Leaf): nat {
    multiset(es)[FreeLeaf(l)]
  }

  lemma {:induction false} LeafFreesSum(x: seq<Event>, y: seq<Event>, l: Leaf)
    ensures LeafFrees(x + y, l) == LeafFrees(x, l) + LeafFrees(y, l)
  {}

  /** With `ops`, destruction frees each leaf as often as it occurs; without, none. */
  lemma {:induction false} DestroysLeaves(t: Tree, ops: bool, pre: seq<Nibble>, l: Leaf)
    requires WF(t, pre)
    ensures LeafFrees(Destroys(t, ops), l) == if ops then Leaves(t)[l] else 0
    decreases t, 1
  {
    match t
    case Node(a, slots) =>
      forall i | 0 <= i < 16 && Meta(slots[i])
        ensures LeafFrees(Destroys(slots[i], ops), l) == if ops then Leaves(slots[i])[l] else 0
      {
        DestroysLeaves(slots[i], ops, pre + [i], l);
      }
      SlotsLeaves(slots, ops, l);
      LeafFreesSum(DestroySlots(slots, ops), [FreeMeta(a)], l);
    case Shortcut(a, p, next) =>
      DestroysLeaves(next, ops, p, l);
      LeafFreesSum(Destroys(next, ops), [FreeMeta(a)], l);
  }

  lemma {:induction false} SlotsLeaves(ts: seq<Tree>, ops: bool, l: Leaf)
    requires forall i :: 0 <= i < |ts| && Meta(ts[i]) ==> LeafFrees(Destroys(ts[i], ops), l) == if ops then Leaves(ts[i])[l] else 0
    ensures LeafFrees(DestroySlots(ts, ops), l) == if ops then (Items(Ptrs(ts)) + BranchLeaves(ts))[l] else 0
  {
    if ts != [] {
      SlotsLeaves(ts[1..], ops, l);
      LeafFreesSum(Destroys(ts[0], ops), DestroySlots(ts[1..], ops), l);
      HeadLeaves(ts[0], ops, l);
      SlotCounts(ts, l);
    }
  }

  lemma {:induction false} HeadLeaves(t: Tree, ops: bool, l: Leaf)
    requires Meta(t) ==> LeafFrees(Destroys(t, ops), l) == if ops then Leaves(t)[l] else 0
    ensures LeafFrees(Destroys(t, ops), l) == if ops then ItemOf(PtrOf(t))[l] + BranchOf(t)[l] else 0
  {}

  lemma {:induction false} SlotCounts(ts: seq<Tree>, l: Leaf)
    requires ts != []
    ensures (Items(Ptrs(ts)) + BranchLeaves(ts))[l]
         == ItemOf(PtrOf(ts[0]))[l] + BranchOf(ts[0])[l] + (Items(Ptrs(ts[1..])) + BranchLeaves(ts[1..]))[l]
  {
    assert Ptrs(ts)[1..] == Ptrs(ts[1..]);
  }

  // ----------------------------------------------------- the way back up

  /** The subtree that is left when the innermost branch is done. */
  ghost function Child(fs: seq<Frame>, t: Tree): Tree {
    if fs == [] then t
    else
      var f := fs[|fs| - 1];
      if f.node.Node? && f.slot < |f.node.slots| then f.node.slots[f.slot] else t
  }

  ghost function ShortcutTail(c: Tree): seq<Event> {
    if c.Shortcut? then [FreeMeta(c.addr)] else []
  }

  /** What is still to be freed once the node of the innermost branch is gone. */
  ghost function After(fs: seq<Frame>, t: Tree, ops: bool): seq<Event>
    decreases |fs|
  {
    if fs == [] then ShortcutTail(t)
    else
      var f := fs[|fs| - 1];
      ShortcutTail(Child(fs, t)) +
      (if f.node.Node? && f.slot < |f.node.slots| then ToFree(f.node, f.slot + 1, ops) + After(fs[..|fs| - 1], t, ops) else [])
  }

  /** What is still to be freed of a node whose slots below `slot` are done. */
  ghost function ToFree(n: Tree, slot: int, ops: bool): seq<Event>
    requires n.Node? && 0 <= slot <= |n.slots|
  {
    DestroySlots(n.slots[slot..], ops) + [FreeMeta(n.addr)]
  }

  lemma {:induction false} StartFree(t: Tree, ops: bool)
    requires NodeOf(t).Node?
    ensures ToFree(NodeOf(t), 0, ops) + After([], t, ops) == Destroys(t, ops)
  {}

  /** Going down a branch leaves the same things to free. */
  lemma {:induction false} PushFree(fs: seq<Frame>, cur: Tree, d: Ctx, t: Tree, i: Nibble, ops: bool)
    requires cur.Node? && |cur.slots| == 16 && Meta(cur.slots[i]) && NodeOf(cur.slots[i]).Node?
    ensures ToFree(cur, i, ops) + After(fs, t, ops)
         == ToFree(NodeOf(cur.slots[i]), 0, ops) + After(fs + [Frame(cur, d, i)], t, ops)
  {
    var gs, child := fs + [Frame(cur, d, i)], cur.slots[i];
    assert gs[..|gs| - 1] == fs;
    assert cur.slots[i..][1..] == cur.slots[i + 1..];
    assert DestroySlots(cur.slots[i..], ops) == Destroys(child, ops) + DestroySlots(cur.slots[i + 1..], ops);
    ChildFree(child, ops);
    var a, b := ToFree(NodeOf(child), 0, ops), ShortcutTail(child);
    var e, r, u := DestroySlots(cur.slots[i + 1..], ops), [FreeMeta(cur.addr)], After(fs, t, ops);
    RegroupFree(a, b, e, r, u);
  }

  lemma {:induction false} ChildFree(child: Tree, ops: bool)
    requires Meta(child) && NodeOf(child).Node?
    ensures Destroys(child, ops) == ToFree(NodeOf(child), 0, ops) + ShortcutTail(child)
  {}

  lemma {:induction false} RegroupFree(a: seq<Event>, b: seq<Event>, c: seq<Event>, d: seq<Event>, e: seq<Event>)
    ensures (((a + b) + c) + d) + e == a + (b + ((c + d) + e))
  {}

  /** A slot without a branch frees its leaf, if any. */
  lemma {:induction false} SlotFree(cur: Tree, i: Nibble, ops: bool, up: seq<Event>)
    requires cur.Node? && |cur.slots| == 16 && !Meta(cur.slots[i])
    ensures ToFree(cur, i, ops) + up
         == (if cur.slots[i].Item? && ops then [FreeLeaf(cur.slots[i].leaf)] else []) + (ToFree(cur, i + 1, ops) + up)
  {
    assert cur.slots[i..][1..] == cur.slots[i + 1..];
    var x, y, z := Destroys(cur.slots[i], ops), DestroySlots(cur.slots[i + 1..], ops), [FreeMeta(cur.addr)];
    assert ((x + y) + z) + up == x + ((y + z) + up);
  }

  // -------------------------------------------------------- the machine

  /** Memory `cells` is `m` without what the log says was freed; `todo` comes next. */
  ghost predicate Freeing(m: Memory, cells: Memory, log: seq<Event>, todo: seq<Event>, t: Tree, ops: bool) {
    && log + todo == Destroys(t, ops)
    && (forall a :: a in cells <==> a in m && Frees(log, a) == 0)
    && (forall a :: a in cells ==> cells[a] == m[a])
  }

  /** What is still to be freed has not been freed. */
  lemma {:induction false} StillThere(m: Memory, cells: Memory, log: seq<Event>, todo: seq<Event>, t: Tree, ops: bool,
                                      a: Addr)
    requires Freeing(m, cells, log, todo, t, ops) && Distinct(t) && FreeMeta(a) in todo && a in m
    ensures a in cells && cells[a] == m[a]
  {
    DestroysMeta(t, ops, a);
    FreesSum(log, todo, a);
    assert Frees(todo, a) >= 1;
  }

  lemma {:induction false} FreeOne(m: Memory, cells: Memory, log: seq<Event>, e: Event, rest: seq<Event>, t: Tree,
                                   ops: bool)
    requires Freeing(m, cells, log, [e] + rest, t, ops)
    ensures Freeing(m, if e.FreeMeta? then cells - {e.addr} else cells, log + [e], rest, t, ops)
  {}

  lemma {:induction false} AllFreed(m: Memory, cells: Memory, log: seq<Event>, t: Tree, ops: bool)
    requires Freeing(m, cells, log, [], t, ops) && Distinct(t)
    ensures log == Destroys(t, ops) && cells == m - Addrs(t)
  {
    assert log + [] == log;
    forall a ensures a in cells <==> a in m - Addrs(t) {
      DestroysMeta(t, ops, a);
    }
  }

  /** Frees the objects in a node's slots up to the next branch. */
  method FreeSlots(ps: seq<Ptr>, from: nat, ops: bool, before: seq<Event>,
                   ghost m0: Memory, ghost m: Memory, ghost cur: Tree, ghost up: seq<Event>, ghost t: Tree)
    returns (slot: nat, log: seq<Event>)
    requires cur.Node? && |cur.slots| == 16 && ps == Ptrs(cur.slots) && from <= 16
    requires Freeing(m0, m, before, ToFree(cur, from, ops) + up, t, ops)
    ensures from <= slot <= 16 && (slot < 16 ==> IsMeta(ps[slot]))
    ensures Freeing(m0, m, log, ToFree(cur, slot, ops) + up, t, ops)
    ensures WorkOf(cur.slots[slot..]) <= WorkOf(cur.slots[from..])
  {
    slot, log := from, before;
    while slot < 16 && !IsMeta(ps[slot])
      invariant from <= slot <= 16
      invariant Freeing(m0, m, log, ToFree(cur, slot, ops) + up, t, ops)
      invariant WorkOf(cur.slots[slot..]) <= WorkOf(cur.slots[from..])
    {
      FreeSlot(m0, m, log, cur, slot, up, t, ops);
      if ps[slot].LeafPtr? && ops { log := log + [FreeLeaf(ps[slot].leaf)]; }
      slot := slot + 1;
    }
  }

  lemma {:induction false} FreeSlot(m0: Memory, m: Memory, log: seq<Event>, cur: Tree, slot: nat, up: seq<Event>,
                                    t: Tree, ops: bool)
    requires cur.Node? && |cur.slots| == 16 && slot < 16 && !IsMeta(Ptrs(cur.slots)[slot])
    requires Freeing(m0, m, log, ToFree(cur, slot, ops) + up, t, ops)
    ensures var p := Ptrs(cur.slots)[slot];
            Freeing(m0, m, if p.LeafPtr? && ops then log + [FreeLeaf(p.leaf)] else log, ToFree(cur, slot + 1, ops) + up, t, ops)
    ensures WorkOf(cur.slots[slot + 1..]) <= WorkOf(cur.slots[slot..])
  {
    var p, rest := Ptrs(cur.slots)[slot], ToFree(cur, slot + 1, ops) + up;
    Skip(cur, slot);
    SlotFree(cur, slot, ops, up);
    if p.LeafPtr? && ops { FreeOne(m0, m, log, FreeLeaf(p.leaf), rest, t, ops); } else { assert [] + rest == rest; }
  }

  /** Frees one cell after reading where it hangs. */
  method FreeCell(m: Memory, a: Addr, before: seq<Event>, ghost m0: Memory, ghost up: seq<Event>, ghost t: Tree,
                  ghost ops: bool)
    returns (parent: Ptr, slot: int, cells: Memory, log: seq<Event>)
    requires Freeing(m0, m, before, [FreeMeta(a)] + up, t, ops) && Distinct(t) && a in m0
    ensures parent == m0[a].back && slot == m0[a].parentSlot
    ensures Freeing(m0, cells, log, up, t, ops)
  {
    StillThere(m0, m, before, [FreeMeta(a)] + up, t, ops, a);
    FreeOne(m0, m, before, FreeMeta(a), up, t, ops);
    parent, slot := m[a].back, m[a].parentSlot;
    cells, log := m - {a}, before + [FreeMeta(a)];
  }

  /** The node of the innermost branch and the shortcut above it, in the order they go. */
  lemma {:induction false} LeaveOrder(fs: seq<Frame>, cur: Tree, d: Ctx, t: Tree, c: Ctx, ops: bool)
    requires Stacked(fs, cur, d, t, c) && cur.Node?
    ensures ToFree(cur, |cur.slots|, ops) + After(fs, t, ops)
         == [FreeMeta(cur.addr)] + After(fs, t, ops)
    ensures fs == [] ==> After(fs, t, ops) == ShortcutTail(t)
    ensures fs != [] ==> fs[|fs| - 1].node.Node? && |fs[|fs| - 1].node.slots| == 16
                         && After(fs, t, ops) == ShortcutTail(Child(fs, t)) + (ToFree(fs[|fs| - 1].node, fs[|fs| - 1].slot + 1, ops) + After(fs[..|fs| - 1], t, ops))
    ensures Leads(Child(fs, t), if fs == [] then c else Below(fs[|fs| - 1].node, fs[|fs| - 1].ctx, fs[|fs| - 1].slot), cur, d)
  {}

  /** What remains after the node and its shortcut are gone. */
  ghost function Beyond(fs: seq<Frame>, t: Tree, ops: bool): seq<Event> {
    if fs == [] || !fs[|fs| - 1].node.Node? || fs[|fs| - 1].slot >= |fs[|fs| - 1].node.slots| then []
    else ToFree(fs[|fs| - 1].node, fs[|fs| - 1].slot + 1, ops) + After(fs[..|fs| - 1], t, ops)
  }

  lemma {:induction false} LeaveShape(m: Memory, fs: seq<Frame>, cur: Tree, d: Ctx, t: Tree, c: Ctx, ops: bool)
    requires Stacked(fs, cur, d, t, c) && cur.Node? && c.back == Null && Distinct(t)
    requires WF(t, c.pre) && Shape(m, t, c.back, c.slot)
    ensures |cur.slots| == 16 && cur.addr in m
    ensures ToFree(cur, 16, ops) + After(fs, t, ops) == [FreeMeta(cur.addr)] + After(fs, t, ops)
    ensures var b := m[cur.addr].back;
            After(fs, t, ops) == if b.ShortcutPtr? then [FreeMeta(b.addr)] + Beyond(fs, t, ops) else Beyond(fs, t, ops)
    ensures var b := m[cur.addr].back;
            if b.ShortcutPtr? then b.addr in m && m[b.addr].ShortcutCell? && m[b.addr].next == NodePtr(cur.addr) && Hooked(fs, m[b.addr].back, m[b.addr].parentSlot)
            else Hooked(fs, b, m[cur.addr].parentSlot)
    ensures fs != [] ==> fs[|fs| - 1].node.Node? && |fs[|fs| - 1].node.slots| == 16
  {
    StackedShape(m, fs, cur, d, t, c);
    LeaveOrder(fs, cur, d, t, c, ops);
    Climb(m, fs, cur, d, t, c);
    LeaveShortcut(m, fs, cur, d, t, c);
    assert [] + Beyond(fs, t, ops) == Beyond(fs, t, ops);
  }

  /** The pointer and slot that lead from a finished branch to its frame, or to the end. */
  ghost predicate Hooked(fs: seq<Frame>, back: Ptr, slot: int) {
    if fs == [] then back == Null else back == NodePtr(if fs[|fs| - 1].node.Node? then fs[|fs| - 1].node.addr else 0) && slot == fs[|fs| - 1].slot
  }

  lemma {:induction false} LeaveShortcut(m: Memory, fs: seq<Frame>, cur: Tree, d: Ctx, t: Tree, c: Ctx)
    requires Stacked(fs, cur, d, t, c) && cur.Node? && c.back == Null
    requires WF(t, c.pre) && Shape(m, t, c.back, c.slot) && Shape(m, cur, d.back, d.slot)
    ensures ShortcutTail(Child(fs, t)) == if m[cur.addr].back.ShortcutPtr? then [FreeMeta(m[cur.addr].back.addr)] else []
    ensures var b := m[cur.addr].back;
            b.ShortcutPtr? ==> b.addr in m && m[b.addr].ShortcutCell? && m[b.addr].next == NodePtr(cur.addr)
  {
    if fs != [] {
      var f := fs[|fs| - 1];
      StackedShape(m, fs[..|fs| - 1], f.node, f.ctx, t, c);
    }
  }

  /**
   Frees a finished node, and the shortcut above it if there is one, and climbs.
   The back pointers are read before the cells that hold them are freed.
   */
  method LeaveNode(m: Memory, a: Addr, before: seq<Event>,
                   ghost m0: Memory, ghost ops: bool, ghost cur: Tree, ghost d: Ctx, ghost t: Tree, ghost c: Ctx, ghost fs: seq<Frame>)
    returns (parent: Ptr, slot: int, cells: Memory, log: seq<Event>)
    requires Stacked(fs, cur, d, t, c) && cur.Node? && cur.addr == a && c.back == Null && |cur.slots| == 16
    requires WF(t, c.pre) && Shape(m0, t, c.back, c.slot) && Distinct(t)
    requires Freeing(m0, m, before, ToFree(cur, 16, ops) + After(fs, t, ops), t, ops)
    ensures Hooked(fs, parent, slot) && Freeing(m0, cells, log, Beyond(fs, t, ops), t, ops)
  {
    LeaveShape(m0, fs, cur, d, t, c, ops);
    parent, slot, cells, log := FreeCell(m, a, before, m0, After(fs, t, ops), t, ops);
    if parent.ShortcutPtr? {
      parent, slot, cells, log := FreeCell(cells, parent.addr, log, m0, Beyond(fs, t, ops), t, ops);
    }
  }

  lemma {:induction false} ChildShape(m: Memory, fs: seq<Frame>, cur: Tree, d: Ctx, t: Tree, c: Ctx)
    requires Stacked(fs, cur, d, t, c) && cur.Node? && WF(t, c.pre) && Shape(m, t, c.back, c.slot)
    ensures Meta(Child(fs, t)) && NodeOf(Child(fs, t)) == cur
    ensures Child(fs, t).Shortcut? ==> d.back == ShortcutPtr(Child(fs, t).addr)
    ensures var e := ChildCtx(fs, c); Shape(m, Child(fs, t), e.back, e.slot)
  {
    if fs != [] {
      var f := fs[|fs| - 1];
      StackedShape(m, fs[..|fs| - 1], f.node, f.ctx, t, c);
    }
  }

  ghost function ChildCtx(fs: seq<Frame>, c: Ctx): Ctx {
    if fs == [] || !fs[|fs| - 1].node.Node? then c else Below(fs[|fs| - 1].node, fs[|fs| - 1].ctx, fs[|fs| - 1].slot)
  }

  lemma {:induction false} TailIn(fs: seq<Frame>, t: Tree, ops: bool)
    requires Child(fs, t).Shortcut?
    ensures FreeMeta(Child(fs, t).addr) in After(fs, t, ops)
  {
  }

  /** The cells on the way into a branch are still there and link up as the source checks. */
  ghost predicate WayIn(m: Memory, child: Tree, e: Ctx) {
    var n := NodeOf(child);
    && Meta(child) && n.Node? && n.addr in m && m[n.addr].NodeCell? && m[n.addr].slots == Ptrs(n.slots)
    && child.addr in m && m[child.addr].back == e.back && (e.slot >= 0 ==> m[child.addr].parentSlot == e.slot)
    && (child.Shortcut? ==> m[child.addr].ShortcutCell? && m[child.addr].next == NodePtr(n.addr) && m[n.addr].back == PtrOf(child))
  }

  lemma {:induction false} EnterLinked(m0: Memory, m: Memory, log: seq<Event>, ops: bool,
                                       cur: Tree, d: Ctx, t: Tree, c: Ctx, fs: seq<Frame>)
    requires Stacked(fs, cur, d, t, c) && cur.Node? && WF(t, c.pre) && Shape(m0, t, c.back, c.slot) && Distinct(t)
    requires Freeing(m0, m, log, ToFree(cur, 0, ops) + After(fs, t, ops), t, ops)
    ensures WayIn(m, Child(fs, t), ChildCtx(fs, c)) && NodeOf(Child(fs, t)) == cur
  {
    ChildShape(m0, fs, cur, d, t, c);
    var todo := ToFree(cur, 0, ops) + After(fs, t, ops);
    StackedShape(m0, fs, cur, d, t, c);
    assert FreeMeta(cur.addr) in ToFree(cur, 0, ops);
    assert FreeMeta(cur.addr) in todo;
    StillThere(m0, m, log, todo, t, ops, cur.addr);
    if Child(fs, t).Shortcut? {
      TailIn(fs, t, ops);
      assert FreeMeta(Child(fs, t).addr) in todo;
      StillThere(m0, m, log, todo, t, ops, Child(fs, t).addr);
    }
  }

  /**
   Descends to the node a metadata pointer leads to.  The asserted conditions are
   the ones the source checks with `BUG_ON`.
   */
  method MoveToMeta(m: Memory, at: Ptr, parent: Ptr, slot: int, ghost child: Tree, ghost e: Ctx) returns (cursor: Ptr)
    requires WayIn(m, child, e) && at == PtrOf(child) && parent == e.back && slot >= -1 && (slot == -1 || slot == e.slot)
    ensures cursor == NodePtr(NodeOf(child).addr)
  {
    cursor := at;
    if cursor.ShortcutPtr? {
      assert m[at.addr].ShortcutCell? && m[at.addr].back == parent;
      assert slot == -1 || m[at.addr].parentSlot == slot;
      cursor := m[at.addr].next;
      assert m[cursor.addr].back == at;
    } else {
      assert m[cursor.addr].back == parent;
      assert slot == -1 || m[cursor.addr].parentSlot == slot;
    }
  }

  /** The loop invariant: about to enter a branch, or scanning a node from `slot` on. */
  ghost predicate Entering(m0: Memory, m: Memory, log: seq<Event>, ops: bool, t: Tree, c: Ctx,
                           fs: seq<Frame>, cur: Tree, d: Ctx, at: Ptr, parent: Ptr, slot: int) {
    && Stacked(fs, cur, d, t, c) && cur.Node?
    && at == PtrOf(Child(fs, t)) && parent == ChildCtx(fs, c).back && -1 <= slot && (slot == -1 || slot == ChildCtx(fs, c).slot)
    && Freeing(m0, m, log, ToFree(cur, 0, ops) + After(fs, t, ops), t, ops)
  }

  ghost predicate Scanning(m0: Memory, m: Memory, log: seq<Event>, ops: bool, t: Tree, c: Ctx,
                           fs: seq<Frame>, cur: Tree, d: Ctx, at: Ptr, slot: int) {
    && Stacked(fs, cur, d, t, c) && cur.Node? && at == NodePtr(cur.addr) && 0 <= slot <= |cur.slots|
    && Freeing(m0, m, log, ToFree(cur, slot, ops) + After(fs, t, ops), t, ops)
  }

  lemma {:induction false} Descend(m0: Memory, m: Memory, log: seq<Event>, ops: bool, t: Tree, c: Ctx, fs: seq<Frame>,
                                   cur: Tree, d: Ctx, at: Ptr, i: Nibble)
    requires Scanning(m0, m, log, ops, t, c, fs, cur, d, at, i) && WF(cur, d.pre) && Shape(m0, cur, d.back, d.slot)
    requires IsMeta(Ptrs(cur.slots)[i])
    ensures var n, gs := NodeOf(cur.slots[i]), fs + [Frame(cur, d, i)];
            && Entering(m0, m, log, ops, t, c, gs, n, if cur.slots[i].Node? then Below(cur, d, i) else Behind(cur.slots[i]),
                        Ptrs(cur.slots)[i], at, i)
            && Left(BeginNode, n, 0, gs) < Left(ContinueNode, cur, i, fs)
  {
    PushFree(fs, cur, d, t, i, ops);
    EnterBranch(m0, fs, cur, d, t, c, i);
  }

  lemma {:induction false} Ascend(m0: Memory, m: Memory, log: seq<Event>, ops: bool, t: Tree, c: Ctx, fs: seq<Frame>,
                                  cur: Tree, d: Ctx, parent: Ptr, slot: int)
    requires Stacked(fs, cur, d, t, c) && cur.Node? && fs != [] && Hooked(fs, parent, slot)
    requires Freeing(m0, m, log, Beyond(fs, t, ops), t, ops)
    ensures var f, gs := fs[|fs| - 1], fs[..|fs| - 1];
            && Scanning(m0, m, log, ops, t, c, gs, f.node, f.ctx, parent, slot + 1)
            && Left(ContinueNode, f.node, slot + 1, gs) < WorkAbove(fs)
  {}

  method EnterNode(m0: Memory, m: Memory, log: seq<Event>, ops: bool, at: Ptr, parent: Ptr, from: int,
                   ghost t: Tree, ghost c: Ctx, ghost fs: seq<Frame>, ghost cur: Tree, ghost d: Ctx)
    returns (cursor: Ptr, slot: int)
    requires WF(t, c.pre) && Shape(m0, t, c.back, c.slot) && Distinct(t)
    requires Entering(m0, m, log, ops, t, c, fs, cur, d, at, parent, from)
    ensures Scanning(m0, m, log, ops, t, c, fs, cur, d, cursor, slot)
    ensures Left(ContinueNode, cur, slot, fs) == Left(BeginNode, cur, 0, fs)
  {
    EnterLinked(m0, m, log, ops, cur, d, t, c, fs);
    cursor := MoveToMeta(m, at, parent, from, Child(fs, t), ChildCtx(fs, c));
    slot := 0;
    assert cur.slots[0..] == cur.slots;
  }

  /** Scans the rest of a node, then descends into a branch or leaves the node. */
  method ScanNode(m0: Memory, m: Memory, log0: seq<Event>, ops: bool, at: Ptr, slot0: int,
                  ghost t: Tree, ghost c: Ctx, ghost fs: seq<Frame>, ghost cur: Tree, ghost d: Ctx)
    returns (entering: bool, cursor: Ptr, parent: Ptr, slot: int, cells: Memory, log: seq<Event>,
             ghost fs': seq<Frame>, ghost cur': Tree, ghost d': Ctx, ghost left: int)
    requires WF(t, c.pre) && Shape(m0, t, c.back, c.slot) && Distinct(t) && c.back == Null && c.slot < 0
    requires Scanning(m0, m, log0, ops, t, c, fs, cur, d, at, slot0)
    ensures entering ==> Entering(m0, cells, log, ops, t, c, fs', cur', d', cursor, parent, slot)
    ensures entering ==> 0 <= left == Left(BeginNode, cur', 0, fs')
    ensures !entering && parent != Null ==> Scanning(m0, cells, log, ops, t, c, fs', cur', d', cursor, slot)
    ensures !entering && parent != Null ==> 0 <= left == Left(ContinueNode, cur', slot, fs')
    ensures !entering && parent == Null ==> Freeing(m0, cells, log, [], t, ops)
    ensures left < Left(ContinueNode, cur, slot0, fs)
  {
    var ps;
    ps, slot, log := ScanOn(m0, m, log0, ops, at, slot0, t, c, fs, cur, d);
    fs', cur', d', left := fs, cur, d, -1;
    if slot < 16 {
      Descend(m0, m, log, ops, t, c, fs, cur, d, at, slot);
      entering, parent, cursor, cells := true, at, ps[slot], m;
      fs', cur', d' := fs + [Frame(cur, d, slot)], NodeOf(cur.slots[slot]),
                       if cur.slots[slot].Node? then Below(cur, d, slot) else Behind(cur.slots[slot]);
      left := Left(BeginNode, cur', 0, fs');
    } else {
      entering := false;
      parent, slot, cells, log, fs', cur', d', left := GoUp(m, at.addr, log, m0, ops, cur, d, t, c, fs);
      cursor := parent;
    }
  }

  /** Frees the leaves of a node up to its next branch. */
  method ScanOn(ghost m0: Memory, m: Memory, log0: seq<Event>, ops: bool, at: Ptr, slot0: int,
                ghost t: Tree, ghost c: Ctx, ghost fs: seq<Frame>, ghost cur: Tree, ghost d: Ctx)
    returns (ps: seq<Ptr>, slot: nat, log: seq<Event>)
    requires WF(t, c.pre) && Shape(m0, t, c.back, c.slot) && Distinct(t) && Scanning(m0, m, log0, ops, t, c, fs, cur, d, at, slot0)
    ensures WF(cur, d.pre) && Shape(m0, cur, d.back, d.slot) && |cur.slots| == 16 && ps == Ptrs(cur.slots)
    ensures slot <= 16 && (slot < 16 ==> IsMeta(ps[slot])) && Scanning(m0, m, log, ops, t, c, fs, cur, d, at, slot)
    ensures Left(ContinueNode, cur, slot, fs) <= Left(ContinueNode, cur, slot0, fs)
  {
    StackedShape(m0, fs, cur, d, t, c);
    ScanAlive(m0, m, log0, ops, t, cur, slot0, After(fs, t, ops));
    ps := m[at.addr].slots;
    slot, log := FreeSlots(ps, slot0, ops, log0, m0, m, cur, After(fs, t, ops), t);
  }

  /** Frees a node that is done with and goes on behind it in the node above, if there is one. */
  method GoUp(m: Memory, a: Addr, before: seq<Event>,
              ghost m0: Memory, ghost ops: bool, ghost cur: Tree, ghost d: Ctx, ghost t: Tree, ghost c: Ctx, ghost fs: seq<Frame>)
    returns (parent: Ptr, slot: int, cells: Memory, log: seq<Event>, ghost fs': seq<Frame>, ghost cur': Tree, ghost d': Ctx, ghost left: int)
    requires Stacked(fs, cur, d, t, c) && cur.Node? && cur.addr == a && c.back == Null && |cur.slots| == 16
    requires WF(t, c.pre) && Shape(m0, t, c.back, c.slot) && Distinct(t)
    requires Freeing(m0, m, before, ToFree(cur, 16, ops) + After(fs, t, ops), t, ops)
    ensures parent != Null ==> Scanning(m0, cells, log, ops, t, c, fs', cur', d', parent, slot)
    ensures parent != Null ==> 0 <= left == Left(ContinueNode, cur', slot, fs') && left < WorkAbove(fs)
    ensures parent == Null ==> Freeing(m0, cells, log, [], t, ops) && left == -1
  {
    var last;
    parent, last, cells, log := LeaveNode(m, a, before, m0, ops, cur, d, t, c, fs);
    slot := last + 1;
    if parent == Null {
      fs', cur', d', left := fs, cur, d, -1;
    } else {
      Ascend(m0, cells, log, ops, t, c, fs, cur, d, parent, last);
      fs', cur', d' := fs[..|fs| - 1], fs[|fs| - 1].node, fs[|fs| - 1].ctx;
      left := Left(ContinueNode, cur', slot, fs');
    }
  }

  /**
   Frees a whole subtree, climbing by the back pointers of what is not yet freed.
   Every cell and, if asked, every object of it is freed exactly once.
   */
  method DestroySubtree(m0: Memory, root: Ptr, ops: bool, ghost t: Tree, ghost c: Ctx)
    returns (cells: Memory, log: seq<Event>)
    requires Meta(t) && root == PtrOf(t) && WF(t, c.pre) && Shape(m0, t, c.back, c.slot) && Distinct(t) && c.back == Null && c.slot < 0
    ensures log == Destroys(t, ops)
    ensures cells == m0 - Addrs(t)
  {
    cells, log := m0, [];
    var cursor, parent, slot: int, entering := root, Null, -1, true;
    ghost var fs: seq<Frame>, cur, d := [], NodeOf(t), if t.Node? then c else Behind(t);
    StartFree(t, ops);
    StartFreeing(m0, t, ops);
    ghost var left: int := Left(BeginNode, cur, 0, fs);
    while entering || parent != Null
      invariant entering ==> Entering(m0, cells, log, ops, t, c, fs, cur, d, cursor, parent, slot)
      invariant entering ==> 0 <= left == Left(BeginNode, cur, 0, fs)
      invariant !entering && parent != Null ==> Scanning(m0, cells, log, ops, t, c, fs, cur, d, cursor, slot)
      invariant !entering && parent != Null ==> 0 <= left == Left(ContinueNode, cur, slot, fs)
      invariant !entering && parent == Null ==> Freeing(m0, cells, log, [], t, ops)
      decreases left
    {
      if entering {
        cursor, slot := EnterNode(m0, cells, log, ops, cursor, parent, slot, t, c, fs, cur, d);
      }
      entering, cursor, parent, slot, cells, log, fs, cur, d, left :=
        ScanNode(m0, cells, log, ops, cursor, slot, t, c, fs, cur, d);
    }
    AllFreed(m0, cells, log, t, ops);
  }

  lemma {:induction false} ScanAlive(m0: Memory, m: Memory, log: seq<Event>, ops: bool, t: Tree, cur: Tree, slot: int,
                                     up: seq<Event>)
    requires cur.Node? && 0 <= slot <= |cur.slots| && cur.addr in m0 && Distinct(t)
    requires Freeing(m0, m, log, ToFree(cur, slot, ops) + up, t, ops)
    ensures cur.addr in m && m[cur.addr] == m0[cur.addr]
  {
    assert FreeMeta(cur.addr) in ToFree(cur, slot, ops);
    StillThere(m0, m, log, ToFree(cur, slot, ops) + up, t, ops, cur.addr);
  }

  lemma {:induction false} StartFreeing(m: Memory, t: Tree, ops: bool)
    ensures Freeing(m, m, [], Destroys(t, ops), t, ops)
  {}
}
