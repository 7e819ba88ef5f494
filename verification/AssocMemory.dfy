/**
 The array as it lies in memory: cells at addresses, with back pointers, parent
 slots and per-branch leaf counts.  Memory is an explicit map so that a freed
 address can no longer be read and a leak is an address that stays behind.
 */
module AssocMemory {
  import opened Common
  import opened AssocTree
  import opened AssocPlace
  import opened AssocWalk

  datatype Cell =
    | NodeCell(back: Ptr, parentSlot: int, slots: seq<Ptr>, nr: int)
    | ShortcutCell(back: Ptr, parentSlot: int, prefix: seq<Nibble>, next: Ptr)

  type Memory = map<Addr, Cell>

  function WithBack(cell: Cell, back: Ptr): Cell {
    cell.(back := back)
  }

  function WithSlot(cell: Cell, slot: int): Cell {
    cell.(parentSlot := slot)
  }

  /** The links of the tree `t` as memory holds them, under the parent `back`. */
  ghost predicate Shape(m: Memory, t: Tree, back: Ptr, slot: int)
    decreases t
  {
    match t
    case Node(a, slots) =>
      && a in m && m[a].NodeCell? && m[a].back == back && (slot >= 0 ==> m[a].parentSlot == slot)
      && |slots| == 16 && m[a].slots == Ptrs(slots)
      && forall i: Nibble :: Meta(slots[i]) ==> Shape(m, slots[i], NodePtr(a), i)
    case Shortcut(a, p, next) =>
      && a in m && m[a].ShortcutCell? && m[a].back == back && (slot >= 0 ==> m[a].parentSlot == slot)
      && m[a].prefix == p && m[a].next == PtrOf(next) && Meta(next)
      && Shape(m, next, ShortcutPtr(a), -1)
    case _ => true
  }

  /**
   Every node's leaf count is right, except that the nodes in `pend` still miss
   the adjustment `adj`.
   */
  ghost predicate Counts(m: Memory, t: Tree, pend: set<Addr>, adj: int)
    decreases t
  {
    match t
    case Node(a, slots) =>
      && a in m && m[a].NodeCell? && m[a].nr == |Leaves(t)| - (if a in pend then adj else 0)
      && forall i :: 0 <= i < |slots| && Meta(slots[i]) ==> Counts(m, slots[i], pend, adj)
    case Shortcut(_, _, next) => Counts(m, next, pend, adj)
    case _ => true
  }

  ghost predicate Agree(m: Memory, n: Memory, s: set<Addr>) {
    forall a :: a in s && a in m ==> a in n && n[a] == m[a]
  }

  lemma {:induction false} ShapeFrame(m: Memory, n: Memory, t: Tree, back: Ptr, slot: int)
    requires Shape(m, t, back, slot) && Agree(m, n, Addrs(t))
    ensures Shape(n, t, back, slot)
    decreases t
  {
    match t
    case Node(a, slots) =>
      forall i: Nibble | Meta(slots[i]) ensures Shape(n, slots[i], NodePtr(a), i) {
        ShapeFrame(m, n, slots[i], NodePtr(a), i);
      }
    case Shortcut(a, _, next) => ShapeFrame(m, n, next, ShortcutPtr(a), -1);
    case _ =>
  }

  /** Memory in which the nodes of `s` are still nodes, with the counts they had. */
  ghost predicate SameCounts(m: Memory, n: Memory, s: set<Addr>) {
    forall a :: a in s && a in m && m[a].NodeCell? ==> a in n && n[a].NodeCell? && n[a].nr == m[a].nr
  }

  lemma {:induction false} CountsFrame(m: Memory, n: Memory, t: Tree, p: set<Addr>, adj: int, q: set<Addr>, bz: int)
    requires Counts(m, t, p, adj) && SameCounts(m, n, Addrs(t))
    requires forall a :: a in Addrs(t) ==> (if a in p then adj else 0) == (if a in q then bz else 0)
    ensures Counts(n, t, q, bz)
    decreases t
  {
    match t
    case Node(_, slots) =>
      forall i | 0 <= i < |slots| && Meta(slots[i]) ensures Counts(n, slots[i], q, bz) {
        CountsFrame(m, n, slots[i], p, adj, q, bz);
      }
    case Shortcut(_, _, next) => CountsFrame(m, n, next, p, adj, q, bz);
    case _ =>
  }

  /** Moving a whole subtree under another parent takes one write to its top cell. */
  lemma {:induction false} ShapeRehang(m: Memory, n: Memory, t: Tree, back: Ptr, slot: int, back': Ptr, slot': int)
    requires Meta(t) && Distinct(t) && Shape(m, t, back, slot) && Agree(m, n, Addrs(t) - {t.addr})
    requires t.addr in n
    requires m[t.addr].NodeCell? ==> n[t.addr].NodeCell? && n[t.addr].slots == m[t.addr].slots
    requires m[t.addr].ShortcutCell? ==> n[t.addr].ShortcutCell? && n[t.addr].prefix == m[t.addr].prefix && n[t.addr].next == m[t.addr].next
    requires n[t.addr].back == back' && (slot' >= 0 ==> n[t.addr].parentSlot == slot')
    ensures Shape(n, t, back', slot')
  {
    match t
    case Node(a, slots) =>
      forall i: Nibble | Meta(slots[i]) ensures Shape(n, slots[i], NodePtr(a), i) {
        ShapeFrame(m, n, slots[i], NodePtr(a), i);
      }
    case Shortcut(a, _, next) => ShapeFrame(m, n, next, ShortcutPtr(a), -1);
  }

  lemma {:induction false} LocatedShape(m: Memory, t: Tree, c: Ctx, sub: Tree, d: Ctx)
    requires Located(t, c, sub, d) && Shape(m, t, c.back, c.slot)
    ensures Shape(m, sub, d.back, d.slot)
    decreases t
  {
    if t == sub && c == d {
    } else if t.Node? {
      var i: Nibble :| i < |t.slots| && Meta(t.slots[i]) && Located(t.slots[i], Below(t, c, i), sub, d);
      LocatedShape(m, t.slots[i], Below(t, c, i), sub, d);
    } else {
      LocatedShape(m, t.next, Behind(t), sub, d);
    }
  }

  lemma {:induction false} LocatedCounts(m: Memory, t: Tree, c: Ctx, sub: Tree, d: Ctx, p: set<Addr>, adj: int)
    requires Located(t, c, sub, d) && Counts(m, t, p, adj)
    ensures Counts(m, sub, p, adj)
    decreases t
  {
    if t == sub && c == d {
    } else if t.Node? {
      var i: Nibble :| i < |t.slots| && Meta(t.slots[i]) && Located(t.slots[i], Below(t, c, i), sub, d);
      LocatedCounts(m, t.slots[i], Below(t, c, i), sub, d, p, adj);
    } else {
      LocatedCounts(m, t.next, Behind(t), sub, d, p, adj);
    }
  }

  // ---------------------------------------------------------- relinking

  /** The cell at `b` after the link to the subtree with surroundings `d` was set to `p`. */
  function Linked(cell: Cell, b: Addr, d: Ctx, p: Ptr): Cell {
    match cell
    case NodeCell(_, _, slots, _) =>
      if d.back == NodePtr(b) && 0 <= d.slot < |slots| then cell.(slots := slots[d.slot := p]) else cell
    case ShortcutCell(_, _, _, _) =>
      if d.back == ShortcutPtr(b) then cell.(next := p) else cell
  }

  ghost predicate Relinked(m: Memory, n: Memory, s: set<Addr>, d: Ctx, p: Ptr) {
    forall b :: b in s && b in m ==> b in n && n[b] == Linked(m[b], b, d, p)
  }

  lemma {:induction false} LocatedBack(t: Tree, c: Ctx, sub: Tree, d: Ctx)
    requires Located(t, c, sub, d) && Meta(sub)
    ensures (t == sub && c == d) || (IsMeta(d.back) && d.back.addr in Addrs(t))
    decreases t
  {
    if t == sub && c == d {
    } else if t.Node? {
      var i: Nibble :| i < |t.slots| && Meta(t.slots[i]) && Located(t.slots[i], Below(t, c, i), sub, d);
      LocatedBack(t.slots[i], Below(t, c, i), sub, d);
    } else {
      LocatedBack(t.next, Behind(t), sub, d);
    }
  }

  /** Setting the one link to a replacement makes memory hold the replaced tree. */
  lemma {:induction false} RelinkShape(m: Memory, n: Memory, t: Tree, c: Ctx, sub: Tree, d: Ctx, u: Tree)
    requires Located(t, c, sub, d) && Distinct(t) && Meta(sub) && Meta(u)
    requires Shape(m, t, c.back, c.slot) && Shape(n, u, d.back, d.slot)
    requires Relinked(m, n, Addrs(t) - Addrs(sub), d, PtrOf(u))
    ensures Shape(n, Subst(t, sub.addr, u), c.back, c.slot)
    decreases t
  {
    if t == sub && c == d {
    } else if t.Node? {
      var i: Nibble :| i < |t.slots| && Meta(t.slots[i]) && Located(t.slots[i], Below(t, c, i), sub, d);
      LocatedAddrs(t.slots[i], Below(t, c, i), sub, d);
      RelinkShape(m, n, t.slots[i], Below(t, c, i), sub, d, u);
      RelinkNode(m, n, t, c, i, sub, d, u);
    } else {
      LocatedAddrs(t.next, Behind(t), sub, d);
      RelinkShape(m, n, t.next, Behind(t), sub, d, u);
      RelinkShortcut(m, n, t, c, sub, d, u);
    }
  }

  lemma {:induction false} RelinkShortcut(m: Memory, n: Memory, t: Tree, c: Ctx, sub: Tree, d: Ctx, u: Tree)
    requires t.Shortcut? && Located(t.next, Behind(t), sub, d) && Distinct(t) && Meta(sub) && Meta(u) && !(t == sub && c == d)
    requires sub.addr in Addrs(t.next) && Addrs(sub) <= Addrs(t.next) && Shape(m, t, c.back, c.slot)
    requires Relinked(m, n, Addrs(t) - Addrs(sub), d, PtrOf(u)) && Shape(n, Subst(t.next, sub.addr, u), Behind(t).back, Behind(t).slot)
    ensures Shape(n, Subst(t, sub.addr, u), c.back, c.slot)
  {
    LocatedBack(t.next, Behind(t), sub, d);
    SubstPtr(t.next, Behind(t), sub, d, u);
  }

  /** Below the replaced place nothing changes its address. */
  lemma {:induction false} SubstPtr(t: Tree, c: Ctx, sub: Tree, d: Ctx, u: Tree)
    requires Located(t, c, sub, d) && Distinct(t) && Meta(sub) && Meta(u)
    ensures Meta(Subst(t, sub.addr, u))
    ensures PtrOf(Subst(t, sub.addr, u)) == if t == sub && c == d then PtrOf(u) else PtrOf(t)
  {
    if t.Node? && !(t == sub && c == d) {
      var i: Nibble :| i < |t.slots| && Meta(t.slots[i]) && Located(t.slots[i], Below(t, c, i), sub, d);
      LocatedAddrs(t.slots[i], Below(t, c, i), sub, d);
    } else if t.Shortcut? && !(t == sub && c == d) {
      LocatedAddrs(t.next, Behind(t), sub, d);
    }
  }

  lemma {:induction false} RelinkNode(m: Memory, n: Memory, t: Tree, c: Ctx, i: Nibble, sub: Tree, d: Ctx, u: Tree)
    requires t.Node? && Distinct(t) && Meta(sub) && Meta(u) && |t.slots| == 16 && Meta(t.slots[i])
    requires Located(t.slots[i], Below(t, c, i), sub, d) && Shape(m, t, c.back, c.slot)
    requires Relinked(m, n, Addrs(t) - Addrs(sub), d, PtrOf(u))
    requires Shape(n, Subst(t.slots[i], sub.addr, u), NodePtr(t.addr), i)
    ensures Shape(n, Subst(t, sub.addr, u), c.back, c.slot)
  {
    LocatedAddrs(t.slots[i], Below(t, c, i), sub, d);
    LocatedBack(t.slots[i], Below(t, c, i), sub, d);
    SubstNode(t, i, sub.addr, u);
    SubstPtr(t.slots[i], Below(t, c, i), sub, d, u);
    var v := Subst(t.slots[i], sub.addr, u);
    assert n[t.addr] == Linked(m[t.addr], t.addr, d, PtrOf(u));
    assert Ptrs(t.slots[i := v]) == Ptrs(t.slots)[i := PtrOf(v)];
    forall j: Nibble | j != i && Meta(t.slots[j]) ensures Shape(n, t.slots[j], NodePtr(t.addr), j) {
      SiblingAgrees(m, n, t, i, j, sub, d, u);
      ShapeFrame(m, n, t.slots[j], NodePtr(t.addr), j);
    }
  }

  lemma {:induction false} SiblingAgrees(m: Memory, n: Memory, t: Tree, i: Nibble, j: Nibble, sub: Tree, d: Ctx, u: Tree)
    requires t.Node? && Distinct(t) && |t.slots| == 16 && i != j
    requires Addrs(sub) <= Addrs(t.slots[i]) && IsMeta(d.back) && d.back.addr in Addrs(t.slots[i]) + {t.addr}
    requires Relinked(m, n, Addrs(t) - Addrs(sub), d, PtrOf(u))
    ensures Agree(m, n, Addrs(t.slots[j]))
  {
    assert Addrs(t.slots[j]) !! Addrs(t.slots[i]);
    assert Addrs(t.slots[j]) <= AddrsOf(t.slots);
    forall a | a in Addrs(t.slots[j]) && a in m ensures a in n && n[a] == m[a] {
      assert a in Addrs(t) - Addrs(sub);
      assert a != d.back.addr;
    }
  }

  // --------------------------------------------------- counts on the path

  ghost function ChildOf(ts: seq<Tree>, a: Addr): (i: nat)
    requires a in AddrsOf(ts)
    ensures i < |ts| && a in Addrs(ts[i])
  {
    var i :| 0 <= i < |ts| && a in Addrs(ts[i]);
    i
  }

  /** The nodes from the top of `t` down to the one at address `a`. */
  ghost function Path(t: Tree, a: Addr): seq<Addr>
    decreases t
  {
    match t
    case Node(b, slots) =>
      if a == b then [b]
      else if a in AddrsOf(slots) then [b] + Path(slots[ChildOf(slots, a)], a)
      else []
    case Shortcut(_, _, next) => Path(next, a)
    case _ => []
  }

  ghost function PathSet(t: Tree, a: Addr): set<Addr> {
    set x | x in Path(t, a)
  }

  lemma {:induction false} PathInside(t: Tree, a: Addr)
    ensures forall x :: x in Path(t, a) ==> x in Addrs(t)
    decreases t
  {
    match t
    case Node(b, slots) =>
      if a != b && a in AddrsOf(slots) { PathInside(slots[ChildOf(slots, a)], a); }
    case Shortcut(_, _, next) => PathInside(next, a);
    case _ =>
  }

  /** The path goes through the one child that holds the address. */
  lemma {:induction false} PathNode(t: Tree, i: nat, a: Addr)
    requires t.Node? && Distinct(t) && i < |t.slots| && a in Addrs(t.slots[i])
    ensures Path(t, a) == [t.addr] + Path(t.slots[i], a)
  {
    var j := ChildOf(t.slots, a);
    assert i == j;
  }

  /** Above a replacement every count misses exactly what the replacement added. */
  lemma {:induction false} RelinkCounts(m: Memory, n: Memory, t: Tree, c: Ctx, sub: Tree, d: Ctx, u: Tree, a: Addr,
                                        adj: int)
    requires Located(t, c, sub, d) && Distinct(t) && Meta(sub) && Meta(u) && Distinct(u)
    requires Addrs(u) !! (Addrs(t) - Addrs(sub)) && a in Addrs(u)
    requires Counts(m, t, {}, 0) && Counts(n, u, PathSet(u, a), adj) && |Leaves(u)| == |Leaves(sub)| + adj
    requires SameCounts(m, n, Addrs(t) - Addrs(sub))
    ensures Counts(n, Subst(t, sub.addr, u), PathSet(Subst(t, sub.addr, u), a), adj)
    decreases t
  {
    if t == sub && c == d {
    } else if t.Node? {
      var i: Nibble :| i < |t.slots| && Meta(t.slots[i]) && Located(t.slots[i], Below(t, c, i), sub, d);
      RelinkCountsBelow(m, n, t, c, i, sub, d, u, a, adj);
      RelinkCountsNode(m, n, t, c, i, sub, d, u, a, adj);
    } else {
      RelinkCountsShortcut(m, n, t, c, sub, d, u, a, adj);
    }
  }

  lemma {:induction false} RelinkCountsBelow(m: Memory, n: Memory, t: Tree, c: Ctx, i: Nibble, sub: Tree, d: Ctx,
                                             u: Tree, a: Addr, adj: int)
    requires t.Node? && i < |t.slots| && Meta(t.slots[i]) && Located(t.slots[i], Below(t, c, i), sub, d)
    requires Distinct(t) && Meta(sub) && Meta(u) && Distinct(u) && Addrs(u) !! (Addrs(t) - Addrs(sub)) && a in Addrs(u)
    requires Counts(m, t, {}, 0) && Counts(n, u, PathSet(u, a), adj) && |Leaves(u)| == |Leaves(sub)| + adj
    requires SameCounts(m, n, Addrs(t) - Addrs(sub))
    ensures Addrs(sub) <= Addrs(t.slots[i]) && sub.addr in Addrs(t.slots[i]) && Addrs(u) <= Addrs(Subst(t.slots[i], sub.addr, u))
    ensures Counts(n, Subst(t.slots[i], sub.addr, u), PathSet(Subst(t.slots[i], sub.addr, u), a), adj)
    decreases t, 0
  {
    LocatedAddrs(t.slots[i], Below(t, c, i), sub, d);
    RelinkCounts(m, n, t.slots[i], Below(t, c, i), sub, d, u, a, adj);
    SubstAddrs(t.slots[i], Below(t, c, i), sub, d, u);
  }

  lemma {:induction false} RelinkCountsShortcut(m: Memory, n: Memory, t: Tree, c: Ctx, sub: Tree, d: Ctx, u: Tree,
                                                a: Addr, adj: int)
    requires t.Shortcut? && Located(t.next, Behind(t), sub, d) && Distinct(t) && Meta(sub) && Meta(u) && Distinct(u)
    requires Addrs(u) !! (Addrs(t) - Addrs(sub)) && a in Addrs(u)
    requires Counts(m, t, {}, 0) && Counts(n, u, PathSet(u, a), adj) && |Leaves(u)| == |Leaves(sub)| + adj
    requires SameCounts(m, n, Addrs(t) - Addrs(sub))
    ensures Counts(n, Subst(t, sub.addr, u), PathSet(Subst(t, sub.addr, u), a), adj)
    decreases t, 0
  {
    LocatedAddrs(t.next, Behind(t), sub, d);
    RelinkCounts(m, n, t.next, Behind(t), sub, d, u, a, adj);
  }

  lemma {:induction false} SubstGrows(t: Tree, c: Ctx, sub: Tree, d: Ctx, u: Tree, adj: int)
    requires Located(t, c, sub, d) && Distinct(t) && Meta(sub) && Meta(u) && |Leaves(u)| == |Leaves(sub)| + adj
    ensures |Leaves(Subst(t, sub.addr, u))| == |Leaves(t)| + adj
  {
    SubstLeaves(t, c, sub, d, u);
    assert |Leaves(Subst(t, sub.addr, u)) + Leaves(sub)| == |Leaves(t) + Leaves(u)|;
  }

  lemma {:induction false} PathSetNode(t: Tree, i: nat, a: Addr)
    requires t.Node? && Distinct(t) && i < |t.slots| && a in Addrs(t.slots[i])
    ensures PathSet(t, a) == {t.addr} + PathSet(t.slots[i], a) && PathSet(t.slots[i], a) <= Addrs(t.slots[i])
  {
    PathNode(t, i, a);
    PathInside(t.slots[i], a);
  }

  lemma {:induction false} RelinkCountsNode(m: Memory, n: Memory, t: Tree, c: Ctx, i: Nibble, sub: Tree, d: Ctx,
                                            u: Tree, a: Addr, adj: int)
    requires t.Node? && i < |t.slots| && Meta(t.slots[i]) && Located(t.slots[i], Below(t, c, i), sub, d)
    requires Located(t, c, sub, d) && Distinct(t) && Meta(sub) && Meta(u) && Distinct(u)
    requires Addrs(u) !! (Addrs(t) - Addrs(sub)) && a in Addrs(u)
    requires Counts(m, t, {}, 0) && |Leaves(u)| == |Leaves(sub)| + adj && SameCounts(m, n, Addrs(t) - Addrs(sub))
    requires Addrs(sub) <= Addrs(t.slots[i]) && sub.addr in Addrs(t.slots[i]) && Addrs(u) <= Addrs(Subst(t.slots[i], sub.addr, u))
    requires Counts(n, Subst(t.slots[i], sub.addr, u), PathSet(Subst(t.slots[i], sub.addr, u), a), adj)
    ensures Counts(n, Subst(t, sub.addr, u), PathSet(Subst(t, sub.addr, u), a), adj)
  {
    var w := Subst(t, sub.addr, u);
    var v := Subst(t.slots[i], sub.addr, u);
    assert w == Node(t.addr, t.slots[i := v]) by { SubstNode(t, i, sub.addr, u); }
    assert |Leaves(w)| == |Leaves(t)| + adj by { SubstGrows(t, c, sub, d, u, adj); }
    assert Distinct(w) by { SubstAddrs(t, c, sub, d, u); }
    var q := PathSet(w, a);
    PathSetNode(w, i, a);
    forall j | 0 <= j < |w.slots| && Meta(w.slots[j]) ensures Counts(n, w.slots[j], q, adj) {
      if j == i {
        CountsFrame(n, n, v, PathSet(v, a), adj, q, adj);
      } else {
        SiblingCounts(m, n, t, w, v, i, j, sub, q, adj);
      }
    }
  }

  lemma {:induction false} SiblingCounts(m: Memory, n: Memory, t: Tree, w: Tree, v: Tree, i: nat, j: nat, sub: Tree,
                                         q: set<Addr>, adj: int)
    requires t.Node? && Distinct(t) && i < |t.slots| && j < |t.slots| && i != j && Meta(t.slots[j])
    requires w == Node(t.addr, t.slots[i := v]) && Distinct(w)
    requires Addrs(sub) <= Addrs(t.slots[i]) && SameCounts(m, n, Addrs(t) - Addrs(sub))
    requires Counts(m, t, {}, 0) && q <= Addrs(v) + {t.addr}
    ensures Counts(n, t.slots[j], q, adj)
  {
    assert Addrs(t.slots[j]) !! Addrs(t.slots[i]);
    assert Addrs(w.slots[j]) !! Addrs(w.slots[i]);
    assert Addrs(t.slots[j]) <= AddrsOf(t.slots);
    CountsFrame(m, n, t.slots[j], {}, 0, q, adj);
  }

  // ------------------------------------------------------------- climbing

  /** The nearest node above a back pointer, as the climb skips one shortcut. */
  function NodeAbove(m: Memory, back: Ptr): Option<Addr> {
    match back
    case NodePtr(p) => Some(p)
    case ShortcutPtr(s) => if s in m && m[s].back.NodePtr? then Some(m[s].back.addr) else None
    case _ => None
  }

  /** Nothing, a node, or a shortcut that itself hangs from nothing or a node. */
  ghost predicate Climbable(m: Memory, back: Ptr) {
    match back
    case ShortcutPtr(s) => s in m && (m[s].back == Null || m[s].back.NodePtr?)
    case LeafPtr(_) => false
    case _ => true
  }

  /** What the back pointer of the cell at `x` says: a node, from which the climb leads to `up`. */
  ghost predicate ClimbsTo(m: Memory, x: Addr, up: Option<Addr>) {
    x in m && m[x].NodeCell? && Climbable(m, m[x].back) && NodeAbove(m, m[x].back) == up
  }

  /** The back pointers lead from each node of the path to the one before it. */
  lemma {:induction false} PathLinks(m: Memory, t: Tree, pre: seq<Nibble>, back: Ptr, slot: int, up: Option<Addr>,
                                     a: Addr, j: nat)
    requires Shape(m, t, back, slot) && WF(t, pre) && j < |Path(t, a)|
    requires (t.Node? && Climbable(m, back) && NodeAbove(m, back) == up)
             || (t.Shortcut? && ((back == Null && up == None) || (back.NodePtr? && up == Some(back.addr))))
    ensures ClimbsTo(m, Path(t, a)[j], if j == 0 then up else Some(Path(t, a)[j - 1]))
    decreases t
  {
    match t
    case Node(b, slots) =>
      if j > 0 { PathLinksNode(m, t, pre, back, slot, a, j); }
    case Shortcut(b, p, next) =>
      PathLinks(m, next, p, ShortcutPtr(b), -1, up, a, j);
  }

  lemma {:induction false} PathLinksNode(m: Memory, t: Tree, pre: seq<Nibble>, back: Ptr, slot: int, a: Addr, j: nat)
    requires t.Node? && Shape(m, t, back, slot) && WF(t, pre) && 0 < j < |Path(t, a)|
    ensures ClimbsTo(m, Path(t, a)[j], Some(Path(t, a)[j - 1]))
    decreases t, 1
  {
    var i := PathDown(t, a, j);
    PathLinksChild(m, t, pre, back, slot, i, a, j - 1);
  }

  lemma {:induction false} PathLinksChild(m: Memory, t: Tree, pre: seq<Nibble>, back: Ptr, slot: int, i: Nibble,
                                          a: Addr, j: nat)
    requires t.Node? && Shape(m, t, back, slot) && WF(t, pre) && Meta(t.slots[i]) && j < |Path(t.slots[i], a)|
    ensures ClimbsTo(m, Path(t.slots[i], a)[j], Some(if j == 0 then t.addr else Path(t.slots[i], a)[j - 1]))
    decreases t, 0
  {
    PathLinks(m, t.slots[i], pre + [i], NodePtr(t.addr), i, Some(t.addr), a, j);
  }

  lemma {:induction false} PathDown(t: Tree, a: Addr, j: nat) returns (i: Nibble)
    requires t.Node? && |t.slots| == 16 && 0 < j < |Path(t, a)|
    ensures Meta(t.slots[i]) && j <= |Path(t.slots[i], a)| && Path(t, a)[j] == Path(t.slots[i], a)[j - 1]
    ensures Path(t, a)[j - 1] == if j == 1 then t.addr else Path(t.slots[i], a)[j - 2]
  {
    i := ChildOf(t.slots, a);
  }

  /** The path to a node ends there. */
  lemma {:induction false} PathLast(m: Memory, t: Tree, back: Ptr, slot: int, a: Addr)
    requires Shape(m, t, back, slot) && a in Addrs(t) && a in m && m[a].NodeCell?
    ensures |Path(t, a)| > 0 && Path(t, a)[|Path(t, a)| - 1] == a
    decreases t
  {
    match t
    case Node(b, slots) =>
      if a != b {
        var i: Nibble := ChildOf(slots, a);
        assert Meta(slots[i]);
        PathLast(m, slots[i], NodePtr(b), i, a);
      }
    case Shortcut(b, _, next) => PathLast(m, next, ShortcutPtr(b), -1, a);
  }

  lemma {:induction false} PathNoDup(t: Tree, a: Addr, j: nat)
    requires Distinct(t) && j < |Path(t, a)|
    ensures Path(t, a)[j] !in Path(t, a)[..j]
    decreases t
  {
    match t
    case Node(b, slots) =>
      if j > 0 {
        var i := ChildOf(slots, a);
        PathNoDup(slots[i], a, j - 1);
        PathInside(slots[i], a);
        var p := Path(slots[i], a);
        assert ([b] + p)[..j] == [b] + p[..j - 1];
      }
    case Shortcut(_, _, next) => PathNoDup(next, a, j);
  }

  /** One count corrected is one node less to correct. */
  lemma {:induction false} CountsBump(m: Memory, t: Tree, pend: set<Addr>, adj: int, a: Addr)
    requires Counts(m, t, pend, adj) && a in pend && a in m && m[a].NodeCell?
    ensures Counts(m[a := m[a].(nr := m[a].nr + adj)], t, pend - {a}, adj)
    decreases t
  {
    match t
    case Node(_, slots) =>
      forall i | 0 <= i < |slots| && Meta(slots[i])
        ensures Counts(m[a := m[a].(nr := m[a].nr + adj)], slots[i], pend - {a}, adj)
      {
        CountsBump(m, slots[i], pend, adj, a);
      }
    case Shortcut(_, _, next) => CountsBump(m, next, pend, adj, a);
    case _ =>
  }

  lemma {:induction false} ShapeBump(m: Memory, t: Tree, back: Ptr, slot: int, a: Addr, nr: int)
    requires Shape(m, t, back, slot) && a in m && m[a].NodeCell?
    ensures Shape(m[a := m[a].(nr := nr)], t, back, slot)
    decreases t
  {
    match t
    case Node(b, slots) =>
      forall i: Nibble | Meta(slots[i]) ensures Shape(m[a := m[a].(nr := nr)], slots[i], NodePtr(b), i) {
        ShapeBump(m, slots[i], NodePtr(b), i, a, nr);
      }
    case Shortcut(b, _, next) => ShapeBump(m, next, ShortcutPtr(b), -1, a, nr);
    case _ =>
  }
}
