/**
 Edit scripts.  An operation prepares the new cells and a short list of pointer
 writes; applying the script performs the writes in a fixed order.  Whatever the
 operation, the writes amount to hanging one subtree in place of another.
 */
module AssocScript {
  import opened Common
  import opened AssocTree
  import opened AssocPlace
  import opened AssocWalk
  import opened AssocRefine
  import opened AssocMemory

  /** A pointer variable: the root, a slot, a shortcut's next node or a back pointer. */
  datatype Loc = NoLoc | RootLoc | SlotLoc(addr: Addr, slot: int) | NextLoc(addr: Addr) | BackLoc(addr: Addr)

  datatype Write = Write(at: Loc, to: Ptr)

  datatype Script = Script(
    leaf: Write,
    slotOf: Option<Addr>, slotTo: int,
    rebacked: seq<Addr>, backTo: Ptr,
    set0: Write, set1: Write,
    adjustOn: Option<Addr>, adjustBy: int,
    deadLeaf: Option<Leaf>,
    newMeta: set<Addr>,
    excisedMeta: Option<Addr>,
    excisedSubtree: Ptr, ops: bool)

  const NO_WRITE := Write(NoLoc, Null)

  /** A freshly zeroed script. */
  const BLANK_SCRIPT := Script(NO_WRITE, None, 0, [], Null, NO_WRITE, NO_WRITE, None, 0, None, {}, None, Null, false)

  function Put(m: Memory, w: Write): Memory {
    match w.at
    case SlotLoc(a, i) =>
      if a in m && m[a].NodeCell? && 0 <= i < |m[a].slots| then m[a := m[a].(slots := m[a].slots[i := w.to])] else m
    case NextLoc(a) => if a in m && m[a].ShortcutCell? then m[a := m[a].(next := w.to)] else m
    case BackLoc(a) => if a in m then m[a := WithBack(m[a], w.to)] else m
    case _ => m
  }

  function PutRoot(root: Ptr, w: Write): Ptr {
    if w.at.RootLoc? then w.to else root
  }

  function PutSlotNumber(m: Memory, a: Option<Addr>, slot: int): Memory {
    if a.Some? && a.value in m then m[a.value := WithSlot(m[a.value], slot)] else m
  }

  function Reback(m: Memory, s: seq<Addr>, to: Ptr): Memory {
    if s == [] then m else Reback(Put(m, Write(BackLoc(s[0]), to)), s[1..], to)
  }

  /** Memory after the writes of a script, in the order in which they are made. */
  function Written(m: Memory, e: Script): Memory {
    Put(Put(Reback(PutSlotNumber(Put(m, e.leaf), e.slotOf, e.slotTo), e.rebacked, e.backTo), e.set0), e.set1)
  }

  function WrittenRoot(root: Ptr, e: Script): Ptr {
    PutRoot(PutRoot(root, e.set0), e.set1)
  }

  lemma {:induction false} RebackAt(m: Memory, s: seq<Addr>, to: Ptr, b: Addr)
    ensures b in Reback(m, s, to) <==> b in m
    ensures b in m ==> Reback(m, s, to)[b] == if b in s then WithBack(m[b], to) else m[b]
  {
    if s != [] { RebackAt(Put(m, Write(BackLoc(s[0]), to)), s[1..], to, b); }
  }

  // ------------------------------------------------ replacing one subtree

  /** The pointer variable that a subtree with surroundings `d` hangs from. */
  function ParentLoc(d: Ctx): Loc {
    match d.back
    case NodePtr(a) => SlotLoc(a, d.slot)
    case ShortcutPtr(a) => NextLoc(a)
    case _ => RootLoc
  }

  lemma {:induction false} BackOutside(t: Tree, c: Ctx, sub: Tree, d: Ctx)
    requires Located(t, c, sub, d) && Distinct(t) && Meta(sub)
    ensures (t == sub && c == d)
            || (IsMeta(d.back) && d.back.addr in Addrs(t) && d.back.addr !in Addrs(sub) && (d.back.NodePtr? ==> 0 <= d.slot < 16))
    decreases t
  {
    if t == sub && c == d {
    } else if t.Node? {
      var i: Nibble :| i < |t.slots| && Meta(t.slots[i]) && Located(t.slots[i], Below(t, c, i), sub, d);
      BackOutside(t.slots[i], Below(t, c, i), sub, d);
      LocatedAddrs(t.slots[i], Below(t, c, i), sub, d);
    } else {
      BackOutside(t.next, Behind(t), sub, d);
      LocatedAddrs(t.next, Behind(t), sub, d);
    }
  }

  /** The link to a subtree already is what the tree says. */
  lemma {:induction false} LinkSame(m: Memory, t: Tree, c: Ctx, sub: Tree, d: Ctx)
    requires Located(t, c, sub, d) && Shape(m, t, c.back, c.slot) && Meta(sub)
    ensures (t == sub && c == d) || (IsMeta(d.back) && d.back.addr in m && Linked(m[d.back.addr], d.back.addr, d, PtrOf(sub)) == m[d.back.addr])
    decreases t
  {
    if t == sub && c == d {
    } else if t.Node? {
      var i: Nibble :| i < |t.slots| && Meta(t.slots[i]) && Located(t.slots[i], Below(t, c, i), sub, d);
      LinkSame(m, t.slots[i], Below(t, c, i), sub, d);
      assert Ptrs(t.slots)[i := PtrOf(t.slots[i])] == Ptrs(t.slots);
    } else {
      LinkSame(m, t.next, Behind(t), sub, d);
    }
  }

  lemma {:induction false} PutRelinks(m: Memory, d: Ctx, p: Ptr, b: Addr)
    requires b in m
    ensures b in Put(m, Write(ParentLoc(d), p)) && Put(m, Write(ParentLoc(d), p))[b] == Linked(m[b], b, d, p)
  {}

  /** `u` lies in memory ready to take the place of `sub`, one write short of it. */
  ghost predicate Ready(m: Memory, n: Memory, t: Tree, sub: Tree, d: Ctx, u: Tree) {
    && Located(t, TOP, sub, d) && Distinct(t) && Meta(sub) && Fresh(t, sub, u)
    && Shape(m, t, Null, -1) && Agree(m, n, Addrs(t) - Addrs(sub)) && Shape(n, u, d.back, d.slot)
  }

  lemma {:induction false} LinkOutside(m: Memory, n: Memory, t: Tree, sub: Tree, d: Ctx, u: Tree)
    requires Ready(m, n, t, sub, d, u)
    ensures Agree(n, Put(n, Write(ParentLoc(d), PtrOf(u))), Addrs(u))
  {
    BackOutside(t, TOP, sub, d);
  }

  lemma {:induction false} LinkRelinks(m: Memory, n: Memory, t: Tree, sub: Tree, d: Ctx, u: Tree)
    requires Ready(m, n, t, sub, d, u)
    ensures Relinked(m, Put(n, Write(ParentLoc(d), PtrOf(u))), Addrs(t) - Addrs(sub), d, PtrOf(u))
  {
    forall b | b in Addrs(t) - Addrs(sub) && b in m
      ensures b in Put(n, Write(ParentLoc(d), PtrOf(u))) && Put(n, Write(ParentLoc(d), PtrOf(u)))[b] == Linked(m[b], b, d, PtrOf(u))
    {
      PutRelinks(n, d, PtrOf(u), b);
    }
  }

  /** The one write that hangs the replacement makes memory hold the new tree. */
  lemma {:induction false} CommitShape(m: Memory, n: Memory, t: Tree, sub: Tree, d: Ctx, u: Tree)
    requires Ready(m, n, t, sub, d, u)
    ensures Shape(Put(n, Write(ParentLoc(d), PtrOf(u))), Subst(t, sub.addr, u), Null, -1)
    ensures PutRoot(PtrOf(t), Write(ParentLoc(d), PtrOf(u))) == PtrOf(Subst(t, sub.addr, u))
  {
    var n' := Put(n, Write(ParentLoc(d), PtrOf(u)));
    LinkOutside(m, n, t, sub, d, u);
    LinkRelinks(m, n, t, sub, d, u);
    ShapeFrame(n, n', u, d.back, d.slot);
    RelinkShape(m, n', t, TOP, sub, d, u);
    SubstPtr(t, TOP, sub, d, u);
    LocatedTop(t, TOP, sub, d);
    BackOutside(t, TOP, sub, d);
  }

  lemma {:induction false} CommitCounts(m: Memory, n: Memory, t: Tree, sub: Tree, d: Ctx, u: Tree, a: Addr, adj: int)
    requires Ready(m, n, t, sub, d, u) && a in Addrs(u)
    requires Counts(m, t, {}, 0) && Counts(n, u, PathSet(u, a), adj) && |Leaves(u)| == |Leaves(sub)| + adj
    ensures Counts(Put(n, Write(ParentLoc(d), PtrOf(u))), Subst(t, sub.addr, u), PathSet(Subst(t, sub.addr, u), a), adj)
  {
    var n' := Put(n, Write(ParentLoc(d), PtrOf(u)));
    LinkOutside(m, n, t, sub, d, u);
    assert SameCounts(n, n', Addrs(u));
    CountsFrame(n, n', u, PathSet(u, a), adj, PathSet(u, a), adj);
    LinkRelinks(m, n, t, sub, d, u);
    assert SameCounts(m, n', Addrs(t) - Addrs(sub));
    RelinkCounts(m, n', t, TOP, sub, d, u, a, adj);
  }

  // ----------------------------------------------- writing one leaf slot

  /** A node with one of its own leaf slots overwritten in place. */
  ghost predicate Rewrites(n: Tree, i: int, x: Tree, u: Tree) {
    n.Node? && 0 <= i < |n.slots| && !Meta(n.slots[i]) && !Meta(x) && u == Node(n.addr, n.slots[i := x])
  }

  function SlotWrite(n: Tree, i: int, x: Tree): Write
    requires n.Node?
  {
    Write(SlotLoc(n.addr, i), PtrOf(x))
  }

  lemma {:induction false} RewritesAddrs(n: Tree, i: int, x: Tree, u: Tree)
    requires Rewrites(n, i, x, u) && Distinct(n)
    ensures Distinct(u) && Addrs(u) == Addrs(n)
  {
    assert forall j :: 0 <= j < |n.slots| ==> Addrs(u.slots[j]) == Addrs(n.slots[j]);
    assert AddrsOf(u.slots) == AddrsOf(n.slots);
  }

  lemma {:induction false} RewritesShape(m: Memory, n: Tree, d: Ctx, i: int, x: Tree, u: Tree)
    requires Rewrites(n, i, x, u) && Distinct(n) && Shape(m, n, d.back, d.slot)
    ensures Shape(Put(m, SlotWrite(n, i, x)), u, d.back, d.slot)
  {
    var m' := Put(m, SlotWrite(n, i, x));
    assert Ptrs(u.slots) == Ptrs(n.slots)[i := PtrOf(x)];
    forall j: Nibble | Meta(u.slots[j]) ensures Shape(m', u.slots[j], NodePtr(n.addr), j) {
      assert u.slots[j] == n.slots[j];
      assert n.addr !in Addrs(n.slots[j]);
      ShapeFrame(m, m', n.slots[j], NodePtr(n.addr), j);
    }
  }

  lemma {:induction false} RewritesCounts(m: Memory, n: Tree, i: int, x: Tree, u: Tree, adj: int)
    requires Rewrites(n, i, x, u) && Distinct(n) && Counts(m, n, {}, 0) && |Leaves(u)| == |Leaves(n)| + adj
    ensures Counts(Put(m, SlotWrite(n, i, x)), u, PathSet(u, n.addr), adj)
  {
    var m' := Put(m, SlotWrite(n, i, x));
    assert PathSet(u, n.addr) == {n.addr};
    forall j | 0 <= j < |u.slots| && Meta(u.slots[j]) ensures Counts(m', u.slots[j], {n.addr}, adj) {
      assert u.slots[j] == n.slots[j];
      assert n.addr !in Addrs(n.slots[j]);
      CountsFrame(m, m', n.slots[j], {}, 0, {n.addr}, adj);
    }
  }

  /** Overwriting a leaf slot anywhere in a tree rewrites just that node. */
  lemma {:induction false} InPlaceShape(m: Memory, t: Tree, c: Ctx, n: Tree, d: Ctx, i: int, x: Tree, u: Tree)
    requires Located(t, c, n, d) && Distinct(t) && Distinct(n) && Shape(m, t, c.back, c.slot) && Rewrites(n, i, x, u)
    ensures Shape(Put(m, SlotWrite(n, i, x)), Subst(t, n.addr, u), c.back, c.slot)
  {
    var m' := Put(m, SlotWrite(n, i, x));
    LocatedShape(m, t, c, n, d);
    RewritesShape(m, n, d, i, x, u);
    BackOutside(t, c, n, d);
    LinkSame(m, t, c, n, d);
    assert n.addr in Addrs(n);
    assert Relinked(m, m', Addrs(t) - Addrs(n), d, PtrOf(u));
    RelinkShape(m, m', t, c, n, d, u);
  }

  lemma {:induction false} InPlaceCounts(m: Memory, m': Memory, t: Tree, n: Tree, d: Ctx, i: int, x: Tree, u: Tree,
                                         adj: int)
    requires Located(t, TOP, n, d) && Distinct(t) && Distinct(n) && Counts(m, t, {}, 0) && Rewrites(n, i, x, u)
    requires |Leaves(u)| == |Leaves(n)| + adj && m' == Put(m, SlotWrite(n, i, x))
    ensures Counts(m', Subst(t, n.addr, u), PathSet(Subst(t, n.addr, u), n.addr), adj)
  {
    assert Counts(m', u, PathSet(u, n.addr), adj) by {
      LocatedCounts(m, t, TOP, n, d, {}, 0);
      RewritesCounts(m, n, i, x, u, adj);
    }
    assert Distinct(u) && Addrs(u) == Addrs(n) && n.addr in Addrs(u) by { RewritesAddrs(n, i, x, u); }
    RelinkCounts(m, m', t, TOP, n, d, u, n.addr, adj);
  }

  // --------------------------------------------------- a script's effect

  predicate IsNodeCell(m: Memory, a: Addr) {
    a in m && m[a].NodeCell?
  }

  lemma {:induction false} PutKeepsNode(m: Memory, w: Write, a: Addr)
    requires IsNodeCell(m, a)
    ensures IsNodeCell(Put(m, w), a)
  {}

  /** The nodes whose counts a script still has to adjust once its pointers are written. */
  ghost function Pending(t: Tree, e: Script): set<Addr> {
    if e.adjustOn.Some? then PathSet(t, e.adjustOn.value) else {}
  }

  /**
   The written memory `m'` holds `t'`, with counts still pending on the path to
   `adjustOn`, and exactly the cells of `gone` are left over.
   */
  ghost predicate Achieves(m: Memory, m': Memory, t: Tree, e: Script, t': Tree, gone: Tree, at: Ctx) {
    && Shape(m', t', Null, -1) && WrittenRoot(PtrOf(t), e) == PtrOf(t')
    && Counts(m', t', Pending(t', e), e.adjustBy)
    && (e.adjustOn.Some? ==> t' != Empty && e.adjustOn.value in Addrs(t') && IsNodeCell(m', e.adjustOn.value))
    && (t' != Empty ==> |Leaves(t')| == |Leaves(t)| + (if e.adjustOn.Some? then e.adjustBy else 0))
    && e.newMeta !! Addrs(t) && m.Keys == Addrs(t) + e.newMeta
    && Distinct(t') && Addrs(t') <= m.Keys
    && Excised(m', e, Addrs(t) + e.newMeta - Addrs(t'), gone, at)
  }

  /** Writing the script turns the tree `t` into `t'`. */
  ghost predicate Scripted(m: Memory, t: Tree, e: Script, t': Tree, gone: Tree, at: Ctx) {
    exists m' :: m' == Written(m, e) && Achieves(m, m', t, e, t', gone, at)
  }

  /** The script frees the object found under `k`, if there is one, and no other. */
  ghost predicate Retires(t: Tree, k: Key, e: Script) {
    !e.ops && e.deadLeaf == match Find(t, k) case Found(o) => Some(Leaf(k, o)) case _ => None
  }

  /** What cleaning up has to free: one cell, or a whole subtree, or nothing. */
  ghost predicate Excised(n: Memory, e: Script, left: set<Addr>, gone: Tree, at: Ctx) {
    if e.excisedSubtree != Null then
      && e.excisedMeta.None? && e.excisedSubtree == PtrOf(gone) && Meta(gone) && left == Addrs(gone) && Distinct(gone)
      && WF(gone, at.pre) && Shape(n, gone, at.back, at.slot)
    else
      left == if e.excisedMeta.Some? then {e.excisedMeta.value} else {}
  }
}
