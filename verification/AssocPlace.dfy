/**
 Where a subtree sits inside a tree, and what replacing it does.  Every edit of
 an associative array replaces the subtree at one address by another one, so
 the effect of an edit on the keys, the addresses and the shape of the whole
 array follows from what it does at that one place.
 */
module AssocPlace {
  import opened AssocTree

  /**
   The surroundings of a subtree: the key segments consumed on the way to it,
   the pointer to its parent and the slot it hangs from (-1 behind a shortcut,
   where the slot number carries no meaning).
   */
  datatype Ctx = Ctx(pre: seq<Nibble>, back: Ptr, slot: int)

  const TOP := Ctx([], Null, -1)

  function Below(t: Tree, c: Ctx, i: Nibble): Ctx
    requires t.Node?
  {
    Ctx(c.pre + [i], NodePtr(t.addr), i)
  }

  function Behind(t: Tree): Ctx
    requires t.Shortcut?
  {
    Ctx(t.prefix, ShortcutPtr(t.addr), -1)
  }

  /** `sub` occurs in `t` with surroundings `d`, when `t` itself has surroundings `c`. */
  ghost predicate Located(t: Tree, c: Ctx, sub: Tree, d: Ctx)
    decreases t
  {
    || (t == sub && c == d)
    || (t.Node? && exists i: Nibble :: i < |t.slots| && Meta(t.slots[i]) && Located(t.slots[i], Below(t, c, i), sub, d))
    || (t.Shortcut? && Located(t.next, Behind(t), sub, d))
  }

  // ---------------------------------------------------------- addresses

  ghost function Addrs(t: Tree): set<Addr>
    decreases t, 1
  {
    match t
    case Node(a, slots) => {a} + AddrsOf(slots)
    case Shortcut(a, _, next) => {a} + Addrs(next)
    case _ => {}
  }

  ghost function AddrsOf(ts: seq<Tree>): (r: set<Addr>)
    ensures forall a :: a in r <==> exists i :: 0 <= i < |ts| && a in Addrs(ts[i])
    decreases ts, 0
  {
    set i, a | 0 <= i < |ts| && a in Addrs(ts[i]) :: a
  }

  /** No address is used twice. */
  ghost predicate Distinct(t: Tree)
    decreases t
  {
    match t
    case Node(a, slots) =>
      && a !in AddrsOf(slots)
      && (forall i :: 0 <= i < |slots| ==> Distinct(slots[i]))
      && (forall i, j :: 0 <= i < j < |slots| ==> Addrs(slots[i]) !! Addrs(slots[j]))
    case Shortcut(a, _, next) => a !in Addrs(next) && Distinct(next)
    case _ => true
  }

  lemma {:induction false} LocatedAddrs(t: Tree, c: Ctx, sub: Tree, d: Ctx)
    requires Located(t, c, sub, d) && Meta(sub)
    ensures Addrs(sub) <= Addrs(t) && sub.addr in Addrs(t)
    ensures Meta(t)
    decreases t
  {
    if t == sub && c == d {
    } else if t.Node? {
      var i: Nibble :| i < |t.slots| && Meta(t.slots[i]) && Located(t.slots[i], Below(t, c, i), sub, d);
      LocatedAddrs(t.slots[i], Below(t, c, i), sub, d);
    } else {
      LocatedAddrs(t.next, Behind(t), sub, d);
    }
  }

  lemma {:induction false} LocatedDistinct(t: Tree, c: Ctx, sub: Tree, d: Ctx)
    requires Located(t, c, sub, d) && Distinct(t)
    ensures Distinct(sub)
    decreases t
  {
    if t == sub && c == d {
    } else if t.Node? {
      var i: Nibble :| i < |t.slots| && Meta(t.slots[i]) && Located(t.slots[i], Below(t, c, i), sub, d);
      LocatedDistinct(t.slots[i], Below(t, c, i), sub, d);
    } else {
      LocatedDistinct(t.next, Behind(t), sub, d);
    }
  }

  // -------------------------------------------------------- replacement

  /** `t` with the subtree at address `a` replaced by `u`. */
  function Subst(t: Tree, a: Addr, u: Tree): Tree
    decreases t
  {
    match t
    case Node(b, slots) =>
      if b == a then u
      else Node(b, seq(|slots|, i requires 0 <= i < |slots| => Subst(slots[i], a, u)))
    case Shortcut(b, p, next) =>
      if b == a then u else Shortcut(b, p, Subst(next, a, u))
    case _ => t
  }

  lemma {:induction false} SubstAbsent(t: Tree, a: Addr, u: Tree)
    requires a !in Addrs(t)
    ensures Subst(t, a, u) == t
    decreases t
  {
    match t
    case Node(_, slots) =>
      forall i | 0 <= i < |slots| ensures Subst(slots[i], a, u) == slots[i] {
        SubstAbsent(slots[i], a, u);
      }
      assert Subst(t, a, u).slots == slots;
    case Shortcut(_, _, next) => SubstAbsent(next, a, u);
    case _ =>
  }

  /** In a node exactly one slot is touched by a replacement below it. */
  lemma {:induction false} SubstNode(t: Tree, i: nat, a: Addr, u: Tree)
    requires t.Node? && Distinct(t) && i < |t.slots| && a in Addrs(t.slots[i])
    ensures Subst(t, a, u) == Node(t.addr, t.slots[i := Subst(t.slots[i], a, u)])
  {
    forall j | 0 <= j < |t.slots| && j != i ensures Subst(t.slots[j], a, u) == t.slots[j] {
      SubstAbsent(t.slots[j], a, u);
    }
    assert Subst(t, a, u).slots == t.slots[i := Subst(t.slots[i], a, u)];
  }

  lemma {:induction false} SubstMeta(t: Tree, a: Addr, u: Tree)
    requires Meta(t) && Meta(u)
    ensures Meta(Subst(t, a, u))
  {}

  /** Swapping one metadata pointer of a node for another leaves its own leaves alone. */
  lemma {:induction false} NodeUpdateItems(ts: seq<Tree>, i: nat, v: Tree)
    requires i < |ts| && Meta(ts[i]) && Meta(v)
    ensures Items(Ptrs(ts[i := v])) == Items(Ptrs(ts))
  {
    ItemsFill(ts, i, v);
  }

  lemma {:induction false} NodeUpdateLeaves(t: Tree, i: nat, v: Tree)
    requires t.Node? && i < |t.slots| && Meta(t.slots[i]) && Meta(v)
    ensures Leaves(Node(t.addr, t.slots[i := v])) + Leaves(t.slots[i]) == Leaves(t) + Leaves(v)
  {
    NodeUpdateItems(t.slots, i, v);
    BranchLeavesUpdate(t.slots, i, v);
    SumSwap(Items(Ptrs(t.slots)), BranchLeaves(t.slots[i := v]), Leaves(t.slots[i]), BranchLeaves(t.slots), Leaves(v));
  }

  lemma {:induction false} TradeSum(x: multiset<Leaf>, y: multiset<Leaf>, s: multiset<Leaf>, v: multiset<Leaf>,
                 p: multiset<Leaf>, q: multiset<Leaf>)
    requires x + s == y + v && v + p == s + q
    ensures x + p == y + q
  {
    forall l: Leaf ensures (x + p)[l] == (y + q)[l] {
      assert (x + s)[l] == (y + v)[l];
      assert (v + p)[l] == (s + q)[l];
    }
  }

  /** Replacing a subtree trades exactly its leaves for the new ones. */
  lemma {:induction false} SubstLeaves(t: Tree, c: Ctx, sub: Tree, d: Ctx, u: Tree)
    requires Located(t, c, sub, d) && Distinct(t) && Meta(sub) && Meta(u)
    ensures Leaves(Subst(t, sub.addr, u)) + Leaves(sub) == Leaves(t) + Leaves(u)
    decreases t
  {
    if t == sub && c == d {
    } else if t.Node? {
      var i: Nibble :| i < |t.slots| && Meta(t.slots[i]) && Located(t.slots[i], Below(t, c, i), sub, d);
      LocatedAddrs(t.slots[i], Below(t, c, i), sub, d);
      SubstLeaves(t.slots[i], Below(t, c, i), sub, d, u);
      SubstNode(t, i, sub.addr, u);
      SubstMeta(t.slots[i], sub.addr, u);
      var v := Subst(t.slots[i], sub.addr, u);
      NodeUpdateLeaves(t, i, v);
      TradeSum(Leaves(Node(t.addr, t.slots[i := v])), Leaves(t), Leaves(t.slots[i]), Leaves(v), Leaves(sub), Leaves(u));
    } else {
      LocatedAddrs(t.next, Behind(t), sub, d);
      SubstLeaves(t.next, Behind(t), sub, d, u);
    }
  }

  lemma {:induction false} NodeUpdateAddrs(t: Tree, i: nat, v: Tree, gone: set<Addr>, added: set<Addr>)
    requires t.Node? && Distinct(t) && i < |t.slots| && Distinct(v)
    requires gone <= Addrs(t.slots[i]) && added !! (Addrs(t) - gone)
    requires Addrs(v) == Addrs(t.slots[i]) - gone + added
    ensures Distinct(Node(t.addr, t.slots[i := v]))
    ensures Addrs(Node(t.addr, t.slots[i := v])) == Addrs(t) - gone + added
  {
    var us := t.slots[i := v];
    forall j | 0 <= j < |us| && j != i ensures Addrs(us[j]) !! Addrs(v) && Addrs(us[j]) !! gone {
      assert us[j] == t.slots[j];
      assert Addrs(us[j]) !! Addrs(t.slots[i]);
      assert Addrs(us[j]) <= Addrs(t) - gone;
    }
    forall b ensures b in AddrsOf(us) <==> b in AddrsOf(t.slots) - gone + added {
      if b in Addrs(v) { assert us[i] == v; }
      if b in AddrsOf(t.slots) {
        var j :| 0 <= j < |t.slots| && b in Addrs(t.slots[j]);
        assert j != i ==> us[j] == t.slots[j];
      }
    }
  }

  /** Replacing a subtree trades exactly its addresses for the new ones. */
  lemma {:induction false} SubstAddrs(t: Tree, c: Ctx, sub: Tree, d: Ctx, u: Tree)
    requires Located(t, c, sub, d) && Distinct(t) && Meta(sub) && Meta(u) && Distinct(u)
    requires Addrs(u) !! (Addrs(t) - Addrs(sub))
    ensures Distinct(Subst(t, sub.addr, u))
    ensures Addrs(Subst(t, sub.addr, u)) == Addrs(t) - Addrs(sub) + Addrs(u)
    decreases t
  {
    if t == sub && c == d {
    } else if t.Node? {
      var i: Nibble :| i < |t.slots| && Meta(t.slots[i]) && Located(t.slots[i], Below(t, c, i), sub, d);
      LocatedAddrs(t.slots[i], Below(t, c, i), sub, d);
      SubstAddrs(t.slots[i], Below(t, c, i), sub, d, u);
      SubstNode(t, i, sub.addr, u);
      NodeUpdateAddrs(t, i, Subst(t.slots[i], sub.addr, u), Addrs(sub), Addrs(u));
    } else {
      LocatedAddrs(t.next, Behind(t), sub, d);
      SubstAddrs(t.next, Behind(t), sub, d, u);
    }
  }

  // ----------------------------------------------------- well-formedness

  lemma {:induction false} LocatedWF(t: Tree, c: Ctx, sub: Tree, d: Ctx)
    requires Located(t, c, sub, d) && WF(t, c.pre)
    ensures WF(sub, d.pre)
    ensures (t == sub && c == d) || (|d.pre| > |c.pre| && (d.back.ShortcutPtr? ==> sub.Node?))
    decreases t
  {
    if t == sub && c == d {
    } else if t.Node? {
      var i: Nibble :| i < |t.slots| && Meta(t.slots[i]) && Located(t.slots[i], Below(t, c, i), sub, d);
      LocatedWF(t.slots[i], Below(t, c, i), sub, d);
    } else {
      LocatedWF(t.next, Behind(t), sub, d);
    }
  }

  /** A correctly placed replacement keeps the whole tree well formed. */
  lemma {:induction false} SubstWF(t: Tree, c: Ctx, sub: Tree, d: Ctx, u: Tree)
    requires Located(t, c, sub, d) && Distinct(t) && WF(t, c.pre) && Meta(sub)
    requires WF(u, d.pre)
    requires d.back.ShortcutPtr? ==> u.Node?
    ensures WF(Subst(t, sub.addr, u), c.pre)
    ensures c.back.ShortcutPtr? && t.Node? ==> Subst(t, sub.addr, u).Node?
    decreases t
  {
    if t == sub && c == d {
    } else if t.Node? {
      var i: Nibble :| i < |t.slots| && Meta(t.slots[i]) && Located(t.slots[i], Below(t, c, i), sub, d);
      LocatedAddrs(t.slots[i], Below(t, c, i), sub, d);
      SubstWF(t.slots[i], Below(t, c, i), sub, d, u);
      SubstNode(t, i, sub.addr, u);
      NodeUpdateWF(t, c.pre, i, Subst(t.slots[i], sub.addr, u));
    } else {
      LocatedAddrs(t.next, Behind(t), sub, d);
      SubstWF(t.next, Behind(t), sub, d, u);
    }
  }

  lemma {:induction false} NodeUpdateWF(t: Tree, pre: seq<Nibble>, i: Nibble, v: Tree)
    requires t.Node? && WF(t, pre) && Meta(t.slots[i]) && WF(v, pre + [i])
    ensures WF(Node(t.addr, t.slots[i := v]), pre)
  {
    var s := t.slots[i := v];
    assert LeavesFit(Items(Ptrs(s)), s, pre) by {
      NodeUpdateItems(t.slots, i, v);
      LeavesFitUpdate(Items(Ptrs(t.slots)), t.slots, pre, i, v);
    }
  }

  lemma {:induction false} LeavesFitUpdate(ms: multiset<Leaf>, slots: seq<Tree>, pre: seq<Nibble>, i: Nibble, v: Tree)
    requires |pre| < 16 && |slots| == 16 && LeavesFit(ms, slots, pre)
    requires Meta(slots[i]) && Meta(v)
    ensures LeavesFit(ms, slots[i := v], pre)
  {
    forall x | x in ms ensures Fits(x, slots[i := v], pre) {
      assert Fits(x, slots, pre);
    }
  }
}
