/**
 Scripting a deletion: clearing the leaf's slot, emptying the array, or collapsing
 the topmost small enough subtree, which is found by climbing back pointers.
 */
module AssocShrink {
  import opened Common
  import opened AssocTree
  import opened AssocPlace
  import opened AssocWalk
  import opened AssocInsert
  import opened AssocRefine
  import opened AssocExact
  import opened AssocDelete
  import opened AssocMemory
  import opened AssocSlots
  import opened AssocScript
  import opened AssocStage
  import opened AssocEdits
  import opened AssocTraverse

  // ------------------------------------------------- the way to the key

  /** The walk for `k` from `t` passes `sub`. */
  ghost predicate Passes(t: Tree, c: Ctx, k: Key, sub: Tree, d: Ctx)
    decreases t
  {
    || (t == sub && c == d)
    || (t.Node? && |c.pre| < 16 && |t.slots| == 16 && Meta(t.slots[k[|c.pre|]])
        && Passes(t.slots[k[|c.pre|]], Below(t, c, k[|c.pre|]), k, sub, d))
    || (t.Shortcut? && Passes(t.next, Behind(t), k, sub, d))
  }

  lemma {:induction false} WalkPasses(t: Tree, c: Ctx, k: Key)
    ensures Walk(t, c, k).TerminalNode? ==> Passes(t, c, k, Walk(t, c, k).node, Walk(t, c, k).at)
    decreases t
  {
    if t.Node? && |c.pre| < 16 && |t.slots| == 16 {
      var i := k[|c.pre|];
      if Meta(t.slots[i]) { WalkPasses(t.slots[i], Below(t, c, i), k); }
    } else if t.Shortcut? && t.next.Node? && t.prefix <= k {
      WalkPasses(t.next, Behind(t), k);
    }
  }

  lemma {:induction false} PassesLocated(t: Tree, c: Ctx, k: Key, sub: Tree, d: Ctx)
    requires Passes(t, c, k, sub, d)
    ensures Located(t, c, sub, d)
    decreases t
  {
    if t == sub && c == d {
    } else if t.Node? {
      PassesLocated(t.slots[k[|c.pre|]], Below(t, c, k[|c.pre|]), k, sub, d);
    } else {
      PassesLocated(t.next, Behind(t), k, sub, d);
    }
  }

  lemma {:induction false} PassesVia(t: Tree, c: Ctx, k: Key, mid: Tree, e: Ctx, sub: Tree, d: Ctx)
    requires Passes(t, c, k, mid, e) && Passes(mid, e, k, sub, d)
    ensures Passes(t, c, k, sub, d)
    decreases t
  {
    if t == mid && c == e {
    } else if t.Node? {
      PassesVia(t.slots[k[|c.pre|]], Below(t, c, k[|c.pre|]), k, mid, e, sub, d);
    } else {
      PassesVia(t.next, Behind(t), k, mid, e, sub, d);
    }
  }

  /** The nearest node above `sub` on the way to it, or `up` if there is none in `t`. */
  ghost function Parent(t: Tree, c: Ctx, k: Key, sub: Tree, d: Ctx, up: Place): Place
    requires Passes(t, c, k, sub, d)
    decreases t
  {
    if t == sub && c == d then up
    else if t.Node? then Parent(t.slots[k[|c.pre|]], Below(t, c, k[|c.pre|]), k, sub, d, At(t, c))
    else Parent(t.next, Behind(t), k, sub, d, up)
  }

  /** The parent lies on the way, strictly nearer to the root. */
  lemma {:induction false} ParentPasses(t: Tree, c: Ctx, k: Key, sub: Tree, d: Ctx, up: Place)
    requires Passes(t, c, k, sub, d) && WF(t, c.pre)
    ensures var g := Parent(t, c, k, sub, d, up);
            g == up || (g.At? && g.tree.Node? && Passes(t, c, k, g.tree, g.ctx) && Passes(g.tree, g.ctx, k, sub, d) && |g.ctx.pre| < |d.pre|)
    ensures |c.pre| <= |d.pre|
    decreases t
  {
    if t == sub && c == d {
    } else if t.Node? {
      ParentPasses(t.slots[k[|c.pre|]], Below(t, c, k[|c.pre|]), k, sub, d, At(t, c));
    } else {
      ParentPasses(t.next, Behind(t), k, sub, d, up);
    }
  }

  ghost function UpAddr(up: Place): Option<Addr> {
    if up.At? && up.tree.Node? then Some(up.tree.addr) else None
  }

  /** Back pointers lead from a node to its parent, over at most one shortcut. */
  lemma {:induction false} ParentLinked(m: Memory, t: Tree, c: Ctx, k: Key, sub: Tree, d: Ctx, up: Place)
    requires Passes(t, c, k, sub, d) && sub.Node? && WF(t, c.pre) && Shape(m, t, c.back, c.slot)
    requires if t.Shortcut? then (c.back == Null && up == Nowhere) || (c.back.NodePtr? && UpAddr(up) == Some(c.back.addr))
             else Climbable(m, c.back) && NodeAbove(m, c.back) == UpAddr(up)
    ensures sub.addr in m && Climbable(m, m[sub.addr].back) && NodeAbove(m, m[sub.addr].back) == UpAddr(Parent(t, c, k, sub, d, up))
    decreases t
  {
    if t == sub && c == d {
    } else if t.Node? {
      ParentLinked(m, t.slots[k[|c.pre|]], Below(t, c, k[|c.pre|]), k, sub, d, At(t, c));
    } else {
      ParentLinked(m, t.next, Behind(t), k, sub, d, up);
    }
  }

  // --------------------------------------------- the topmost small node

  lemma {:induction false} BranchFewer(ts: seq<Tree>, i: nat)
    requires i < |ts| && Meta(ts[i])
    ensures |Leaves(ts[i])| <= |BranchLeaves(ts)|
  {
    if i > 0 { BranchFewer(ts[1..], i - 1); }
  }

  lemma {:induction false} ChildFewer(t: Tree, i: nat)
    requires t.Node? && i < |t.slots| && Meta(t.slots[i])
    ensures |Leaves(t.slots[i])| <= |Leaves(t)|
  {
    BranchFewer(t.slots, i);
  }

  /** Small, with a big parent or none: that is where the search from the root stops. */
  lemma {:induction false} TopmostSmall(t: Tree, c: Ctx, k: Key, sub: Tree, d: Ctx, up: Place)
    requires Passes(t, c, k, sub, d) && sub.Node? && |Leaves(sub)| <= 17
    requires var g := Parent(t, c, k, sub, d, up); g.At? ==> |Leaves(g.tree)| > 17
    ensures FirstSmall(t, c, k) == At(sub, d)
    ensures var g := Parent(t, c, k, sub, d, up); g == up || (g.At? && |Leaves(g.tree)| <= |Leaves(t)|)
    decreases t
  {
    if t == sub && c == d {
    } else if t.Node? {
      var i := k[|c.pre|];
      TopmostSmall(t.slots[i], Below(t, c, i), k, sub, d, At(t, c));
      ChildFewer(t, i);
    } else {
      TopmostSmall(t.next, Behind(t), k, sub, d, up);
    }
  }

  /** If even the terminal node is big, no node on the way is small. */
  lemma {:induction false} NoneSmall(t: Tree, c: Ctx, k: Key)
    requires Walk(t, c, k).TerminalNode? && |Leaves(Walk(t, c, k).node)| > 17
    ensures FirstSmall(t, c, k) == Nowhere && |Leaves(t)| > 17
    decreases t
  {
    if t.Node? {
      var i := k[|c.pre|];
      if Meta(t.slots[i]) {
        NoneSmall(t.slots[i], Below(t, c, i), k);
        ChildFewer(t, i);
      }
    } else {
      NoneSmall(t.next, Behind(t), k);
    }
  }

  lemma {:induction false} PassesCounts(m: Memory, t: Tree, k: Key, sub: Tree, d: Ctx)
    requires Passes(t, TOP, k, sub, d) && sub.Node? && Shape(m, t, Null, -1) && Counts(m, t, {}, 0)
    ensures sub.addr in m && m[sub.addr].NodeCell? && m[sub.addr].nr == |Leaves(sub)| && Shape(m, sub, d.back, d.slot)
  {
    PassesLocated(t, TOP, k, sub, d);
    LocatedShape(m, t, TOP, sub, d);
    LocatedCounts(m, t, TOP, sub, d, {}, 0);
  }

  /** A small node on the way from the root to `n`. */
  ghost predicate Collapsible(t: Tree, k: Key, n: Tree, d: Ctx, p: Tree, e: Ctx) {
    Passes(t, TOP, k, p, e) && p.Node? && |Leaves(p)| <= 17 && Passes(p, e, k, n, d)
  }

  lemma {:induction false} ClimbFacts(m: Memory, t: Tree, k: Key, n: Tree, d: Ctx, p: Tree, e: Ctx)
    returns (g: Place)
    requires WF(t, []) && Shape(m, t, Null, -1) && Counts(m, t, {}, 0) && Collapsible(t, k, n, d, p, e)
    ensures p.addr in m && Climbable(m, m[p.addr].back) && NodeAbove(m, m[p.addr].back) == UpAddr(g)
    ensures || g.Nowhere?
            || (&& g.At? && g.tree.Node? && g.tree.addr in m && m[g.tree.addr].NodeCell?
                && m[g.tree.addr].nr == |Leaves(g.tree)| && |g.ctx.pre| < |e.pre|)
    ensures g.At? && |Leaves(g.tree)| <= 17 ==> Collapsible(t, k, n, d, g.tree, g.ctx)
    ensures (g.At? ==> |Leaves(g.tree)| > 17) ==> FirstSmall(t, TOP, k) == At(p, e)
  {
    g := Parent(t, TOP, k, p, e, Nowhere);
    ParentPasses(t, TOP, k, p, e, Nowhere);
    ParentLinked(m, t, TOP, k, p, e, Nowhere);
    if g.At? {
      PassesCounts(m, t, k, g.tree, g.ctx);
      PassesVia(g.tree, g.ctx, k, p, e, n, d);
    }
    if g.At? ==> |Leaves(g.tree)| > 17 { TopmostSmall(t, TOP, k, p, e, Nowhere); }
  }

  /** Climbs from a small node to the topmost small node above it. */
  method CollapseUp(m: Memory, a: Addr, ghost t: Tree, ghost k: Key, ghost n: Tree, ghost d: Ctx)
    returns (parent: Addr, ghost p: Tree, ghost e: Ctx)
    requires WF(t, []) && Shape(m, t, Null, -1) && Counts(m, t, {}, 0)
    requires n.Node? && n.addr == a && Passes(t, TOP, k, n, d) && |Leaves(n)| <= 17
    ensures FirstSmall(t, TOP, k).At? && FirstSmall(t, TOP, k).tree.addr == parent
    ensures Collapsible(t, k, n, d, p, e) && FirstSmall(t, TOP, k) == At(p, e)
  {
    parent, p, e := a, n, d;
    while true
      invariant Collapsible(t, k, n, d, p, e) && p.addr == parent
      decreases |e.pre|
    {
      ghost var g := ClimbFacts(m, t, k, n, d, p, e);
      var ptr := m[parent].back;
      if ptr == Null { return; }
      if ptr.ShortcutPtr? {
        ptr := m[ptr.addr].back;
        if ptr == Null { return; }
      }
      var grandparent := ptr.addr;
      if m[grandparent].nr > 17 { return; }
      parent, p, e := grandparent, g.tree, g.ctx;
    }
  }

  // -------------------------------------------------------- collapsing

  /** The first `i` visited leaves have been copied, except the one to skip. */
  ghost predicate Copied(vs: seq<Leaf>, i: int, x: Leaf, slots: seq<Ptr>, next: int) {
    && 0 <= i <= |vs| && 0 <= next <= 16 && |slots| == 16
    && next == i - multiset(vs[..i])[x]
    && (forall j :: 0 <= j < 16 ==> !IsMeta(slots[j]) && (j >= next ==> slots[j] == Null))
    && SurvivorsOf(multiset(vs[..i]), x, Items(slots))
  }

  ghost predicate SurvivorsOf(ms: multiset<Leaf>, x: Leaf, kept: multiset<Leaf>) {
    kept == ms - multiset{x}
  }

  lemma {:induction false} CopyStart(vs: seq<Leaf>, x: Leaf, slots: seq<Ptr>)
    requires |slots| == 16 && forall j :: 0 <= j < 16 ==> slots[j] == Null
    ensures Copied(vs, 0, x, slots, 0)
  {
    ItemsNone(slots);
  }

  lemma {:induction false} CopyEnd(vs: seq<Leaf>, x: Leaf, slots: seq<Ptr>, next: int)
    requires Copied(vs, |vs|, x, slots, next) && multiset(vs)[x] == 1
    ensures next == |vs| - 1 && (forall j :: 0 <= j < 16 ==> !IsMeta(slots[j])) && Items(slots) == multiset(vs) - multiset{x}
  {
    assert vs[..|vs|] == vs;
  }

  lemma {:induction false} CopySkip(vs: seq<Leaf>, i: int, x: Leaf, slots: seq<Ptr>, next: int)
    requires Copied(vs, i, x, slots, next) && i < |vs| && vs[i] == x && multiset(vs)[x] == 1
    ensures Copied(vs, i + 1, x, slots, next)
  {
    OnceBefore(vs, i, x);
    assert vs[..i + 1] == vs[..i] + [x];
  }

  lemma {:induction false} OnceBefore(vs: seq<Leaf>, i: int, x: Leaf)
    requires 0 <= i < |vs| && multiset(vs)[x] == 1
    ensures vs[i] == x ==> multiset(vs[..i])[x] == 0
    ensures multiset(vs[..i])[x] <= 1 && (multiset(vs[..i])[x] == 0 && vs[i] != x ==> i + 1 < |vs|)
  {
    assert vs == vs[..i] + [vs[i]] + vs[i + 1..];
    assert multiset(vs) == multiset(vs[..i]) + multiset{vs[i]} + multiset(vs[i + 1..]);
    if i + 1 == |vs| { assert vs[i + 1..] == []; }
  }

  lemma {:induction false} CopyOne(vs: seq<Leaf>, i: int, x: Leaf, slots: seq<Ptr>, next: int)
    requires Copied(vs, i, x, slots, next) && i < |vs| <= 17 && vs[i] != x && multiset(vs)[x] == 1
    ensures next < 16 && Copied(vs, i + 1, x, slots[next := LeafPtr(vs[i])], next + 1)
  {
    var y, ms, ms' := vs[i], multiset(vs[..i]), multiset(vs[..i + 1]);
    assert next < 16 by { OnceBefore(vs, i, x); }
    assert ms' == ms + multiset{y} by { assert vs[..i + 1] == vs[..i] + [y]; }
    assert Items(slots[next := LeafPtr(y)]) == Items(slots) + multiset{y} by { ItemsPut(slots, next, y); }
    assert Items(slots[next := LeafPtr(y)]) == ms' - multiset{x} by { MinusOther(ms, x, y); }
  }

  lemma {:induction false} MinusOther(ms: multiset<Leaf>, x: Leaf, y: Leaf)
    requires x != y
    ensures (ms - multiset{x}) + multiset{y} == (ms + multiset{y}) - multiset{x}
  {}

  /** The callback of the collapse: copies one leaf unless it is the one to skip. */
  method CopyLeaf(ghost vs: seq<Leaf>, ghost i: int, leaf: Leaf, x: Leaf, slots0: seq<Ptr>, next0: int)
    returns (slots: seq<Ptr>, next: int)
    requires Copied(vs, i, x, slots0, next0) && i < |vs| <= 17 && leaf == vs[i] && multiset(vs)[x] == 1
    ensures Copied(vs, i + 1, x, slots, next)
  {
    if leaf == x {
      CopySkip(vs, i, x, slots0, next0);
      return slots0, next0;
    }
    CopyOne(vs, i, x, slots0, next0);
    return slots0[next0 := LeafPtr(leaf)], next0 + 1;
  }

  /** Copies the surviving leaves into the slots of one node; they fit exactly. */
  method Compact(vs: seq<Leaf>, x: Leaf, nr: int) returns (slots: seq<Ptr>)
    requires |vs| == nr <= 17 && multiset(vs)[x] == 1
    ensures |slots| == 16 && (forall j :: 0 <= j < 16 ==> !IsMeta(slots[j])) && Items(slots) == multiset(vs) - multiset{x}
  {
    slots := seq(16, _ => Null);
    CopyStart(vs, x, slots);
    var next, i := 0, 0;
    while i < |vs|
      invariant Copied(vs, i, x, slots, next)
    {
      slots, next := CopyLeaf(vs, i, vs[i], x, slots, next);
      i := i + 1;
    }
    CopyEnd(vs, x, slots, next);
  }

  lemma {:induction false} LiftPacked(a: Addr, slots: seq<Ptr>, ms: multiset<Leaf>)
    returns (u: Tree)
    requires |slots| == 16 && (forall j :: 0 <= j < 16 ==> !IsMeta(slots[j])) && Items(slots) == ms
    ensures Packed(u, ms) && u.addr == a && Ptrs(u.slots) == slots && AddrsOf(u.slots) == {} && Distinct(u)
  {
    var ts := seq(16, i requires 0 <= i < 16 => if slots[i].LeafPtr? then Item(slots[i].leaf) else Empty);
    u := Node(a, ts);
    assert Ptrs(ts) == slots;
    assert forall i :: 0 <= i < 16 ==> Addrs(ts[i]) == {} && Distinct(ts[i]);
  }

  // ---------------------------------------------------------- the scripts

  const DELETION := BLANK_SCRIPT.(adjustBy := -1)

  /** The terminal node `n` holds the leaf `x` in slot `i`; `u` is `n` without it. */
  ghost predicate Deletable(m: Memory, t: Tree, n: Tree, d: Ctx, x: Leaf, i: int, u: Tree) {
    && Terminal(m, t, n, d, x.key) && n.Node? && 0 <= i < |n.slots| && n.slots[i] == Item(x)
    && u == Node(n.addr, n.slots[i := Empty])
  }

  lemma {:induction false} DeletableFacts(m: Memory, t: Tree, n: Tree, d: Ctx, x: Leaf, i: int, u: Tree)
    requires Deletable(m, t, n, d, x, i, u)
    ensures Located(t, TOP, n, d) && Distinct(n) && WF(n, d.pre) && Cleared(n, x, u) && Rewrites(n, i, Empty, u)
    ensures WF(u, d.pre) && |Leaves(u)| == |Leaves(n)| - 1 && Passes(t, TOP, x.key, n, d)
    ensures x in Items(Ptrs(n.slots))
  {
    TerminalFacts(m, t, n, d, x.key);
    assert Passes(t, TOP, x.key, n, d) by { WalkPasses(t, TOP, x.key); }
    assert WF(u, d.pre) by { ClearedWF(n, d.pre, x, u); }
    assert |Leaves(u)| == |Leaves(n)| - 1 by {
      ClearedLeaves(n, x, u);
      assert |Leaves(u) + multiset{x}| == |Leaves(n)|;
    }
    assert x in Items(Ptrs(n.slots)) by {
      ItemsAt(Ptrs(n.slots), x);
      assert Ptrs(n.slots)[i] == LeafPtr(x);
    }
  }

  lemma {:induction false} DeletableFound(m: Memory, t: Tree, n: Tree, d: Ctx, x: Leaf, i: int, u: Tree)
    requires Deletable(m, t, n, d, x, i, u)
    ensures Find(t, x.key) == Found(x.obj) && x in Leaves(t)
  {
    DeletableFacts(m, t, n, d, x, i, u);
    SearchItems(Ptrs(n.slots), x.key);
    assert Leaf(x.key, x.obj) == x;
    FindBinds(t, x.key);
    assert Binds(t, x.key, x.obj);
  }

  lemma {:induction false} RemovesStep(t: Tree, n: Tree, d: Ctx, x: Leaf, t': Tree)
    requires Find(t, x.key) == Found(x.obj) && Walk(t, TOP, x.key) == TerminalNode(n, d) && Removes(t, x, n, d, t')
    ensures DeleteStep(t, x.key, t')
  {}

  /** Clearing the slot in place, when nothing is to be collapsed. */
  lemma {:induction false} ClearScripted(m: Memory, t: Tree, n: Tree, d: Ctx, x: Leaf, i: int, u: Tree, e: Script)
    requires Deletable(m, t, n, d, x, i, u)
    requires e == DELETION.(deadLeaf := Some(x), set0 := Write(SlotLoc(n.addr, i), Null), adjustOn := Some(n.addr))
    ensures Scripted(m, t, e, Subst(t, n.addr, u), Empty, TOP)
  {
    DeletableFacts(m, t, n, d, x, i, u);
    ClearWritten(m, n, x, i, e);
    OneWriteScripted(m, t, n, d, i, Empty, u, e, -1);
  }

  lemma {:induction false} ClearWritten(m: Memory, n: Tree, x: Leaf, i: int, e: Script)
    requires n.Node? && e == DELETION.(deadLeaf := Some(x), set0 := Write(SlotLoc(n.addr, i), Null), adjustOn := Some(n.addr))
    ensures OneWrite(m, n, i, Empty, e, -1)
  {}

  lemma {:induction false} ClearRemoves(m: Memory, t: Tree, n: Tree, d: Ctx, x: Leaf, i: int, u: Tree)
    requires Deletable(m, t, n, d, x, i, u) && |Leaves(t)| > 1
    requires var f := FirstSmall(t, TOP, x.key); f.At? ==> f.tree == n && !HasMeta(n)
    ensures DeleteStep(t, x.key, Subst(t, n.addr, u))
  {
    DeletableFacts(m, t, n, d, x, i, u);
    DeletableFound(m, t, n, d, x, i, u);
    assert Removes(t, x, n, d, Subst(t, n.addr, u));
    RemovesStep(t, n, d, x, Subst(t, n.addr, u));
  }

  /** The tree left over once the slot is cleared still lies in memory, ready to be freed. */
  lemma {:induction false} ClearedSubtree(m: Memory, m': Memory, p: Tree, e: Ctx, n: Tree, d: Ctx, i: int, u: Tree)
    returns (gone: Tree)
    requires Located(p, e, n, d) && Distinct(p) && Distinct(n) && WF(p, e.pre) && WF(u, d.pre) && Shape(m, p, e.back, e.slot)
    requires Rewrites(n, i, Empty, u) && m' == Put(m, Write(SlotLoc(n.addr, i), Null))
    ensures Shape(m', gone, e.back, e.slot) && WF(gone, e.pre) && Distinct(gone)
    ensures Addrs(gone) == Addrs(p) && Meta(gone) && PtrOf(gone) == PtrOf(p)
  {
    gone := Subst(p, n.addr, u);
    assert Shape(m', gone, e.back, e.slot) by { InPlaceShape(m, p, e, n, d, i, Empty, u); }
    assert WF(gone, e.pre) by { SubstWF(p, e, n, d, u); }
    assert Distinct(gone) && Addrs(gone) == Addrs(p) by { ClearedAddrs(p, e, n, d, i, u); }
    SubstPtr(p, e, n, d, u);
  }

  lemma {:induction false} ClearedAddrs(p: Tree, e: Ctx, n: Tree, d: Ctx, i: int, u: Tree)
    requires Located(p, e, n, d) && Distinct(p) && Distinct(n) && Rewrites(n, i, Empty, u)
    ensures Distinct(Subst(p, n.addr, u)) && Addrs(Subst(p, n.addr, u)) == Addrs(p)
  {
    RewritesAddrs(n, i, Empty, u);
    LocatedAddrs(p, e, n, d);
    SubstAddrs(p, e, n, d, u);
  }

  /** The root is cut off and everything that hung from it is left over. */
  lemma {:induction false} CutOff(m: Memory, m': Memory, t: Tree, e: Script, gone: Tree)
    requires m.Keys == Addrs(t) && e.newMeta == {} && e.adjustOn == None && e.excisedMeta == None
    requires e.set1 == Write(RootLoc, Null) && e.excisedSubtree == PtrOf(gone)
    requires Shape(m', gone, Null, -1) && WF(gone, []) && Distinct(gone) && Addrs(gone) == Addrs(t) && Meta(gone)
    ensures Achieves(m, m', t, e, Empty, gone, TOP)
  {}

  /** Deleting the last leaf takes the whole tree away. */
  lemma {:induction false} LastScripted(m: Memory, t: Tree, n: Tree, d: Ctx, x: Leaf, i: int, u: Tree, e: Script)
    returns (gone: Tree)
    requires Deletable(m, t, n, d, x, i, u)
    requires e == DELETION.(deadLeaf := Some(x), set0 := Write(SlotLoc(n.addr, i), Null), set1 := Write(RootLoc, Null), excisedSubtree := PtrOf(t))
    ensures Scripted(m, t, e, Empty, gone, TOP)
  {
    DeletableFacts(m, t, n, d, x, i, u);
    TwoWritten(m, e);
    gone := ClearedSubtree(m, Put(m, e.set0), t, TOP, n, d, i, u);
    CutOff(m, Put(m, e.set0), t, e, gone);
  }

  lemma {:induction false} TwoWritten(m: Memory, e: Script)
    requires e.leaf == NO_WRITE && e.slotOf == None && e.rebacked == []
    ensures Written(m, e) == Put(Put(m, e.set0), e.set1)
  {}

  lemma {:induction false} LastRemoves(m: Memory, t: Tree, n: Tree, d: Ctx, x: Leaf, i: int, u: Tree)
    requires Deletable(m, t, n, d, x, i, u) && |Leaves(t)| == 1
    ensures DeleteStep(t, x.key, Empty)
  {
    DeletableFound(m, t, n, d, x, i, u);
    RemovesStep(t, n, d, x, Empty);
  }

  // ------------------------------------------------- the collapse script

  /** The script that hangs node `a` in the place of the subtree at `pa`, from which slot `i` of `na` is cleared. */
  function Collapsing(hook: Loc, pa: Addr, na: Addr, i: int, x: Leaf, a: Addr): Script {
    DELETION.(deadLeaf := Some(x), set0 := Write(SlotLoc(na, i), Null), set1 := Write(hook, NodePtr(a)),
              adjustOn := Some(a), newMeta := {a}, excisedSubtree := NodePtr(pa))
  }

  ghost predicate CollapseScript(x: Leaf, n: Tree, i: int, p: Tree, e: Ctx, u: Tree, s: Script) {
    && n.Node? && p.Node? && u.Node?
    && s == Collapsing(ParentLoc(e), p.addr, n.addr, i, x, u.addr)
  }

  /** The new node, holding what survives of the subtree `p`. */
  ghost predicate Compacted(m0: Memory, m: Memory, p: Tree, e: Ctx, x: Leaf, u: Tree) {
    && p.Node? && p.addr in m0 && Packed(u, Leaves(p) - multiset{x}) && AddrsOf(u.slots) == {} && Distinct(u) && u.addr !in m0
    && m == m0[u.addr := NodeCell(e.back, m0[p.addr].parentSlot, Ptrs(u.slots), |Leaves(p)|)]
    && (e.slot >= 0 ==> m0[p.addr].parentSlot == e.slot)
  }

  lemma {:induction false} PackedSize(p: Tree, x: Leaf, u: Tree)
    requires Packed(u, Leaves(p) - multiset{x}) && x in Leaves(p)
    ensures |Leaves(u)| == |Leaves(p)| - 1
  {
    PackedLeaves(u, Leaves(p) - multiset{x});
  }

  lemma {:induction false} CompactedLies(m0: Memory, m: Memory, m': Memory, p: Tree, e: Ctx, x: Leaf, u: Tree)
    requires Compacted(m0, m, p, e, x, u) && u.addr in m' && m'[u.addr] == m[u.addr] && x in Leaves(p)
    ensures Shape(m', u, e.back, e.slot) && Counts(m', u, PathSet(u, u.addr), -1)
  {
    PackedSize(p, x, u);
    assert Path(u, u.addr) == [u.addr];
  }

  lemma {:induction false} CompactedFresh(m0: Memory, m: Memory, t: Tree, p: Tree, e: Ctx, x: Leaf, u: Tree)
    requires Compacted(m0, m, p, e, x, u) && m0.Keys == Addrs(t)
    ensures u.Node? && Addrs(u) == {u.addr} && Fresh(t, p, u) && Extends(m0, m, {u.addr})
    ensures u.addr !in Addrs(t) && m.Keys == Addrs(t) + {u.addr}
  {}

  lemma {:induction false} ReadyNow(m: Memory, m': Memory, t: Tree, p: Tree, e: Ctx, u: Tree, a: Addr)
    requires Located(t, TOP, p, e) && Distinct(t) && Meta(p) && Fresh(t, p, u) && Shape(m, t, Null, -1)
    requires a in Addrs(p) && Only(m, m', {a}) && Shape(m', u, e.back, e.slot)
    ensures Ready(m, m', t, p, e, u)
  {}

  lemma {:induction false} CollapseReady(m0: Memory, m: Memory, m': Memory, t: Tree, p: Tree, e: Ctx, x: Leaf, u: Tree,
                                         a: Addr)
    requires HoldsTree(m0, t) && t != Empty && m0.Keys == Addrs(t) && Located(t, TOP, p, e) && Compacted(m0, m, p, e, x, u)
    requires x in Leaves(p) && a in Addrs(p) && Addrs(p) <= Addrs(t) && Only(m, m', {a})
    ensures Ready(m, m', t, p, e, u) && Counts(m, t, {}, 0) && Counts(m', u, PathSet(u, u.addr), -1)
  {
    CompactedFresh(m0, m, t, p, e, x, u);
    ExtendsHolds(m0, m, t, {u.addr});
    CompactedLies(m0, m, m', p, e, x, u);
    ReadyNow(m, m', t, p, e, u, a);
  }

  lemma {:induction false} CollapseAddrs(t: Tree, p: Tree, e: Ctx, u: Tree, t': Tree)
    requires Distinct(t) && Located(t, TOP, p, e) && p.Node? && u.Node? && Distinct(u) && AddrsOf(u.slots) == {} && u.addr !in Addrs(t)
    requires t' == Subst(t, p.addr, u) && |Leaves(u)| == |Leaves(p)| - 1
    ensures Distinct(t') && u.addr in Addrs(t') && Addrs(t') <= Addrs(t) + {u.addr} && Addrs(t) + {u.addr} - Addrs(t') == Addrs(p)
    ensures |Leaves(t')| == |Leaves(t)| - 1 && t' != Empty
  {
    LocatedAddrs(t, TOP, p, e);
    assert Distinct(t') && Addrs(t') == Addrs(t) - Addrs(p) + Addrs(u) by { SubstAddrs(t, TOP, p, e, u); }
    assert Addrs(u) == {u.addr};
    SwapAddr(Addrs(t), Addrs(p), u.addr, Addrs(t'));
    assert |Leaves(t')| == |Leaves(t)| - 1 by { SubstSize(t, p, e, u, -1); }
    assert t' != Empty by { SubstMeta(t, p.addr, u); }
  }

  lemma {:induction false} SwapAddr(s: set<Addr>, gone: set<Addr>, a: Addr, r: set<Addr>)
    requires gone <= s && a !in s && r == s - gone + {a}
    ensures a in r && r <= s + {a} && s + {a} - r == gone
  {}

  lemma {:induction false} CollapseAchieves(m: Memory, m': Memory, t: Tree, p: Tree, e: Ctx, u: Tree, s: Script,
                                            t': Tree, gone: Tree)
    requires u.Node? && p.Node?
    requires Shape(m', t', Null, -1) && WrittenRoot(PtrOf(t), s) == PtrOf(t') && Counts(m', t', PathSet(t', u.addr), -1)
    requires IsNodeCell(m', u.addr)
    requires s.adjustOn == Some(u.addr) && s.adjustBy == -1 && s.newMeta == {u.addr}
    requires s.excisedMeta == None && s.excisedSubtree == NodePtr(p.addr)
    requires u.addr !in Addrs(t) && m.Keys == Addrs(t) + {u.addr} && u.addr in Addrs(t') && t' != Empty
    requires Distinct(t') && Addrs(t') <= Addrs(t) + {u.addr}
    requires Addrs(t) + {u.addr} - Addrs(t') == Addrs(p) && |Leaves(t')| == |Leaves(t)| - 1
    requires Shape(m', gone, e.back, e.slot) && WF(gone, e.pre) && Distinct(gone)
    requires Addrs(gone) == Addrs(p) && Meta(gone) && PtrOf(gone) == PtrOf(p)
    ensures Achieves(m, m', t, s, t', gone, e)
  {}

  /** Linking the new node does not touch the subtree that is cut off. */
  lemma {:induction false} CutOffKept(m: Memory, t: Tree, p: Tree, e: Ctx, gone: Tree, q: Ptr)
    requires Located(t, TOP, p, e) && Distinct(t) && Meta(p) && Addrs(gone) == Addrs(p) && Shape(m, gone, e.back, e.slot)
    ensures Shape(Put(m, Write(ParentLoc(e), q)), gone, e.back, e.slot)
  {
    BackOutside(t, TOP, p, e);
    ShapeFrame(m, Put(m, Write(ParentLoc(e), q)), gone, e.back, e.slot);
  }

  lemma {:induction false} CollapseHolds(m0: Memory, m: Memory, m': Memory, t: Tree, p: Tree, e: Ctx, x: Leaf, u: Tree,
                                         a: Addr)
    requires HoldsTree(m0, t) && t != Empty && m0.Keys == Addrs(t) && Located(t, TOP, p, e) && Compacted(m0, m, p, e, x, u)
    requires x in Leaves(p) && a in Addrs(p) && Addrs(p) <= Addrs(t) && Only(m, m', {a})
    ensures var t', w := Subst(t, p.addr, u), Write(ParentLoc(e), NodePtr(u.addr));
            && Shape(Put(m', w), t', Null, -1) && PutRoot(PtrOf(t), w) == PtrOf(t') && Counts(Put(m', w), t', PathSet(t', u.addr), -1)
  {
    PackedSize(p, x, u);
    CollapseReady(m0, m, m', t, p, e, x, u, a);
    CommitShape(m, m', t, p, e, u);
    CommitCounts(m, m', t, p, e, u, u.addr, -1);
  }

  lemma {:induction false} CollapseScripted(m0: Memory, m: Memory, m': Memory, t: Tree, p: Tree, e: Ctx, n: Tree,
                                            i: int, x: Leaf, u: Tree, s: Script, gone: Tree, t': Tree)
    requires HoldsTree(m0, t) && t != Empty && m0.Keys == Addrs(t) && Located(t, TOP, p, e)
    requires Compacted(m0, m, p, e, x, u) && Addrs(p) <= Addrs(t)
    requires x in Leaves(p) && n.Node? && n.addr in Addrs(p) && CollapseScript(x, n, i, p, e, u, s)
    requires m' == Put(m, s.set0) && Only(m, m', {n.addr}) && IsNodeCell(m', u.addr)
    requires Shape(m', gone, e.back, e.slot) && WF(gone, e.pre) && Distinct(gone)
    requires Addrs(gone) == Addrs(p) && Meta(gone) && PtrOf(gone) == PtrOf(p)
    requires t' == Subst(t, p.addr, u)
    ensures Scripted(m, t, s, t', gone, e)
  {
    PackedSize(p, x, u);
    CompactedFresh(m0, m, t, p, e, x, u);
    CollapseHolds(m0, m, m', t, p, e, x, u, n.addr);
    CollapseAddrs(t, p, e, u, t');
    CutOffKept(m', t, p, e, gone, NodePtr(u.addr));
    PutKeepsNode(m', s.set1, u.addr);
    TwoWritten(m, s);
    CollapseAchieves(m, Put(m', s.set1), t, p, e, u, s, t', gone);
  }

  // --------------------------------------------------------- the methods

  /** The leaf `x` can be deleted by collapsing the subtree `p` around it. */
  ghost predicate CollapseCase(m: Memory, t: Tree, n: Tree, d: Ctx, x: Leaf, i: int, u: Tree, p: Tree, e: Ctx) {
    && Deletable(m, t, n, d, x, i, u) && Collapsible(t, x.key, n, d, p, e) && FirstSmall(t, TOP, x.key) == At(p, e)
    && |Leaves(t)| > 1 && (p != n || HasMeta(n))
  }

  lemma {:induction false} CollapsiblePlace(m: Memory, t: Tree, n: Tree, d: Ctx, x: Leaf, i: int, u: Tree, p: Tree,
                                            e: Ctx)
    requires CollapseCase(m, t, n, d, x, i, u, p, e)
    ensures p.Node? && Located(t, TOP, p, e) && Located(p, e, n, d) && WF(p, e.pre)
    ensures Distinct(p) && Addrs(p) <= Addrs(t) && n.addr in Addrs(p)
  {
    PassesLocated(t, TOP, x.key, p, e);
    PassesLocated(p, e, x.key, n, d);
    LocatedWF(t, TOP, p, e);
    LocatedDistinct(t, TOP, p, e);
    LocatedAddrs(t, TOP, p, e);
    LocatedAddrs(p, e, n, d);
  }

  /** The subtree `p` lies in memory with its true leaf count, below something outside it. */
  ghost predicate Rooted(m: Memory, p: Tree, e: Ctx) {
    && p.Node? && p.addr in m && m[p.addr].NodeCell? && WF(p, e.pre) && Distinct(p)
    && Shape(m, p, e.back, e.slot) && m[p.addr].nr == |Leaves(p)| && ParentOf(m[p.addr]) == ParentLoc(e)
    && (e.back == Null || (IsMeta(e.back) && e.back.addr !in Addrs(p)))
  }

  lemma {:induction false} CollapsibleRooted(m: Memory, t: Tree, n: Tree, d: Ctx, x: Leaf, i: int, u: Tree, p: Tree,
                                             e: Ctx)
    requires CollapseCase(m, t, n, d, x, i, u, p, e)
    ensures Rooted(m, p, e)
  {
    CollapsiblePlace(m, t, n, d, x, i, u, p, e);
    PassesRooted(m, t, x.key, p, e);
  }

  lemma {:induction false} PassesRooted(m: Memory, t: Tree, k: Key, p: Tree, e: Ctx)
    requires Passes(t, TOP, k, p, e) && p.Node? && Shape(m, t, Null, -1) && Counts(m, t, {}, 0) && Distinct(t) && Located(t, TOP, p, e)
    requires WF(p, e.pre) && Distinct(p)
    ensures Rooted(m, p, e)
  {
    PassesCounts(m, t, k, p, e);
    BackOutside(t, TOP, p, e);
  }

  lemma {:induction false} OnceInside(m: Memory, t: Tree, n: Tree, d: Ctx, x: Leaf, i: int, u: Tree, p: Tree, e: Ctx)
    requires CollapseCase(m, t, n, d, x, i, u, p, e) && WF(p, e.pre) && p.Node?
    ensures x in Leaves(p) && Leaves(p)[x] == 1
  {
    DeletableFound(m, t, n, d, x, i, u);
    FirstSmallHolds(t, TOP, x);
    LeavesUnique(p, e.pre);
  }

  lemma {:induction false} CollapseNeeds(m: Memory, t: Tree, n: Tree, d: Ctx, x: Leaf, i: int, u: Tree, p: Tree, e: Ctx)
    requires CollapseCase(m, t, n, d, x, i, u, p, e)
    ensures Rooted(m, p, e) && |Leaves(p)| <= 17 && Leaves(p)[x] == 1
  {
    CollapsibleRooted(m, t, n, d, x, i, u, p, e);
    OnceInside(m, t, n, d, x, i, u, p, e);
  }

  lemma {:induction false} CollapseRemoves(m0: Memory, m: Memory, t: Tree, n: Tree, d: Ctx, x: Leaf, i: int, cl: Tree,
                                           p: Tree, e: Ctx, u: Tree)
    requires CollapseCase(m0, t, n, d, x, i, cl, p, e) && Compacted(m0, m, p, e, x, u)
    ensures DeleteStep(t, x.key, Subst(t, p.addr, u))
  {
    DeletableFound(m0, t, n, d, x, i, cl);
    CompactedFresh(m0, m, t, p, e, x, u);
    assert Removes(t, x, n, d, Subst(t, p.addr, u));
    RemovesStep(t, n, d, x, Subst(t, p.addr, u));
  }

  /** The leaves of the subtree other than `x`, in the slots of one node. */
  method Survivors(m: Memory, pa: Addr, x: Leaf, ghost p: Tree, ghost e: Ctx) returns (slots: seq<Ptr>)
    requires Rooted(m, p, e) && p.addr == pa && |Leaves(p)| <= 17 && Leaves(p)[x] == 1
    ensures |slots| == 16 && (forall j :: 0 <= j < 16 ==> !IsMeta(slots[j])) && Items(slots) == Leaves(p) - multiset{x}
  {
    var ret, visited := SubtreeIterate(m, NodePtr(pa), m[pa].back, _ => 0, p, e);
    VisitsLeaves(p, e.pre);
    assert |multiset(visited)| == |visited|;
    slots := Compact(visited, x, m[pa].nr);
  }

  lemma {:induction false} Compacts(m0: Memory, m: Memory, p: Tree, e: Ctx, x: Leaf, a: Addr, slots: seq<Ptr>)
    returns (u: Tree)
    requires p.Node? && p.addr in m0 && a !in m0 && Shape(m0, p, e.back, e.slot)
    requires |slots| == 16 && (forall j :: 0 <= j < 16 ==> !IsMeta(slots[j])) && Items(slots) == Leaves(p) - multiset{x}
    requires m == m0[a := NodeCell(m0[p.addr].back, m0[p.addr].parentSlot, slots, |Leaves(p)|)]
    ensures Compacted(m0, m, p, e, x, u) && u.addr == a
  {
    u := LiftPacked(a, slots, Leaves(p) - multiset{x});
  }

  lemma {:induction false} CollapseDone(m0: Memory, m: Memory, t: Tree, n: Tree, d: Ctx, x: Leaf, i: int, cl: Tree,
                                        p: Tree, e: Ctx, u: Tree, s: Script)
    returns (t': Tree, gone: Tree)
    requires CollapseCase(m0, t, n, d, x, i, cl, p, e) && Compacted(m0, m, p, e, x, u) && CollapseScript(x, n, i, p, e, u, s)
    ensures DeleteStep(t, x.key, t') && Scripted(m, t, s, t', gone, e)
  {
    CollapsiblePlace(m0, t, n, d, x, i, cl, p, e);
    CollapsibleRooted(m0, t, n, d, x, i, cl, p, e);
    OnceInside(m0, t, n, d, x, i, cl, p, e);
    DeletableFacts(m0, t, n, d, x, i, cl);
    t' := Subst(t, p.addr, u);
    CompactedFresh(m0, m, t, p, e, x, u);
    gone := CollapseGone(m0, m, Put(m, s.set0), n, d, i, cl, p, e, u.addr);
    SlotOnly(m, n.addr, i, Null);
    PutKeepsNode(m, s.set0, u.addr);
    CollapseScripted(m0, m, Put(m, s.set0), t, p, e, n, i, x, u, s, gone, t');
    CollapseRemoves(m0, m, t, n, d, x, i, cl, p, e, u);
  }

  lemma {:induction false} SlotOnly(m: Memory, a: Addr, i: int, q: Ptr)
    ensures Only(m, Put(m, Write(SlotLoc(a, i), q)), {a})
  {}

  lemma {:induction false} CollapseGone(m0: Memory, m: Memory, m': Memory, n: Tree, d: Ctx, i: int, cl: Tree, p: Tree,
                                        e: Ctx, a: Addr)
    returns (gone: Tree)
    requires Located(p, e, n, d) && Distinct(p) && Distinct(n) && WF(p, e.pre) && WF(cl, d.pre) && Shape(m0, p, e.back, e.slot)
    requires Rewrites(n, i, Empty, cl) && m' == Put(m, Write(SlotLoc(n.addr, i), Null)) && Extends(m0, m, {a}) && a !in m0
    ensures Shape(m', gone, e.back, e.slot) && WF(gone, e.pre) && Distinct(gone)
    ensures Addrs(gone) == Addrs(p) && Meta(gone) && PtrOf(gone) == PtrOf(p)
  {
    ShapeFrame(m0, m, p, e.back, e.slot);
    gone := ClearedSubtree(m, m', p, e, n, d, i, cl);
  }

  ghost predicate Deletes(m: Memory, t: Tree, k: Key, s: Script, t': Tree, gone: Tree, at: Ctx) {
    DeleteStep(t, k, t') && Scripted(m, t, s, t', gone, at)
  }

  /** The same for leaf `x`, which the script names as the one that dies. */
  ghost predicate Deleted(m: Memory, t: Tree, x: Leaf, s: Script, t': Tree, gone: Tree, at: Ctx) {
    Deletes(m, t, x.key, s, t', gone, at) && s.deadLeaf == Some(x) && !s.ops
  }

  /** `m` has the cells of `m0` and those newly allocated. */
  ghost predicate Adds(m0: Memory, m: Memory, added: set<Addr>) {
    Extends(m0, m, added) && added !! m0.Keys
  }

  /** A new node with the surviving leaves and the writes that put it in the place of the subtree. */
  ghost predicate NewNode(m0: Memory, m: Memory, p: Tree, e: Ctx, na: Addr, i: int, x: Leaf, a: Addr, slots: seq<Ptr>,
                          s: Script) {
    && p.Node? && p.addr in m0 && m0[p.addr].NodeCell? && a !in m0
    && m == m0[a := NodeCell(m0[p.addr].back, m0[p.addr].parentSlot, slots, m0[p.addr].nr)]
    && |slots| == 16 && (forall j :: 0 <= j < 16 ==> !IsMeta(slots[j])) && Items(slots) == Leaves(p) - multiset{x}
    && s == Collapsing(ParentLoc(e), p.addr, na, i, x, a)
  }

  method BuildCollapse(m0: Memory, pa: Addr, na: Addr, i: int, x: Leaf, room: nat, ghost p: Tree, ghost e: Ctx)
    returns (a: Option<Addr>, m: Memory, s: Script, ghost slots: seq<Ptr>)
    requires Rooted(m0, p, e) && p.addr == pa && |Leaves(p)| <= 17 && Leaves(p)[x] == 1
    ensures (a.Some? <==> room >= 1) && Adds(m0, m, s.newMeta)
    ensures a.Some? ==> NewNode(m0, m, p, e, na, i, x, a.value, slots, s)
  {
    m, s, slots := m0, DELETION, [];
    a := Allocate(m0, room);
    if a.None? { return; }
    var cell := m0[pa];
    var kept := Survivors(m0, pa, x, p, e);
    slots := kept;
    m := m0[a.value := NodeCell(cell.back, cell.parentSlot, kept, cell.nr)];
    s := Collapsing(ParentOf(cell), pa, na, i, x, a.value);
  }

  /** Scripts the collapse of the subtree at `pa` into a new node. */
  method CollapseNode(m0: Memory, pa: Addr, na: Addr, i: int, x: Leaf, room: nat,
                      ghost t: Tree, ghost n: Tree, ghost d: Ctx, ghost cl: Tree, ghost p: Tree, ghost e: Ctx)
    returns (ok: bool, m: Memory, s: Script, ghost t': Tree, ghost gone: Tree)
    requires CollapseCase(m0, t, n, d, x, i, cl, p, e) && p.addr == pa && n.addr == na
    ensures Adds(m0, m, s.newMeta) && (ok <==> room >= 1)
    ensures ok ==> Deleted(m, t, x, s, t', gone, e)
  {
    CollapseNeeds(m0, t, n, d, x, i, cl, p, e);
    var a;
    ghost var slots;
    a, m, s, slots := BuildCollapse(m0, pa, na, i, x, room, p, e);
    ok, t', gone := a.Some?, t, Empty;
    if ok {
      t', gone := CollapseBuilt(m0, m, t, n, d, x, i, cl, p, e, a.value, slots, s);
    }
  }

  lemma {:induction false} CollapseBuilt(m0: Memory, m: Memory, t: Tree, n: Tree, d: Ctx, x: Leaf, i: int, cl: Tree,
                                         p: Tree, e: Ctx, a: Addr, slots: seq<Ptr>, s: Script)
    returns (t': Tree, gone: Tree)
    requires CollapseCase(m0, t, n, d, x, i, cl, p, e) && NewNode(m0, m, p, e, n.addr, i, x, a, slots, s)
    ensures Deleted(m, t, x, s, t', gone, e)
  {
    assert Rooted(m0, p, e) by { CollapsibleRooted(m0, t, n, d, x, i, cl, p, e); }
    var u := Compacts(m0, m, p, e, x, a, slots);
    t', gone := CollapseDone(m0, m, t, n, d, x, i, cl, p, e, u, s);
  }

  method HoldsMeta(ps: seq<Ptr>) returns (hasMeta: bool)
    ensures hasMeta <==> exists i :: 0 <= i < |ps| && IsMeta(ps[i])
  {
    var i := 0;
    while i < |ps|
      invariant 0 <= i <= |ps| && forall j :: 0 <= j < i ==> !IsMeta(ps[j])
    {
      if IsMeta(ps[i]) { return true; }
      i := i + 1;
    }
    return false;
  }

  lemma {:induction false} MetaSlots(n: Tree)
    requires n.Node?
    ensures HasMeta(n) <==> exists i :: 0 <= i < |n.slots| && IsMeta(Ptrs(n.slots)[i])
  {
    if HasMeta(n) {
      var i :| 0 <= i < |n.slots| && Meta(n.slots[i]);
      assert IsMeta(Ptrs(n.slots)[i]);
    }
  }

  /** Equal addresses on one way mean the same node. */
  lemma {:induction false} SameNode(t: Tree, k: Key, n: Tree, d: Ctx, p: Tree, e: Ctx)
    requires Distinct(t) && Collapsible(t, k, n, d, p, e) && n.Node? && p.addr == n.addr
    ensures p == n
  {
    PassesLocated(t, TOP, k, p, e);
    LocatedDistinct(t, TOP, p, e);
    if p != n {
      var i := k[|e.pre|];
      PassesLocated(p.slots[i], Below(p, e, i), k, n, d);
      LocatedAddrs(p.slots[i], Below(p, e, i), n, d);
      assert false;
    }
  }

  /** Where to collapse, if anywhere: the topmost small node around the leaf. */
  method FindCollapse(m: Memory, na: Addr, ghost t: Tree, ghost k: Key, ghost n: Tree, ghost d: Ctx)
    returns (pa: Option<Addr>, ghost p: Tree, ghost e: Ctx)
    requires Terminal(m, t, n, d, k) && n.Node? && n.addr == na
    ensures pa.None? ==> var f := FirstSmall(t, TOP, k); f.At? ==> f.tree == n && !HasMeta(n)
    ensures pa.Some? ==> Collapsible(t, k, n, d, p, e) && p.addr == pa.value && FirstSmall(t, TOP, k) == At(p, e) && (p != n || HasMeta(n))
  {
    p, e := n, d;
    assert Passes(t, TOP, k, n, d) by { WalkPasses(t, TOP, k); }
    PassesCounts(m, t, k, n, d);
    if m[na].nr > 17 {
      NoneSmall(t, TOP, k);
      return None, p, e;
    }
    var hasMeta := HoldsMeta(m[na].slots);
    MetaSlots(n);
    var parent;
    parent, p, e := CollapseUp(m, na, t, k, n, d);
    if hasMeta || parent != na { return Some(parent), p, e; }
    SameNode(t, k, n, d, p, e);
    pa := None;
  }

  lemma {:induction false} LastDone(m: Memory, t: Tree, n: Tree, d: Ctx, x: Leaf, i: int, u: Tree, e: Script)
    returns (gone: Tree)
    requires Deletable(m, t, n, d, x, i, u) && |Leaves(t)| == 1
    requires e == DELETION.(deadLeaf := Some(x), set0 := Write(SlotLoc(n.addr, i), Null), set1 := Write(RootLoc, Null), excisedSubtree := PtrOf(t))
    ensures Deleted(m, t, x, e, Empty, gone, TOP)
  {
    gone := LastScripted(m, t, n, d, x, i, u, e);
    LastRemoves(m, t, n, d, x, i, u);
  }

  lemma {:induction false} ClearDone(m: Memory, t: Tree, n: Tree, d: Ctx, x: Leaf, i: int, u: Tree, e: Script)
    requires Deletable(m, t, n, d, x, i, u) && |Leaves(t)| > 1
    requires var f := FirstSmall(t, TOP, x.key); f.At? ==> f.tree == n && !HasMeta(n)
    requires e == DELETION.(deadLeaf := Some(x), set0 := Write(SlotLoc(n.addr, i), Null), adjustOn := Some(n.addr))
    ensures Deleted(m, t, x, e, Subst(t, n.addr, u), Empty, TOP)
  {
    ClearScripted(m, t, n, d, x, i, u, e);
    ClearRemoves(m, t, n, d, x, i, u);
  }

  lemma {:induction false} DeletableSize(m: Memory, t: Tree, n: Tree, d: Ctx, x: Leaf, i: int, u: Tree)
    requires Deletable(m, t, n, d, x, i, u)
    ensures |Leaves(t)| > 0
  {}

  /** How many new cells the deletion of a key found in node `n` takes. */
  ghost function CollapseNeed(t: Tree, n: Tree, k: Key): nat {
    if |Leaves(t)| == 1 then 0
    else
      match FirstSmall(t, TOP, k)
      case At(p, _) => if p == n && !HasMeta(n) then 0 else 1
      case Nowhere => 0
  }

  /** Scripts the deletion of a leaf that was found in slot `i` of the node at `na`. */
  method DeleteFound(m0: Memory, root: Ptr, nr: int, na: Addr, i: int, x: Leaf, room: nat,
                     ghost t: Tree, ghost n: Tree, ghost d: Ctx, ghost u: Tree)
    returns (ok: bool, m: Memory, s: Script, ghost t': Tree, ghost gone: Tree, ghost at: Ctx)
    requires Deletable(m0, t, n, d, x, i, u) && n.addr == na && root == PtrOf(t) && nr == |Leaves(t)|
    ensures Adds(m0, m, s.newMeta) && (ok <==> room >= CollapseNeed(t, n, x.key))
    ensures ok ==> Deleted(m, t, x, s, t', gone, at)
  {
    DeletableSize(m0, t, n, d, x, i, u);
    if nr == 1 {
      ok, m, t', at := true, m0, Empty, TOP;
      s := DELETION.(deadLeaf := Some(x), set0 := Write(SlotLoc(na, i), Null), set1 := Write(RootLoc, Null), excisedSubtree := root);
      gone := LastDone(m0, t, n, d, x, i, u, s);
    } else {
      ok, m, s, t', gone, at := DeleteAmong(m0, na, i, x, room, t, n, d, u);
    }
  }

  /** A leaf that is not the only one. */
  method DeleteAmong(m0: Memory, na: Addr, i: int, x: Leaf, room: nat, ghost t: Tree, ghost n: Tree, ghost d: Ctx,
                     ghost u: Tree)
    returns (ok: bool, m: Memory, s: Script, ghost t': Tree, ghost gone: Tree, ghost at: Ctx)
    requires Deletable(m0, t, n, d, x, i, u) && n.addr == na && |Leaves(t)| > 1
    ensures Adds(m0, m, s.newMeta) && (ok <==> room >= CollapseNeed(t, n, x.key))
    ensures ok ==> Deleted(m, t, x, s, t', gone, at)
  {
    var pa;
    ghost var p;
    pa, p, at := FindCollapse(m0, na, t, x.key, n, d);
    if pa.Some? {
      ok, m, s, t', gone := CollapseNode(m0, pa.value, na, i, x, room, t, n, d, u, p, at);
    } else {
      ok, m, at, t', gone := true, m0, TOP, Subst(t, n.addr, u), Empty;
      s := DELETION.(deadLeaf := Some(x), set0 := Write(SlotLoc(na, i), Null), adjustOn := Some(na));
      ClearDone(m0, t, n, d, x, i, u, s);
    }
  }

  datatype Verdict = NotFound | NoMemory | Edited

  lemma {:induction false} NotFoundHere(m: Memory, t: Tree, n: Tree, d: Ctx, k: Key)
    requires Terminal(m, t, n, d, k) && n.Node? && forall i :: 0 <= i < |n.slots| && Ptrs(n.slots)[i].LeafPtr? ==> Ptrs(n.slots)[i].leaf.key != k
    ensures Find(t, k) == Absent
  {
    assert forall i :: 0 <= i < |n.slots| && n.slots[i].Item? ==> Ptrs(n.slots)[i].LeafPtr?;
    AbsentLacks(n, k);
    FindHere(m, t, n, d, k, -1);
  }

  lemma {:induction false} DeletableAt(m: Memory, t: Tree, n: Tree, d: Ctx, x: Leaf, i: int)
    returns (u: Tree)
    requires Terminal(m, t, n, d, x.key) && n.Node? && 0 <= i < |n.slots| && Ptrs(n.slots)[i] == LeafPtr(x)
    ensures Deletable(m, t, n, d, x, i, u) && Find(t, x.key) == Found(x.obj)
  {
    u := Node(n.addr, n.slots[i := Empty]);
    DeletableFound(m, t, n, d, x, i, u);
  }

  /** Searches the terminal node for the key and scripts the deletion of what is found. */
  method DeleteHere(m0: Memory, root: Ptr, nr: int, na: Addr, k: Key, room: nat, ghost t: Tree, ghost n: Tree,
                    ghost d: Ctx)
    returns (r: Verdict, m: Memory, s: Script, ghost t': Tree, ghost gone: Tree, ghost at: Ctx)
    requires Terminal(m0, t, n, d, k) && n.Node? && n.addr == na && root == PtrOf(t) && nr == |Leaves(t)|
    ensures Extends(m0, m, s.newMeta) && s.newMeta !! m0.Keys && (r == NotFound <==> Find(t, k) == Absent)
    ensures r != NotFound ==> (r == Edited <==> room >= CollapseNeed(t, n, k))
    ensures r == NotFound ==> m == m0 && s.newMeta == {}
    ensures r == Edited ==> Deletes(m, t, k, s, t', gone, at) && Retires(t, k, s)
  {
    r, m, s, t', gone, at := NotFound, m0, DELETION, t, Empty, TOP;
    assert na in m0 && m0[na].NodeCell? && m0[na].slots == Ptrs(n.slots) by { TerminalFacts(m0, t, n, d, k); }
    var found, free := ScanSlots(m0[na].slots, k);
    if found < 0 {
      NotFoundHere(m0, t, n, d, k);
      return;
    }
    var x := m0[na].slots[found].leaf;
    ghost var u := DeletableAt(m0, t, n, d, x, found);
    var ok;
    ok, m, s, t', gone, at := DeleteFound(m0, root, nr, na, found, x, room, t, n, d, u);
    r := if ok then Edited else NoMemory;
  }

  /** How many new cells the deletion of a key takes. */
  ghost function DeleteNeed(t: Tree, k: Key): nat {
    match Walk(t, TOP, k)
    case TerminalNode(n, _) => CollapseNeed(t, n, k)
    case _ => 0
  }

  /** Scripts the deletion of a key; without memory only own cells are left behind. */
  method ScriptDelete(m0: Memory, root: Ptr, nr: int, k: Key, room: nat, ghost t: Tree)
    returns (r: Verdict, m: Memory, s: Script, ghost t': Tree, ghost gone: Tree, ghost at: Ctx)
    requires HoldsTree(m0, t) && root == PtrOf(t) && m0.Keys == Addrs(t) && nr == |Leaves(t)|
    ensures Extends(m0, m, s.newMeta) && s.newMeta !! m0.Keys && (r == NotFound <==> Find(t, k) == Absent)
    ensures r != NotFound ==> (r == Edited <==> room >= DeleteNeed(t, k))
    ensures r == NotFound ==> m == m0 && s.newMeta == {}
    ensures r == Edited ==> Deletes(m, t, k, s, t', gone, at) && Retires(t, k, s)
  {
    var w := WalkCells(m0, root, k, t);
    if w.AtNode? {
      r, m, s, t', gone, at := DeleteHere(m0, root, nr, w.addr, k, room, t, Walk(t, TOP, k).node, Walk(t, TOP, k).at);
    } else {
      r, m, s, t', gone, at := NotFound, m0, DELETION, t, Empty, TOP;
    }
  }
}
