/**
 The stackless traversals.  They keep no stack: they climb by back pointers and
 parent slots.  Against the tree in memory they do what the recursive traversals
 do, leaf by leaf and free by free.
 */
module AssocTraverse {
  import opened AssocTree
  import opened AssocPlace
  import opened AssocWalk
  import opened AssocMemory

  /** The node behind a metadata pointer. */
  function NodeOf(t: Tree): Tree {
    if t.Shortcut? then t.next else t
  }

  // ------------------------------------------------ the recursive traversal

  ghost function Own(ps: seq<Ptr>): seq<Leaf> {
    if ps == [] then [] else (if ps[0].LeafPtr? then [ps[0].leaf] else []) + Own(ps[1..])
  }

  /** Leaves of a node first, then its branches in slot order. */
  ghost function Visits(t: Tree): seq<Leaf>
    decreases t, 1
  {
    match t
    case Node(_, slots) => Own(Ptrs(slots)) + Branches(slots)
    case Shortcut(_, _, next) => Visits(next)
    case _ => []
  }

  ghost function Branches(ts: seq<Tree>): seq<Leaf>
    decreases ts, 0
  {
    if ts == [] then [] else Visits(ts[0]) + Branches(ts[1..])
  }

  lemma {:induction false} OwnItems(ps: seq<Ptr>)
    ensures multiset(Own(ps)) == Items(ps)
  {
    if ps != [] {
      OwnItems(ps[1..]);
      assert multiset(Own(ps)) == ItemOf(ps[0]) + multiset(Own(ps[1..]));
    }
  }

  /** The recursive traversal visits every leaf exactly once. */
  lemma {:induction false} VisitsLeaves(t: Tree, pre: seq<Nibble>)
    requires WF(t, pre)
    ensures multiset(Visits(t)) == Leaves(t)
    decreases t, 1
  {
    match t
    case Node(_, slots) =>
      OwnItems(Ptrs(slots));
      forall i | 0 <= i < 16 && Meta(slots[i]) ensures multiset(Visits(slots[i])) == Leaves(slots[i]) {
        VisitsLeaves(slots[i], pre + [i]);
      }
      BranchesLeaves(slots);
      assert multiset(Visits(t)) == multiset(Own(Ptrs(slots))) + multiset(Branches(slots));
    case Shortcut(_, p, next) => VisitsLeaves(next, p);
  }

  lemma {:induction false} BranchesLeaves(ts: seq<Tree>)
    requires forall i :: 0 <= i < |ts| && Meta(ts[i]) ==> multiset(Visits(ts[i])) == Leaves(ts[i])
    ensures multiset(Branches(ts)) == BranchLeaves(ts)
  {
    if ts != [] {
      BranchesLeaves(ts[1..]);
      assert multiset(Branches(ts)) == multiset(Visits(ts[0])) + multiset(Branches(ts[1..]));
    }
  }

  // -------------------------------------------------------- the way back up

  /** A node being traversed, where it sits, and the slot whose branch is being visited. */
  datatype Frame = Frame(node: Tree, ctx: Ctx, slot: Nibble)

  /** `cur`, with surroundings `d`, is the node that the subtree `c` leads to. */
  ghost predicate Leads(c: Tree, e: Ctx, cur: Tree, d: Ctx) {
    (c == cur && e == d) || (c.Shortcut? && c.next == cur && d == Behind(c))
  }

  /** The frames lead from the top of `t` down to the node `cur`. */
  ghost predicate Stacked(fs: seq<Frame>, cur: Tree, d: Ctx, t: Tree, c: Ctx)
    decreases |fs|
  {
    if fs == [] then Leads(t, c, cur, d)
    else
      var f := fs[|fs| - 1];
      && f.node.Node? && |f.node.slots| == 16 && Meta(f.node.slots[f.slot])
      && Leads(f.node.slots[f.slot], Below(f.node, f.ctx, f.slot), cur, d)
      && Stacked(fs[..|fs| - 1], f.node, f.ctx, t, c)
  }

  lemma {:induction false} StackedShape(m: Memory, fs: seq<Frame>, cur: Tree, d: Ctx, t: Tree, c: Ctx)
    requires Stacked(fs, cur, d, t, c) && cur.Node? && WF(t, c.pre) && Shape(m, t, c.back, c.slot)
    ensures WF(cur, d.pre) && Shape(m, cur, d.back, d.slot)
    ensures IsMeta(d.back) || d.back == c.back
    decreases |fs|
  {
    if fs != [] {
      var f := fs[|fs| - 1];
      StackedShape(m, fs[..|fs| - 1], f.node, f.ctx, t, c);
    }
  }

  /** What is left to visit once the innermost branch is done. */
  ghost function Above(fs: seq<Frame>): seq<Leaf> {
    if fs == [] then []
    else
      var f := fs[|fs| - 1];
      (if f.node.Node? && f.slot < |f.node.slots| then Branches(f.node.slots[f.slot + 1..]) else []) + Above(fs[..|fs| - 1])
  }

  /** Steps a traversal of a subtree takes at most. */
  ghost function Work(t: Tree): nat
    decreases t, 1
  {
    match t
    case Node(_, slots) => 1 + WorkOf(slots)
    case Shortcut(_, _, next) => 1 + Work(next)
    case _ => 0
  }

  ghost function WorkOf(ts: seq<Tree>): nat
    decreases ts, 0
  {
    if ts == [] then 0 else 1 + Work(ts[0]) + WorkOf(ts[1..])
  }

  ghost function WorkAbove(fs: seq<Frame>): nat {
    if fs == [] then 0
    else
      var f := fs[|fs| - 1];
      1 + (if f.node.Node? && f.slot < |f.node.slots| then WorkOf(f.node.slots[f.slot + 1..]) else 0) + WorkAbove(fs[..|fs| - 1])
  }

  /** Entering the branch in slot `i` puts its node on top of the stack. */
  lemma {:induction false} Push(fs: seq<Frame>, cur: Tree, d: Ctx, t: Tree, c: Ctx, i: Nibble)
    requires Stacked(fs, cur, d, t, c) && cur.Node? && |cur.slots| == 16 && Meta(cur.slots[i]) && NodeOf(cur.slots[i]).Node?
    ensures Stacked(fs + [Frame(cur, d, i)], NodeOf(cur.slots[i]),
                    if cur.slots[i].Node? then Below(cur, d, i) else Behind(cur.slots[i]), t, c)
  {}

  lemma {:induction false} PushAbove(fs: seq<Frame>, cur: Tree, d: Ctx, i: Nibble)
    requires cur.Node? && |cur.slots| == 16
    ensures Above(fs + [Frame(cur, d, i)]) == Branches(cur.slots[i + 1..]) + Above(fs)
    ensures WorkAbove(fs + [Frame(cur, d, i)]) == 1 + WorkOf(cur.slots[i + 1..]) + WorkAbove(fs)
  {}

  lemma {:induction false} FirstBranch(cur: Tree, i: Nibble)
    requires cur.Node? && |cur.slots| == 16 && Meta(cur.slots[i]) && NodeOf(cur.slots[i]).Node?
    ensures var n := NodeOf(cur.slots[i]);
            && Branches(cur.slots[i..]) == (Own(Ptrs(n.slots)) + Branches(n.slots)) + Branches(cur.slots[i + 1..])
            && WorkOf(cur.slots[i..]) >= 2 + WorkOf(n.slots) + WorkOf(cur.slots[i + 1..])
  {
    assert cur.slots[i..][1..] == cur.slots[i + 1..];
    var n := NodeOf(cur.slots[i]);
    assert Visits(cur.slots[i]) == Visits(n) == Own(Ptrs(n.slots)) + Branches(n.slots);
    assert Work(cur.slots[i]) >= Work(n) == 1 + WorkOf(n.slots);
  }

  /** Going down a branch leaves the same leaves to visit, and less work. */
  lemma {:induction false} PushRest(fs: seq<Frame>, cur: Tree, d: Ctx, i: Nibble)
    requires cur.Node? && |cur.slots| == 16 && Meta(cur.slots[i]) && NodeOf(cur.slots[i]).Node?
    ensures var n, gs := NodeOf(cur.slots[i]), fs + [Frame(cur, d, i)];
            && Branches(cur.slots[i..]) + Above(fs) == Own(Ptrs(n.slots)) + (Branches(n.slots) + Above(gs))
            && WorkOf(n.slots) + WorkAbove(gs) < WorkOf(cur.slots[i..]) + WorkAbove(fs)
  {
    PushAbove(fs, cur, d, i);
    FirstBranch(cur, i);
    var n := NodeOf(cur.slots[i]);
    Regroup(Own(Ptrs(n.slots)), Branches(n.slots), Branches(cur.slots[i + 1..]), Above(fs));
  }

  lemma {:induction false} Regroup(a: seq<Leaf>, b: seq<Leaf>, c: seq<Leaf>, e: seq<Leaf>)
    ensures ((a + b) + c) + e == a + (b + (c + e))
  {}

  /** Slots without a branch contribute nothing. */
  lemma {:induction false} Skip(cur: Tree, i: Nibble)
    requires cur.Node? && |cur.slots| == 16 && !Meta(cur.slots[i])
    ensures Branches(cur.slots[i..]) == Branches(cur.slots[i + 1..])
    ensures WorkOf(cur.slots[i + 1..]) <= WorkOf(cur.slots[i..])
  {}

  /** Where the climb from a finished node ends up: nowhere, or the next slot of its frame. */
  lemma {:induction false} Climb(m: Memory, fs: seq<Frame>, cur: Tree, d: Ctx, t: Tree, c: Ctx)
    requires Stacked(fs, cur, d, t, c) && cur.Node? && WF(t, c.pre) && Shape(m, t, c.back, c.slot) && Distinct(t)
    requires c.back == Null || (IsMeta(c.back) && c.back.addr !in Addrs(t))
    ensures cur.addr in m && m[cur.addr].NodeCell?
    ensures var b := m[cur.addr].back;
            if b.ShortcutPtr? && b != c.back then
              && b.addr in m && m[b.addr].ShortcutCell?
              && (m[b.addr].back == c.back <==> fs == [])
              && (fs != [] ==> m[b.addr].back == NodePtr(fs[|fs| - 1].node.addr) && m[b.addr].parentSlot == fs[|fs| - 1].slot)
            else
              && (b == c.back <==> fs == [])
              && (fs != [] ==> b == NodePtr(fs[|fs| - 1].node.addr) && m[cur.addr].parentSlot == fs[|fs| - 1].slot)
  {
    StackedShape(m, fs, cur, d, t, c);
    if fs != [] {
      var f := fs[|fs| - 1];
      var gs := fs[..|fs| - 1];
      StackedShape(m, gs, f.node, f.ctx, t, c);
      StackedAddrs(gs, f.node, f.ctx, t, c);
    }
  }

  lemma {:induction false} StackedAddrs(fs: seq<Frame>, cur: Tree, d: Ctx, t: Tree, c: Ctx)
    requires Stacked(fs, cur, d, t, c) && cur.Node?
    ensures Addrs(cur) <= Addrs(t)
    decreases |fs|
  {
    if fs != [] {
      var f := fs[|fs| - 1];
      StackedAddrs(fs[..|fs| - 1], f.node, f.ctx, t, c);
    }
  }

  // ------------------------------------------------------- iteration

  /** The first pass over a node: its leaves, and whether it has any branch. */
  method VisitOwn(ps: seq<Ptr>, callback: Leaf -> int, before: seq<Leaf>)
    returns (ret: int, visited: seq<Leaf>, hasMeta: bool)
    requires forall x :: x in before ==> callback(x) == 0
    ensures visited <= before + Own(ps) && before <= visited
    ensures ret == 0 ==> visited == before + Own(ps) && forall x :: x in visited ==> callback(x) == 0
    ensures ret != 0 ==> visited != [] && callback(visited[|visited| - 1]) == ret
                         && forall x :: x in visited[..|visited| - 1] ==> callback(x) == 0
    ensures ret == 0 ==> (hasMeta <==> exists i :: 0 <= i < |ps| && IsMeta(ps[i]))
  {
    visited, ret, hasMeta := before, 0, false;
    var slot := 0;
    assert ps[0..] == ps;
    while slot < |ps|
      invariant 0 <= slot <= |ps| && ret == 0
      invariant visited + Own(ps[slot..]) == before + Own(ps)
      invariant before <= visited && forall x :: x in visited ==> callback(x) == 0
      invariant hasMeta <==> exists i :: 0 <= i < slot && IsMeta(ps[i])
    {
      assert ps[slot..][1..] == ps[slot + 1..];
      if IsMeta(ps[slot]) { hasMeta := true; }
      if ps[slot].LeafPtr? {
        ret := callback(ps[slot].leaf);
        visited := visited + [ps[slot].leaf];
        assert visited + Own(ps[slot + 1..]) == before + Own(ps);
        if ret != 0 { return; }
      }
      slot := slot + 1;
    }
    assert ps[slot..] == [];
  }

  datatype Phase = BeginNode | ContinueNode | FinishedNode

  /** A pointer to the node `n`, directly or through a shortcut. */
  ghost predicate PointsAt(m: Memory, p: Ptr, n: Tree) {
    n.Node? && (p == NodePtr(n.addr)
                || (p.ShortcutPtr? && p.addr in m && m[p.addr].ShortcutCell? && m[p.addr].next == NodePtr(n.addr)))
  }

  /** What a traversal that stands at `cur` still has to visit. */
  ghost function Rest(phase: Phase, cur: Tree, slot: int, fs: seq<Frame>): seq<Leaf>
    requires cur.Node? && (phase == ContinueNode ==> 0 <= slot <= |cur.slots|)
  {
    match phase
    case BeginNode => Own(Ptrs(cur.slots)) + (Branches(cur.slots) + Above(fs))
    case ContinueNode => Branches(cur.slots[slot..]) + Above(fs)
    case FinishedNode => Above(fs)
  }

  ghost function Left(phase: Phase, cur: Tree, slot: int, fs: seq<Frame>): nat
    requires cur.Node? && (phase == ContinueNode ==> 0 <= slot <= |cur.slots|)
  {
    WorkAbove(fs) + match phase
                    case BeginNode => WorkOf(cur.slots)
                    case ContinueNode => WorkOf(cur.slots[slot..])
                    case FinishedNode => 0
  }

  /** The second pass: the next slot with a branch, if any. */
  method NextBranch(ps: seq<Ptr>, from: nat, ghost cur: Tree) returns (slot: nat)
    requires cur.Node? && |cur.slots| == 16 && ps == Ptrs(cur.slots) && from <= 16
    ensures from <= slot <= 16 && (slot < 16 ==> IsMeta(ps[slot]))
    ensures Branches(cur.slots[from..]) == Branches(cur.slots[slot..])
    ensures WorkOf(cur.slots[slot..]) <= WorkOf(cur.slots[from..])
  {
    slot := from;
    while slot < 16 && !IsMeta(ps[slot])
      invariant from <= slot <= 16
      invariant Branches(cur.slots[from..]) == Branches(cur.slots[slot..])
      invariant WorkOf(cur.slots[slot..]) <= WorkOf(cur.slots[from..])
    {
      Skip(cur, slot);
      slot := slot + 1;
    }
  }

  lemma {:induction false} NoBranchLeft(cur: Tree)
    requires cur.Node? && |cur.slots| == 16 && forall i :: 0 <= i < 16 ==> !IsMeta(Ptrs(cur.slots)[i])
    ensures Branches(cur.slots) == []
  {
    forall i | 0 <= i < 16 ensures !Meta(cur.slots[i]) {
      assert !IsMeta(Ptrs(cur.slots)[i]);
    }
    NoBranchIn(cur.slots);
  }

  lemma {:induction false} NoBranchIn(ts: seq<Tree>)
    requires forall i :: 0 <= i < |ts| ==> !Meta(ts[i])
    ensures Branches(ts) == []
  {
    if ts != [] { NoBranchIn(ts[1..]); }
  }

  /** Popping the innermost frame continues behind its slot. */
  lemma {:induction false} Pop(fs: seq<Frame>, cur: Tree, d: Ctx, t: Tree, c: Ctx)
    requires Stacked(fs, cur, d, t, c) && fs != []
    ensures var f, gs := fs[|fs| - 1], fs[..|fs| - 1];
            && f.node.Node? && |f.node.slots| == 16 && Stacked(gs, f.node, f.ctx, t, c)
            && Above(fs) == Branches(f.node.slots[f.slot + 1..]) + Above(gs)
            && WorkAbove(fs) == 1 + WorkOf(f.node.slots[f.slot + 1..]) + WorkAbove(gs)
  {
  }

  lemma {:induction false} EnterBranch(m: Memory, fs: seq<Frame>, cur: Tree, d: Ctx, t: Tree, c: Ctx, i: Nibble)
    requires Stacked(fs, cur, d, t, c) && cur.Node? && WF(cur, d.pre) && Shape(m, cur, d.back, d.slot) && IsMeta(Ptrs(cur.slots)[i])
    ensures var n, gs := NodeOf(cur.slots[i]), fs + [Frame(cur, d, i)];
            && PointsAt(m, Ptrs(cur.slots)[i], n)
            && Stacked(gs, n, if cur.slots[i].Node? then Below(cur, d, i) else Behind(cur.slots[i]), t, c)
            && Rest(ContinueNode, cur, i, fs) == Rest(BeginNode, n, 0, gs)
            && Left(BeginNode, n, 0, gs) < Left(ContinueNode, cur, i, fs)
  {
    Push(fs, cur, d, t, c, i);
    PushRest(fs, cur, d, i);
  }

  /** Entering a node: skip a shortcut, pass on the node's own leaves, see whether to go on below. */
  method BeginPass(m: Memory, at: Ptr, callback: Leaf -> int, before: seq<Leaf>, ghost cur: Tree, ghost d: Ctx,
                   ghost fs: seq<Frame>)
    returns (ret: int, visited: seq<Leaf>, cursor: Ptr, phase: Phase)
    requires PointsAt(m, at, cur) && Shape(m, cur, d.back, d.slot) && forall x :: x in before ==> callback(x) == 0
    ensures cursor == NodePtr(cur.addr) && phase != BeginNode
    ensures ret == 0 ==> visited + Rest(phase, cur, 0, fs) == before + Rest(BeginNode, cur, 0, fs)
                         && forall x :: x in visited ==> callback(x) == 0
    ensures ret != 0 ==> visited <= before + Rest(BeginNode, cur, 0, fs)
                         && visited != [] && callback(visited[|visited| - 1]) == ret
                         && forall x :: x in visited[..|visited| - 1] ==> callback(x) == 0
  {
    cursor := at;
    if cursor.ShortcutPtr? {
      cursor := m[cursor.addr].next;
    }
    var hasMeta;
    ret, visited, hasMeta := VisitOwn(m[cursor.addr].slots, callback, before);
    ghost var own, below, up := Own(Ptrs(cur.slots)), Branches(cur.slots), Above(fs);
    assert before + (own + (below + up)) == (before + own) + (below + up);
    assert cur.slots[0..] == cur.slots;
    phase := if hasMeta then ContinueNode else FinishedNode;
    if ret == 0 && !hasMeta {
      NoBranchLeft(cur);
      assert below + up == up;
    }
  }

  /** Leaving a node: up to its parent, or past the shortcut above it. */
  method ClimbUp(m: Memory, a: Addr, stop: Ptr, ghost cur: Tree, ghost d: Ctx, ghost t: Tree, ghost c: Ctx,
                 ghost fs: seq<Frame>)
    returns (done: bool, parent: Ptr, slot: int)
    requires Stacked(fs, cur, d, t, c) && cur.Node? && cur.addr == a && stop == c.back
    requires WF(t, c.pre) && Shape(m, t, c.back, c.slot) && Distinct(t)
    requires c.back == Null || (IsMeta(c.back) && c.back.addr !in Addrs(t))
    ensures done <==> fs == []
    ensures !done ==> parent == NodePtr(fs[|fs| - 1].node.addr) && slot == fs[|fs| - 1].slot
  {
    Climb(m, fs, cur, d, t, c);
    parent, slot, done := m[a].back, m[a].parentSlot, false;
    if parent == stop { done := true; return; }
    if parent.ShortcutPtr? {
      slot := m[parent.addr].parentSlot;
      parent := m[parent.addr].back;
      if parent == stop { done := true; return; }
    }
  }

  /** Goes on to the next branch of a node, or finishes it. */
  method ContinuePass(m: Memory, at: Ptr, from: int, ghost cur: Tree, ghost d: Ctx, ghost fs: seq<Frame>, ghost t: Tree,
                      ghost c: Ctx)
    returns (cursor: Ptr, phase: Phase, slot: int, ghost fs': seq<Frame>, ghost cur': Tree, ghost d': Ctx)
    requires PointsAt(m, at, cur) && at.NodePtr? && Shape(m, cur, d.back, d.slot) && WF(cur, d.pre) && 0 <= from <= |cur.slots|
    requires Stacked(fs, cur, d, t, c)
    ensures phase != ContinueNode && Stacked(fs', cur', d', t, c)
    ensures PointsAt(m, cursor, cur') && (phase == FinishedNode ==> cursor.NodePtr?)
    ensures Rest(phase, cur', slot, fs') == Rest(ContinueNode, cur, from, fs)
    ensures if phase == BeginNode then Left(phase, cur', slot, fs') < Left(ContinueNode, cur, from, fs)
            else Left(phase, cur', slot, fs') <= Left(ContinueNode, cur, from, fs)
  {
    slot := NextBranch(m[at.addr].slots, from, cur);
    if slot < 16 {
      cursor, phase := m[at.addr].slots[slot], BeginNode;
      EnterBranch(m, fs, cur, d, t, c, slot);
      fs', cur', d' := fs + [Frame(cur, d, slot)], NodeOf(cur.slots[slot]),
                       if cur.slots[slot].Node? then Below(cur, d, slot) else Behind(cur.slots[slot]);
    } else {
      cursor, phase, fs', cur', d' := at, FinishedNode, fs, cur, d;
      assert Branches(cur.slots[slot..]) + Above(fs) == Above(fs);
    }
  }

  /**
   Passes the leaves under `root` to the callback, climbing by back pointers.
   The ghost arguments name the subtree that lies there.
   */
  method SubtreeIterate(m: Memory, root: Ptr, stop: Ptr, callback: Leaf -> int, ghost t: Tree, ghost c: Ctx)
    returns (ret: int, visited: seq<Leaf>)
    requires root == PtrOf(t) && WF(t, c.pre) && Shape(m, t, c.back, c.slot) && Distinct(t) && stop == c.back
    requires c.back == Null || (IsMeta(c.back) && c.back.addr !in Addrs(t))
    ensures visited <= Visits(t)
    ensures ret == 0 ==> visited == Visits(t) && forall x :: x in visited ==> callback(x) == 0
    ensures ret != 0 ==> visited != [] && callback(visited[|visited| - 1]) == ret
                         && forall x :: x in visited[..|visited| - 1] ==> callback(x) == 0
  {
    ret, visited := 0, [];
    var cursor, slot: int, phase := root, 0, BeginNode;
    ghost var fs: seq<Frame>, cur, d := [], NodeOf(t), if t.Node? then c else Behind(t);
    StartVisits(t);
    while true
      invariant ret == 0 && forall x :: x in visited ==> callback(x) == 0
      invariant Stacked(fs, cur, d, t, c) && PointsAt(m, cursor, cur)
      invariant phase != BeginNode ==> cursor.NodePtr?
      invariant phase == ContinueNode ==> 0 <= slot <= |cur.slots|
      invariant visited + Rest(phase, cur, slot, fs) == Visits(t)
      decreases Left(phase, cur, slot, fs), if phase == BeginNode then 2 else if phase == ContinueNode then 1 else 0
    {
      StackedShape(m, fs, cur, d, t, c);
      match phase {
        case BeginNode =>
          slot := 0;
          ret, visited, cursor, phase := BeginPass(m, cursor, callback, visited, cur, d, fs);
          if ret != 0 { return; }
          assert cur.slots[0..] == cur.slots;
        case ContinueNode =>
          cursor, phase, slot, fs, cur, d := ContinuePass(m, cursor, slot, cur, d, fs, t, c);
        case FinishedNode =>
          var done;
          done, cursor, slot := ClimbUp(m, cursor.addr, stop, cur, d, t, c, fs);
          if done { return; }
          Pop(fs, cur, d, t, c);
          slot, phase := slot + 1, ContinueNode;
          fs, cur, d := fs[..|fs| - 1], fs[|fs| - 1].node, fs[|fs| - 1].ctx;
      }
    }
  }

  lemma {:induction false} StartVisits(t: Tree)
    requires NodeOf(t).Node?
    ensures Rest(BeginNode, NodeOf(t), 0, []) == Visits(t)
  {}
}
