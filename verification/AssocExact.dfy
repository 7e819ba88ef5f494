/**
 The converse of the refinement theorem, and what insert-only histories give.

 Both unsafe insertions really go wrong: some lookup then answers differently
 from the map.  In histories that only insert, one of the two cannot arise.
 */
module AssocExact {
  import opened Common
  import opened AssocTree
  import opened AssocPlace
  import opened AssocWalk
  import opened AssocInsert
  import opened AssocRefine

  /** The answer every lookup should give after `l` was inserted into `t`. */
  ghost function Expected(t: Tree, l: Leaf, q: Key): Answer {
    if q == l.key then Found(l.obj) else Find(t, q)
  }

  // ------------------------------------- a shortcut put behind a shortcut

  lemma {:induction false} LocatedInside(t: Tree, c: Ctx, sub: Tree, d: Ctx)
    requires Distinct(t) && Located(t, c, sub, d) && Meta(sub) && !(t == sub && c == d)
    ensures Meta(t) && sub.addr != t.addr
  {
    if t.Node? {
      var i: Nibble :| i < |t.slots| && Meta(t.slots[i]) && Located(t.slots[i], Below(t, c, i), sub, d);
      LocatedAddrs(t.slots[i], Below(t, c, i), sub, d);
    } else {
      LocatedAddrs(t.next, Behind(t), sub, d);
    }
  }

  lemma {:induction false} WalkSubstNode(t: Tree, c: Ctx, k: Key, i: Nibble, a: Addr, u: Tree)
    requires t.Node? && Distinct(t) && |t.slots| == 16 && |c.pre| < 16 && i == k[|c.pre|]
    requires Meta(t.slots[i]) && a in Addrs(t.slots[i]) && Meta(u)
    ensures Walk(Subst(t, a, u), c, k) == Walk(Subst(t.slots[i], a, u), Below(t, c, i), k)
  {
    SubstNode(t, i, a, u);
    SubstMeta(t.slots[i], a, u);
  }

  lemma {:induction false} WalkSubstShortcut(t: Tree, c: Ctx, k: Key, a: Addr, u: Tree)
    requires t.Shortcut? && t.next.Node? && t.prefix <= k && a != t.addr && a != t.next.addr
    ensures Walk(Subst(t, a, u), c, k) == Walk(Subst(t.next, a, u), Behind(t), k)
  {
  }

  /** Replacing a node behind a shortcut by a shortcut derails the walk to it. */
  lemma {:induction false} WalkDerails(t: Tree, c: Ctx, k: Key, n: Tree, d: Ctx, u: Tree)
    requires WF(t, c.pre) && c.pre <= k && Distinct(t)
    requires Walk(t, c, k) == TerminalNode(n, d) && c != d && d.back.ShortcutPtr? && u.Shortcut?
    ensures Walk(Subst(t, n.addr, u), c, k) == Confused
    decreases t, 1
  {
    if t.Node? {
      WalkDerailsNode(t, c, k, n, d, u, k[|c.pre|]);
    } else {
      WalkLocated(t.next, Behind(t), k);
      LocatedAddrs(t.next, Behind(t), n, d);
      if t.next == n && Behind(t) == d {
        assert Subst(t, n.addr, u) == Shortcut(t.addr, t.prefix, u);
      } else {
        LocatedWF(t.next, Behind(t), n, d);
        LocatedInside(t.next, Behind(t), n, d);
        WalkDerails(t.next, Behind(t), k, n, d, u);
        WalkSubstShortcut(t, c, k, n.addr, u);
      }
    }
  }

  lemma {:induction false} WalkBelow(t: Tree, c: Ctx, k: Key, i: Nibble)
    requires t.Node? && WF(t, c.pre) && c.pre <= k && Distinct(t) && i == k[|c.pre|] && Meta(t.slots[i])
    ensures var e := Below(t, c, i);
            WF(t.slots[i], e.pre) && e.pre <= k && Distinct(t.slots[i]) && Walk(t, c, k) == Walk(t.slots[i], e, k)
  {
    PrefixGrows(c.pre, k, i);
  }

  lemma {:induction false} PrefixGrows(pre: seq<Nibble>, k: Key, i: Nibble)
    requires |pre| < |k| && pre <= k && i == k[|pre|]
    ensures pre + [i] <= k
  {}

  lemma {:induction false} WalkDerailsNode(t: Tree, c: Ctx, k: Key, n: Tree, d: Ctx, u: Tree, i: Nibble)
    requires t.Node? && WF(t, c.pre) && c.pre <= k && Distinct(t) && i == k[|c.pre|] && Meta(t.slots[i])
    requires Walk(t, c, k) == TerminalNode(n, d) && d.back.ShortcutPtr? && u.Shortcut?
    ensures Walk(Subst(t, n.addr, u), c, k) == Confused
    decreases t, 0
  {
    WalkBelow(t, c, k, i);
    WalkDerailsBranch(t.slots[i], Below(t, c, i), k, n, d, u);
    WalkSubstNode(t, c, k, i, n.addr, u);
  }

  lemma {:induction false} WalkDerailsBranch(b: Tree, e: Ctx, k: Key, n: Tree, d: Ctx, u: Tree)
    requires WF(b, e.pre) && e.pre <= k && Distinct(b) && !e.back.ShortcutPtr?
    requires Walk(b, e, k) == TerminalNode(n, d) && d.back.ShortcutPtr? && u.Shortcut?
    ensures n.addr in Addrs(b) && Walk(Subst(b, n.addr, u), e, k) == Confused
    decreases b, 2
  {
    WalkLocated(b, e, k);
    LocatedAddrs(b, e, n, d);
    WalkDerails(b, e, k, n, d, u);
  }

  lemma {:induction false} UnsafeNode(t: Tree, l: Leaf, n: Tree, d: Ctx)
    requires Walk(t, TOP, l.key) == TerminalNode(n, d) && !Safe(t, l.key) && n.Node?
    ensures d.back.ShortcutPtr? && Clusters(n.slots, |d.pre|, l) && Full(n) && Lacks(n, l.key)
  {
    ClustersFull(n, |d.pre|, l);
  }

  lemma {:induction false} ClusterBehind(t: Tree, l: Leaf, n: Tree, d: Ctx, u: Tree)
    requires Array(t) && t != Empty && Walk(t, TOP, l.key) == TerminalNode(n, d) && !Safe(t, l.key)
    requires Grows(n, d, l, u) && Meta(u)
    ensures Find(Subst(t, n.addr, u), l.key) == Misread
  {
    assert d.back.ShortcutPtr? && u.Shortcut? by {
      TerminalShape(t, l, n, d, u);
      UnsafeNode(t, l, n, d);
    }
    FindDerails(t, l.key, n, d, u);
  }

  lemma {:induction false} FindDerails(t: Tree, k: Key, n: Tree, d: Ctx, u: Tree)
    requires WF(t, []) && Distinct(t) && Walk(t, TOP, k) == TerminalNode(n, d) && d.back.ShortcutPtr? && u.Shortcut?
    ensures Find(Subst(t, n.addr, u), k) == Misread
  {
    WalkDerails(t, TOP, k, n, d, u);
  }

  lemma {:induction false} ClusterBehindFails(t: Tree, l: Leaf, t': Tree)
    requires Array(t) && InsertStep(t, l, t') && Walk(t, TOP, l.key).TerminalNode? && !Safe(t, l.key)
    ensures Find(t', l.key) != Expected(t, l, l.key)
  {
    var r := Walk(t, TOP, l.key);
    var u :| Grows(r.node, r.at, l, u) && Fresh(t, r.node, u) && t' == Subst(t, r.node.addr, u);
    ClusterBehind(t, l, r.node, r.at, u);
  }

  lemma {:induction false} ClustersFull(n: Tree, level: nat, l: Leaf)
    requires n.Node? && Clusters(n.slots, level, Leaf(l.key, 0))
    ensures Clusters(n.slots, level, l) && Full(n) && Lacks(n, l.key)
  {
    forall x | x in Items(Ptrs(n.slots)) ensures x.key != l.key {
      ItemsAt(Ptrs(n.slots), x);
    }
  }

  // ------------------------------------------- a root shortcut split too early

  lemma {:induction false} WalkWithin(t: Tree, c: Ctx, k: Key, x: Leaf)
    requires Walk(t, c, k).TerminalNode? && x in Items(Ptrs(Walk(t, c, k).node.slots))
    ensures x in Leaves(t)
    decreases t
  {
    if t.Node? {
      var i := k[|c.pre|];
      if Meta(t.slots[i]) {
        WalkWithin(t.slots[i], Below(t, c, i), k, x);
        BranchLeavesAt(t.slots, x);
      }
    } else {
      WalkWithin(t.next, Behind(t), k, x);
    }
  }

  lemma {:induction false} SearchHit(ps: seq<Ptr>, k: Key)
    requires Search(ps, k).Some?
    ensures Leaf(k, Search(ps, k).value) in Items(ps)
  {
    if !(ps[0].LeafPtr? && ps[0].leaf.key == k) { SearchHit(ps[1..], k); }
  }

  /** Even at too low a level a walk through a well-formed subtree never takes a shortcut for a node. */
  lemma {:induction false} WalkSteady(t: Tree, c: Ctx, k: Key, pre: seq<Nibble>)
    requires WF(t, pre) && |c.pre| <= |pre|
    ensures Walk(t, c, k).TerminalNode? || Walk(t, c, k).WrongShortcut?
    decreases t
  {
    if t.Node? {
      var i := k[|c.pre|];
      if Meta(t.slots[i]) { WalkSteady(t.slots[i], Below(t, c, i), k, pre + [i]); }
    } else if t.prefix <= k {
      WalkSteady(t.next, Behind(t), k, t.prefix);
    }
  }

  /** If the two segments agree, the walk for the new key is led past its leaf. */
  lemma {:induction false} NewKeyLost(s: Tree, l: Leaf, a0: Addr, post: Addr)
    requires s.Shortcut? && WF(s, []) && !(s.prefix <= l.key) && FirstDiff(s.prefix, l.key) == 1
    requires s.prefix[0] == s.prefix[1]
    ensures Find(MidNode(s, l, a0, post), l.key) == Absent
  {
    var m := MidNode(s, l, a0, post);
    var rest := MidRest(s, 1, post);
    assert l.key[0] == l.key[..1][0] == s.prefix[..1][0];
    assert m.slots[l.key[0]] == rest && Meta(rest);
    var c := Below(m, TOP, l.key[0]);
    assert Walk(m, TOP, l.key) == Walk(rest, c, l.key);
    MidRestWF(s, [], 1, post);
    WalkSteady(rest, c, l.key, s.prefix[..1] + [s.prefix[1]]);
    if Walk(rest, c, l.key).TerminalNode? && Search(Ptrs(Walk(rest, c, l.key).node.slots), l.key).Some? {
      LostLeaf(s, l, post);
    }
  }

  lemma {:induction false} LostLeaf(s: Tree, l: Leaf, post: Addr)
    requires s.Shortcut? && WF(s, []) && !(s.prefix <= l.key) && |s.prefix| >= 2
    requires Meta(MidRest(s, 1, post))
    ensures forall c :: !(Walk(MidRest(s, 1, post), c, l.key).TerminalNode?
                          && Search(Ptrs(Walk(MidRest(s, 1, post), c, l.key).node.slots), l.key).Some?)
  {
    var rest := MidRest(s, 1, post);
    LeavesPrefix(s.next, s.prefix);
    forall c | Walk(rest, c, l.key).TerminalNode?
      ensures Search(Ptrs(Walk(rest, c, l.key).node.slots), l.key) == None
    {
      var ps := Ptrs(Walk(rest, c, l.key).node.slots);
      if Search(ps, l.key).Some? {
        SearchHit(ps, l.key);
        WalkWithin(rest, c, l.key, Leaf(l.key, Search(ps, l.key).value));
        assert false;
      }
    }
  }

  /** If they differ, every old key is looked for in the wrong slot. */
  lemma {:induction false} OldKeyLost(s: Tree, l: Leaf, a0: Addr, post: Addr, x: Leaf)
    requires s.Shortcut? && WF(s, []) && !(s.prefix <= l.key) && FirstDiff(s.prefix, l.key) == 1
    requires s.prefix[0] != s.prefix[1] && x in Leaves(s)
    ensures x.key != l.key && Find(MidNode(s, l, a0, post), x.key) == Absent
  {
    var m := MidNode(s, l, a0, post);
    assert s.prefix <= x.key by { LeavesPrefix(s.next, s.prefix); }
    assert x.key[0] == s.prefix[0];
    assert Walk(m, TOP, x.key) == TerminalNode(m, TOP);
    MidSearch(s.prefix[1], MidRest(s, 1, post), l, x.key);
  }

  lemma {:induction false} MidSearch(slot: Nibble, rest: Tree, l: Leaf, k: Key)
    requires Meta(rest) && k != l.key
    ensures Search(Ptrs(MidSlots(slot, rest, l)), k) == None
  {
    MidItems(slot, rest, l);
    if Search(Ptrs(MidSlots(slot, rest, l)), k).Some? {
      SearchHit(Ptrs(MidSlots(slot, rest, l)), k);
    }
  }

  lemma {:induction false} EarlySplit(t: Tree, l: Leaf, a0: Addr, post: Addr)
    requires Array(t) && t.Shortcut? && !(t.prefix <= l.key) && FirstDiff(t.prefix, l.key) == 1
    ensures exists q :: Find(MidNode(t, l, a0, post), q) != Expected(t, l, q)
  {
    if t.prefix[0] == t.prefix[1] {
      NewKeyLost(t, l, a0, post);
      assert Find(MidNode(t, l, a0, post), l.key) != Expected(t, l, l.key);
    } else {
      var x :| x in Leaves(t);
      OldKeyLost(t, l, a0, post, x);
      FindBinds(t, x.key);
      assert x == Leaf(x.key, x.obj) && Binds(t, x.key, x.obj);
      assert Find(MidNode(t, l, a0, post), x.key) != Expected(t, l, x.key);
    }
  }

  lemma {:induction false} RootSplitFails(t: Tree, l: Leaf, t': Tree)
    requires Array(t) && InsertStep(t, l, t') && Walk(t, TOP, l.key).WrongShortcut? && !Safe(t, l.key)
    ensures exists q :: Find(t', q) != Expected(t, l, q)
  {
    WalkLocated(t, TOP, l.key);
    var r := Walk(t, TOP, l.key);
    LocatedTop(t, TOP, r.shortcut, r.at);
    var u :| Grows(t, TOP, l, u) && Fresh(t, t, u) && t' == Subst(t, t.addr, u);
    var a0, pre0, post :| u == MidSplit(t, MidBase(TOP), l, a0, pre0, post);
    EarlySplit(t, l, a0, post);
  }

  // ------------------------------------------------------- both directions

  lemma {:induction false} SafeAnswers(t: Tree, l: Leaf, t': Tree, q: Key)
    requires Array(t) && InsertStep(t, l, t') && Safe(t, l.key)
    ensures Find(t', q) == Expected(t, l, q)
  {
    InsertRefinesMap(t, l, t');
    var m, m' := Contents(t), Contents(t');
    FindIn(t, m, q);
    FindIn(t', m', q);
    assert Lookup(m', q) == if q == l.key then Found(l.obj) else Lookup(m, q);
  }

  /** After an insertion all lookups agree with the updated map if and only if it was safe. */
  lemma {:induction false} InsertExact(t: Tree, l: Leaf, t': Tree)
    requires Array(t) && InsertStep(t, l, t')
    ensures (forall q :: Find(t', q) == Expected(t, l, q)) <==> Safe(t, l.key)
  {
    if Safe(t, l.key) {
      forall q ensures Find(t', q) == Expected(t, l, q) { SafeAnswers(t, l, t', q); }
    } else if Walk(t, TOP, l.key).TerminalNode? {
      ClusterBehindFails(t, l, t');
    } else {
      RootSplitFails(t, l, t');
    }
  }

  // ------------------------------------------------- insert-only histories

  /** Every node reached through a shortcut holds a metadata pointer. */
  ghost predicate Anchored(t: Tree)
    decreases t
  {
    match t
    case Node(_, slots) => forall i :: 0 <= i < |slots| ==> Anchored(slots[i])
    case Shortcut(_, _, next) => HasMeta(next) && Anchored(next)
    case _ => true
  }

  ghost predicate HasMeta(t: Tree) {
    t.Node? && exists i :: 0 <= i < |t.slots| && Meta(t.slots[i])
  }

  lemma {:induction false} AnchoredAt(t: Tree, c: Ctx, sub: Tree, d: Ctx)
    requires Anchored(t) && Located(t, c, sub, d)
    ensures Anchored(sub)
    ensures d.back.ShortcutPtr? ==> (t == sub && c == d) || HasMeta(sub)
    decreases t
  {
    if t == sub && c == d {
    } else if t.Node? {
      var i: Nibble :| i < |t.slots| && Meta(t.slots[i]) && Located(t.slots[i], Below(t, c, i), sub, d);
      AnchoredAt(t.slots[i], Below(t, c, i), sub, d);
    } else {
      AnchoredAt(t.next, Behind(t), sub, d);
    }
  }

  lemma {:induction false} SubstAnchored(t: Tree, c: Ctx, sub: Tree, d: Ctx, u: Tree)
    requires Located(t, c, sub, d) && Distinct(t) && Anchored(t) && Meta(sub)
    requires Anchored(u) && Meta(u) && (d.back.ShortcutPtr? ==> HasMeta(u))
    ensures Anchored(Subst(t, sub.addr, u))
    ensures c.back.ShortcutPtr? && HasMeta(t) ==> HasMeta(Subst(t, sub.addr, u))
    decreases t
  {
    if t == sub && c == d {
    } else if t.Node? {
      var i: Nibble :| i < |t.slots| && Meta(t.slots[i]) && Located(t.slots[i], Below(t, c, i), sub, d);
      LocatedAddrs(t.slots[i], Below(t, c, i), sub, d);
      SubstAnchored(t.slots[i], Below(t, c, i), sub, d, u);
      SubstNode(t, i, sub.addr, u);
      SubstMeta(t.slots[i], sub.addr, u);
      assert Meta(Subst(t, sub.addr, u).slots[i]);
    } else {
      LocatedAddrs(t.next, Behind(t), sub, d);
      SubstAnchored(t.next, Behind(t), sub, d, u);
    }
  }

  lemma {:induction false} SettlesAnchored(n: Tree, l: Leaf, i: nat, u: Tree)
    requires Anchored(n) && Settles(n, l, i, u)
    ensures Anchored(u) && (HasMeta(n) ==> HasMeta(u))
  {
    if HasMeta(n) {
      var j :| 0 <= j < |n.slots| && Meta(n.slots[j]);
      assert Meta(u.slots[j]);
    }
  }

  lemma {:induction false} SplitsAnchored(s: seq<Tree>, l: Leaf, level: nat, u: Tree)
    requires (forall i :: 0 <= i < |s| ==> Anchored(s[i])) && SplitsInto(s, l, level, u)
    ensures Anchored(u) && HasMeta(u)
  {
    var slot: Nibble, a1, s1 :| Splits(s, l, level, slot, a1, u.slots, s1);
    assert Meta(u.slots[slot]);
    assert Anchored(Node(a1, s1));
  }

  lemma {:induction false} MidAnchored(s: Tree, d: Ctx, l: Leaf, u: Tree)
    requires s.Shortcut? && |s.prefix| <= 16 && !(s.prefix <= l.key) && Anchored(s) && MidInsert(s, d, l, u)
    ensures Anchored(u)
  {
    var a0, pre0, post :| u == MidSplit(s, MidBase(d), l, a0, pre0, post);
    var n := MidNode(s, l, a0, post);
    var f := FirstDiff(s.prefix, l.key);
    assert Anchored(MidRest(s, f, post));
    assert forall i :: 0 <= i < 16 ==> n.slots[i] in [Empty, Item(l), MidRest(s, f, post)];
    assert Meta(n.slots[s.prefix[f]]);
  }

  lemma {:induction false} ClustersAnchored(n: Tree, level: nat, l: Leaf, u: Tree)
    requires n.Node? && Anchored(n) && Clusters(n.slots, level, l) && ClustersInto(n.slots, l, u)
    ensures Anchored(u) && !HasMeta(n)
  {
    SplitsAnchored(n.slots, l, |u.prefix|, u.next);
  }

  lemma {:induction false} TerminalAnchored(n: Tree, d: Ctx, l: Leaf, u: Tree)
    requires n.Node? && Anchored(n) && TerminalInsert(n, d, l, u)
    ensures Anchored(u)
    ensures HasMeta(n) ==> HasMeta(u)
  {
    if Full(n) && Lacks(n, l.key) {
      if Clusters(n.slots, |d.pre|, l) {
        ClustersAnchored(n, |d.pre|, l, u);
      } else {
        SplitsAnchored(n.slots, l, |d.pre|, u);
      }
    } else {
      var i :| Settles(n, l, i, u);
      SettlesAnchored(n, l, i, u);
    }
  }

  lemma {:induction false} PlaceAnchored(t: Tree, l: Leaf, sub: Tree, d: Ctx, u: Tree)
    requires Array(t) && t != Empty && Anchored(t) && Located(t, TOP, sub, d) && Meta(sub)
    requires Grows(sub, d, l, u) && Meta(u)
    ensures Anchored(Subst(t, sub.addr, u))
  {
    AnchoredAt(t, TOP, sub, d);
    LocatedWF(t, TOP, sub, d);
    if sub.Node? { TerminalAnchored(sub, d, l, u); } else { MidAnchored(sub, d, l, u); }
    SubstAnchored(t, TOP, sub, d, u);
  }

  /** Insertion keeps the anchors, safe or not. */
  lemma {:induction false} InsertKeepsAnchored(t: Tree, l: Leaf, t': Tree)
    requires Array(t) && Anchored(t) && InsertStep(t, l, t')
    ensures Anchored(t')
  {
    if t != Empty {
      WalkLocated(t, TOP, l.key);
      var r := Walk(t, TOP, l.key);
      var sub := if r.TerminalNode? then r.node else r.shortcut;
      var u :| Grows(sub, r.at, l, u) && Fresh(t, sub, u) && t' == Subst(t, sub.addr, u);
      PlaceAnchored(t, l, sub, r.at, u);
    }
  }

  /** The one thing insert-only callers have to avoid. */
  ghost predicate RootSafe(t: Tree, k: Key) {
    t.Shortcut? && |t.prefix| <= 16 && !(t.prefix <= k) ==> FirstDiff(t.prefix, k) != 1
  }

  lemma {:induction false} AnchoredSafe(t: Tree, k: Key)
    requires Array(t) && Anchored(t)
    ensures RootSafe(t, k) <==> Safe(t, k)
  {
    if t != Empty {
      WalkLocated(t, TOP, k);
      match Walk(t, TOP, k)
      case TerminalNode(n, d) => AnchoredNode(t, k, n, d);
      case WrongShortcut(s, d) => LocatedTop(t, TOP, s, d);
    }
  }

  lemma {:induction false} AnchoredNode(t: Tree, k: Key, n: Tree, d: Ctx)
    requires Array(t) && t != Empty && Anchored(t) && Walk(t, TOP, k) == TerminalNode(n, d) && Located(t, TOP, n, d)
    ensures RootSafe(t, k) && Safe(t, k)
  {
    AnchoredAt(t, TOP, n, d);
  }

  /** A history of applied insertions, from the empty array to `t`. */
  datatype History = Start | Then(before: History, leaf: Leaf, tree: Tree)

  function Now(h: History): Tree {
    if h.Start? then Empty else h.tree
  }

  ghost predicate InsertRun(h: History) {
    h.Start? || (InsertRun(h.before) && InsertStep(Now(h.before), h.leaf, h.tree) && RootSafe(Now(h.before), h.leaf.key))
  }

  /** The map in which every insertion of the history overwrites the earlier ones. */
  ghost function Puts(h: History): map<Key, Obj> {
    if h.Start? then map[] else Puts(h.before)[h.leaf.key := h.leaf.obj]
  }

  lemma {:induction false} RunStep(t: Tree, l: Leaf, t': Tree)
    requires Array(t) && Anchored(t) && InsertStep(t, l, t') && RootSafe(t, l.key)
    ensures Array(t') && Anchored(t') && Unique(Leaves(t)) && Unique(Leaves(t'))
    ensures Contents(t') == Contents(t)[l.key := l.obj]
  {
    AnchoredSafe(t, l.key);
    InsertRefinesMap(t, l, t');
    InsertKeepsAnchored(t, l, t');
  }

  lemma {:induction false} EmptyContents()
    ensures Array(Empty) && Anchored(Empty) && Unique(Leaves(Empty)) && Contents(Empty) == map[]
  {
  }

  lemma {:induction false} InsertRunContents(h: History)
    requires InsertRun(h)
    ensures Array(Now(h)) && Anchored(Now(h)) && Unique(Leaves(Now(h)))
    ensures Contents(Now(h)) == Puts(h)
  {
    if h.Start? {
      EmptyContents();
    } else {
      InsertRunContents(h.before);
      RunStep(Now(h.before), h.leaf, h.tree);
    }
  }

  /** After any insert-only history every lookup returns the last object inserted under the key. */
  lemma {:induction false} InsertRunRefinesMap(h: History, k: Key)
    requires InsertRun(h)
    ensures Find(Now(h), k) == if k in Puts(h) then Found(Puts(h)[k]) else Absent
  {
    InsertRunContents(h);
    FindIsMapLookup(Now(h), k);
  }
}
