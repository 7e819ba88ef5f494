/**
 Insertion refines adding a binding to a map.  `InsertStep` relates the tree
 before an insertion script to the tree after it was applied, branch by branch
 as the source chooses them.  The theorem says exactly when the result answers
 every lookup as the updated map would.
 */
module AssocRefine {
  import opened Common
  import opened AssocTree
  import opened AssocPlace
  import opened AssocWalk
  import opened AssocInsert

  ghost predicate Full(n: Tree) {
    n.Node? && forall i :: 0 <= i < |n.slots| ==> n.slots[i] != Empty
  }

  ghost predicate Lacks(n: Tree, k: Key) {
    n.Node? && forall x :: x in Items(Ptrs(n.slots)) ==> x.key != k
  }

  ghost predicate SplitsInto(s: seq<Tree>, l: Leaf, level: nat, u: Tree) {
    exists slot: Nibble, a1, s1 :: u.Node? && Splits(s, l, level, slot, a1, u.slots, s1)
  }

  ghost predicate ClustersInto(s: seq<Tree>, l: Leaf, u: Tree) {
    u.Shortcut? && |u.prefix| < 16 && u.prefix == l.key[..|u.prefix|] && DivergesAt(s, l, |u.prefix|) && SplitsInto(s, l, |u.prefix|, u.next)
  }

  /** What an insertion makes of the terminal node of its walk. */
  ghost predicate TerminalInsert(n: Tree, d: Ctx, l: Leaf, u: Tree)
    requires n.Node?
  {
    if Full(n) && Lacks(n, l.key) then
      if Clusters(n.slots, |d.pre|, l) then ClustersInto(n.slots, l, u)
      else SplitsInto(n.slots, l, |d.pre|, u)
    else
      exists i :: Settles(n, l, i, u)
  }

  /** The replacement uses no address that stays in use elsewhere. */
  ghost predicate Fresh(t: Tree, sub: Tree, u: Tree) {
    Meta(u) && Distinct(u) && Addrs(u) !! (Addrs(t) - Addrs(sub))
  }

  ghost predicate MidInsert(s: Tree, d: Ctx, l: Leaf, u: Tree)
    requires s.Shortcut? && |s.prefix| <= 16 && !(s.prefix <= l.key)
  {
    exists a0, pre0, post :: u == MidSplit(s, MidBase(d), l, a0, pre0, post)
  }

  /** `u` replaces the subtree `sub` at which the walk for the leaf stopped. */
  ghost predicate Grows(sub: Tree, d: Ctx, l: Leaf, u: Tree) {
    match sub
    case Node(_, _) => TerminalInsert(sub, d, l, u)
    case Shortcut(_, p, _) => |p| <= 16 && !(p <= l.key) && MidInsert(sub, d, l, u)
    case _ => false
  }

  ghost predicate InsertStep(t: Tree, l: Leaf, t': Tree) {
    match Walk(t, TOP, l.key)
    case TreeEmpty => t == Empty && t'.Node? && t'.slots == Blank()[0 := Item(l)]
    case TerminalNode(n, d) => exists u :: Grows(n, d, l, u) && Fresh(t, n, u) && t' == Subst(t, n.addr, u)
    case WrongShortcut(s, d) => exists u :: Grows(s, d, l, u) && Fresh(t, s, u) && t' == Subst(t, s.addr, u)
    case Confused => false
  }

  /**
   When an insertion keeps the array intact.  It must not split a root shortcut
   exactly one segment in, and it must not put a new shortcut in place of a node
   that is itself reached through a shortcut.
   */
  ghost predicate Safe(t: Tree, k: Key) {
    match Walk(t, TOP, k)
    case TerminalNode(n, d) => !(d.back.ShortcutPtr? && Clusters(n.slots, |d.pre|, Leaf(k, 0)))
    case WrongShortcut(s, d) => |s.prefix| <= 16 && !(s.prefix <= k) && !(d.back == Null && FirstDiff(s.prefix, k) == 1)
    case _ => true
  }

  // ------------------------------------------------ the replaced place

  /** What leaves `sub` when `l` arrives: nothing, or the old leaf of that key. */
  ghost function Superseded(t: Tree, k: Key): multiset<Leaf> {
    match Find(t, k)
    case Found(o) => multiset{Leaf(k, o)}
    case _ => multiset{}
  }

  lemma {:induction false} SplitsIntoWF(s: seq<Tree>, pre: seq<Nibble>, l: Leaf, a: Addr, u: Tree)
    requires |pre| < 16 && SplitsInto(s, l, |pre|, u)
    requires LeavesFit(Items(Ptrs(s)) + multiset{l}, s, pre) && BranchesWF(s, pre)
    ensures WF(u, pre) && u.Node?
    ensures Leaves(u) == Leaves(Node(a, s)) + multiset{l}
  {
    var slot: Nibble, a1, s1 :| Splits(s, l, |pre|, slot, a1, u.slots, s1);
    SplitsWF(s, pre, l, slot, u.addr, a1, u.slots, s1);
    SplitsLeaves(s, l, |pre|, slot, a, u.addr, a1, u.slots, s1);
  }

  lemma {:induction false} ClustersIntoWF(s: seq<Tree>, pre: seq<Nibble>, l: Leaf, a: Addr, u: Tree)
    requires |pre| < 16 && |s| == 16 && LeavesFit(Items(Ptrs(s)), s, pre) && pre <= l.key
    requires Clusters(s, |pre|, l) && ClustersInto(s, l, u)
    ensures WF(u, pre)
    ensures Leaves(u) == Leaves(Node(a, s)) + multiset{l}
  {
    var p := u.prefix;
    assert |pre| < |p| && pre <= p by { DivergesBelow(s, pre, l, |p|); }
    DivergesFit(s, pre, l, |p|);
    AllItems(s, |pre|, l, p);
    SplitsIntoWF(s, p, l, a, u.next);
  }

  lemma {:induction false} AllItems(s: seq<Tree>, level: nat, l: Leaf, p: seq<Nibble>)
    requires Clusters(s, level, l)
    ensures BranchesWF(s, p)
  {}

  /** Every way of growing a well-formed node is well formed again and adds the leaf. */
  lemma {:induction false} TerminalFull(n: Tree, d: Ctx, l: Leaf, u: Tree)
    requires n.Node? && WF(n, d.pre) && Fits(l, n.slots, d.pre)
    requires Full(n) && Lacks(n, l.key) && TerminalInsert(n, d, l, u)
    ensures WF(u, d.pre)
    ensures Leaves(u) == Leaves(n) + multiset{l}
    ensures u.Shortcut? <==> Clusters(n.slots, |d.pre|, l)
  {
    if Clusters(n.slots, |d.pre|, l) {
      ClustersIntoWF(n.slots, d.pre, l, n.addr, u);
    } else {
      JoinFits(Items(Ptrs(n.slots)), l, n.slots, d.pre);
      SplitsIntoWF(n.slots, d.pre, l, n.addr, u);
    }
  }

  lemma {:induction false} SettlesGone(n: Tree, pre: seq<Nibble>, l: Leaf, i: nat, u: Tree)
    requires Settles(n, l, i, u) && WF(n, pre)
    ensures ItemOf(PtrOf(n.slots[i])) == match Search(Ptrs(n.slots), l.key) case Some(o) => multiset{Leaf(l.key, o)} case None => multiset{}
  {
    SearchItems(Ptrs(n.slots), l.key);
    if n.slots[i].Item? {
      ItemsAt(Ptrs(n.slots), n.slots[i].leaf);
      assert Ptrs(n.slots)[i] == LeafPtr(n.slots[i].leaf);
      assert Leaf(l.key, n.slots[i].leaf.obj) in Items(Ptrs(n.slots));
    }
  }

  lemma {:induction false} TerminalGrows(n: Tree, d: Ctx, l: Leaf, u: Tree)
    requires n.Node? && WF(n, d.pre) && Fits(l, n.slots, d.pre) && TerminalInsert(n, d, l, u)
    ensures WF(u, d.pre)
    ensures Leaves(u) + (match Search(Ptrs(n.slots), l.key) case Some(o) => multiset{Leaf(l.key, o)} case None => multiset{})
            == Leaves(n) + multiset{l}
    ensures u.Shortcut? <==> Full(n) && Lacks(n, l.key) && Clusters(n.slots, |d.pre|, l)
  {
    if Full(n) && Lacks(n, l.key) {
      TerminalFull(n, d, l, u);
      SearchItems(Ptrs(n.slots), l.key);
    } else {
      var i :| Settles(n, l, i, u);
      SettlesWF(n, d.pre, l, i, u);
      SettlesLeaves(n, l, i, u);
      SettlesGone(n, d.pre, l, i, u);
    }
  }

  /** The same for a shortcut the key does not follow, unless the level is off by one. */
  lemma {:induction false} MidGrows(s: Tree, d: Ctx, l: Leaf, u: Tree)
    requires s.Shortcut? && WF(s, d.pre) && d.pre <= l.key && !(s.prefix <= l.key) && MidInsert(s, d, l, u)
    ensures Leaves(u) == Leaves(s) + multiset{l}
    ensures !(d == TOP && FirstDiff(s.prefix, l.key) == 1) && (d == TOP <==> d.back == Null) ==> WF(u, d.pre)
  {
    var a0, pre0, post :| u == MidSplit(s, MidBase(d), l, a0, pre0, post);
    MidLeaves(s, MidBase(d), l, a0, pre0, post);
    MidNodeWF(s, d.pre, l, a0, post);
    if !(d == TOP && FirstDiff(s.prefix, l.key) == 1) && (d == TOP <==> d.back == Null) {
      MidWF(s, d.pre, MidBase(d), l, a0, pre0, post);
    }
  }

  lemma {:induction false} LocatedTop(t: Tree, c: Ctx, sub: Tree, d: Ctx)
    requires Located(t, c, sub, d)
    ensures d.back == Null ==> t == sub && c == d
    decreases t
  {
    if t == sub && c == d {
    } else if t.Node? {
      var i: Nibble :| i < |t.slots| && Meta(t.slots[i]) && Located(t.slots[i], Below(t, c, i), sub, d);
      LocatedTop(t.slots[i], Below(t, c, i), sub, d);
    } else {
      LocatedTop(t.next, Behind(t), sub, d);
    }
  }

  // ------------------------------------------------- the whole array

  /** The leaves after an insertion: the new one in, the one it supersedes out. */
  ghost predicate AddsOnly(t: Tree, l: Leaf, t': Tree) {
    Leaves(t') + Superseded(t, l.key) == Leaves(t) + multiset{l}
  }

  lemma {:induction false} OneItem(b: seq<Tree>, l: Leaf, s: seq<Tree>)
    requires |b| > 0 && (forall i :: 0 <= i < |b| ==> b[i] == Empty) && s == b[0 := Item(l)]
    ensures Items(Ptrs(s)) == multiset{l} && BranchLeaves(s) == multiset{}
  {
    NoItems(b);
    ItemsFill(b, 0, Item(l));
    NoBranches(s);
  }

  lemma {:induction false} FirstLeaf(l: Leaf, t': Tree)
    requires t'.Node? && t'.slots == Blank()[0 := Item(l)]
    ensures WF(t', []) && Distinct(t') && Leaves(t') == multiset{l}
  {
    OneItem(Blank(), l, t'.slots);
    assert Fits(l, t'.slots, []);
    assert LeavesFit(multiset{l}, t'.slots, []);
    assert forall i :: 0 <= i < 16 ==> !Meta(t'.slots[i]) && Addrs(t'.slots[i]) == {};
  }

  lemma {:induction false} SubstSum(t: Tree, sub: Tree, d: Ctx, u: Tree, gone: multiset<Leaf>, l: Leaf)
    requires Located(t, TOP, sub, d) && Distinct(t) && Meta(sub) && Meta(u)
    requires Leaves(u) + gone == Leaves(sub) + multiset{l}
    ensures Leaves(Subst(t, sub.addr, u)) + gone == Leaves(t) + multiset{l}
  {
    SubstLeaves(t, TOP, sub, d, u);
    TradeSum(Leaves(Subst(t, sub.addr, u)), Leaves(t), Leaves(sub), Leaves(u), gone, multiset{l});
  }

  lemma {:induction false} NonEmpty(t: Tree, l: Leaf, gone: multiset<Leaf>, t': Tree)
    requires Leaves(t') + gone == Leaves(t) + multiset{l} && |gone| <= 1 && |Leaves(t)| > 0
    ensures |Leaves(t')| > 0
  {
    assert |Leaves(t') + gone| == |Leaves(t) + multiset{l}|;
  }

  lemma {:induction false} TerminalShape(t: Tree, l: Leaf, n: Tree, d: Ctx, u: Tree)
    requires Array(t) && t != Empty && Walk(t, TOP, l.key) == TerminalNode(n, d)
    requires Grows(n, d, l, u) && Meta(u)
    ensures Located(t, TOP, n, d) && WF(n, d.pre) && WF(u, d.pre)
    ensures u.Shortcut? <==> Full(n) && Lacks(n, l.key) && Clusters(n.slots, |d.pre|, l)
    ensures Leaves(u) + Superseded(t, l.key) == Leaves(n) + multiset{l}
  {
    assert Located(t, TOP, n, d) && n.Node? && WF(n, d.pre) && Fits(l, n.slots, d.pre) by { WalkLocated(t, TOP, l.key); }
    TerminalGrows(n, d, l, u);
  }

  /** Insertion at the terminal node of the walk, everywhere in the tree. */
  lemma {:induction false} TerminalAdds(t: Tree, l: Leaf, n: Tree, d: Ctx, u: Tree)
    requires Array(t) && t != Empty && Walk(t, TOP, l.key) == TerminalNode(n, d)
    requires Grows(n, d, l, u) && Meta(u)
    ensures Located(t, TOP, n, d) && WF(n, d.pre) && WF(u, d.pre)
    ensures u.Shortcut? <==> Full(n) && Lacks(n, l.key) && Clusters(n.slots, |d.pre|, l)
    ensures AddsOnly(t, l, Subst(t, n.addr, u))
  {
    TerminalShape(t, l, n, d, u);
    SubstSum(t, n, d, u, Superseded(t, l.key), l);
  }

  lemma {:induction false} PlacedArray(t: Tree, sub: Tree, d: Ctx, u: Tree, gone: multiset<Leaf>, l: Leaf)
    requires Array(t) && t != Empty && Located(t, TOP, sub, d) && Meta(sub) && Fresh(t, sub, u)
    requires WF(u, d.pre) && (d.back.ShortcutPtr? ==> u.Node?)
    requires Leaves(Subst(t, sub.addr, u)) + gone == Leaves(t) + multiset{l} && |gone| <= 1
    ensures Array(Subst(t, sub.addr, u))
  {
    SubstWF(t, TOP, sub, d, u);
    SubstAddrs(t, TOP, sub, d, u);
    NonEmpty(t, l, gone, Subst(t, sub.addr, u));
  }

  lemma {:induction false} TerminalStep(t: Tree, l: Leaf, n: Tree, d: Ctx, u: Tree)
    requires Array(t) && t != Empty && Walk(t, TOP, l.key) == TerminalNode(n, d)
    requires Grows(n, d, l, u) && Fresh(t, n, u)
    ensures AddsOnly(t, l, Subst(t, n.addr, u))
    ensures Safe(t, l.key) ==> Array(Subst(t, n.addr, u))
  {
    TerminalAdds(t, l, n, d, u);
    if Safe(t, l.key) {
      assert Clusters(n.slots, |d.pre|, l) ==> Clusters(n.slots, |d.pre|, Leaf(l.key, 0));
      PlacedArray(t, n, d, u, Superseded(t, l.key), l);
    }
  }

  lemma {:induction false} MidStep(t: Tree, l: Leaf, s: Tree, d: Ctx, u: Tree)
    requires Array(t) && t != Empty && Walk(t, TOP, l.key) == WrongShortcut(s, d)
    requires Grows(s, d, l, u) && Fresh(t, s, u)
    ensures AddsOnly(t, l, Subst(t, s.addr, u))
    ensures Safe(t, l.key) ==> Array(Subst(t, s.addr, u))
  {
    WalkLocated(t, TOP, l.key);
    LocatedTop(t, TOP, s, d);
    LocatedWF(t, TOP, s, d);
    MidGrows(s, d, l, u);
    SubstSum(t, s, d, u, multiset{}, l);
    if Safe(t, l.key) {
      PlacedArray(t, s, d, u, multiset{}, l);
    }
  }

  /** A safe insertion yields an array again, and only the one binding moves. */
  lemma {:induction false} InsertKeepsArray(t: Tree, l: Leaf, t': Tree)
    requires Array(t) && InsertStep(t, l, t')
    ensures AddsOnly(t, l, t')
    ensures Safe(t, l.key) ==> Array(t')
  {
    match Walk(t, TOP, l.key)
    case TreeEmpty =>
      FirstLeaf(l, t');
      assert multiset{l} + multiset{} == multiset{} + multiset{l};
    case TerminalNode(n, d) =>
      var u :| Grows(n, d, l, u) && Fresh(t, n, u) && t' == Subst(t, n.addr, u);
      TerminalStep(t, l, n, d, u);
    case WrongShortcut(s, d) =>
      var u :| Grows(s, d, l, u) && Fresh(t, s, u) && t' == Subst(t, s.addr, u);
      MidStep(t, l, s, d, u);
  }

  lemma {:induction false} AddedCounts(a: multiset<Leaf>, l: Leaf, gone: multiset<Leaf>, b: multiset<Leaf>, x: Leaf)
    requires b + gone == a + multiset{l} && gone <= a && forall y :: y in gone ==> y.key == l.key
    ensures x == l ==> x in b
    ensures x.key != l.key ==> (x in b <==> x in a)
  {
    assert (b + gone)[x] == (a + multiset{l})[x];
  }

  lemma {:induction false} AddedAt(a: multiset<Leaf>, l: Leaf, gone: multiset<Leaf>, b: multiset<Leaf>, k: Key)
    requires b + gone == a + multiset{l} && gone <= a && forall y :: y in gone ==> y.key == l.key
    requires Unique(a) && Unique(b)
    ensures k in MapOf(b) <==> k == l.key || k in MapOf(a)
    ensures k in MapOf(b) ==> MapOf(b)[k] == if k == l.key then l.obj else MapOf(a)[k]
  {
    if k == l.key {
      AddedCounts(a, l, gone, b, l);
    } else if k in MapOf(a) {
      AddedCounts(a, l, gone, b, Leaf(k, MapOf(a)[k]));
    } else if k in MapOf(b) {
      AddedCounts(a, l, gone, b, Leaf(k, MapOf(b)[k]));
    }
  }

  /** Adding a leaf to the leaves is adding a binding to the map. */
  lemma {:induction false} AddedMap(a: multiset<Leaf>, l: Leaf, gone: multiset<Leaf>, b: multiset<Leaf>)
    requires b + gone == a + multiset{l} && gone <= a && forall y :: y in gone ==> y.key == l.key
    requires Unique(a) && Unique(b)
    ensures MapOf(b) == MapOf(a)[l.key := l.obj]
  {
    var m, n := MapOf(b), MapOf(a);
    forall k: Key ensures k in m <==> k == l.key || k in n {
      AddedAt(a, l, gone, b, k);
    }
    forall k: Key | k in m ensures m[k] == if k == l.key then l.obj else n[k] {
      AddedAt(a, l, gone, b, k);
    }
    UpdatedMap(m, n, l);
  }

  lemma {:induction false} UpdatedMap(m: map<Key, Obj>, n: map<Key, Obj>, l: Leaf)
    requires forall k: Key :: k in m <==> k == l.key || k in n
    requires forall k: Key :: k in m ==> m[k] == if k == l.key then l.obj else n[k]
    ensures m == n[l.key := l.obj]
  {
  }

  lemma {:induction false} SupersededLeaf(t: Tree, k: Key)
    requires Array(t)
    ensures Superseded(t, k) <= Leaves(t) && forall y :: y in Superseded(t, k) ==> y.key == k
  {
    FindBinds(t, k);
  }

  lemma {:induction false} AddsOnlyContents(t: Tree, l: Leaf, t': Tree)
    requires Array(t) && AddsOnly(t, l, t') && Unique(Leaves(t)) && Unique(Leaves(t'))
    ensures Contents(t') == Contents(t)[l.key := l.obj]
  {
    SupersededLeaf(t, l.key);
    AddedMap(Leaves(t), l, Superseded(t, l.key), Leaves(t'));
  }

  /** The map after a safe insertion is the old map with the one binding added. */
  lemma {:induction false} InsertRefinesMap(t: Tree, l: Leaf, t': Tree)
    requires Array(t) && InsertStep(t, l, t') && Safe(t, l.key)
    ensures Array(t') && Unique(Leaves(t)) && Unique(Leaves(t'))
    ensures Contents(t') == Contents(t)[l.key := l.obj]
  {
    InsertKeepsArray(t, l, t');
    ArrayUnique(t);
    ArrayUnique(t');
    AddsOnlyContents(t, l, t');
  }
}
