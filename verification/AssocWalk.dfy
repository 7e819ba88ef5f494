/**
 Navigation: the walk that every lookup, insertion and deletion starts with, and
 the lookup built on it.
 */
module AssocWalk {
  import opened Common
  import opened AssocTree
  import opened AssocPlace

  /**
   What the walk reports.  `Confused` stands for following a shortcut to
   something that is not a node, where the source reads a shortcut as if it were
   a node; no well-formed tree leads there.
   */
  datatype WalkResult =
    | TreeEmpty
    | TerminalNode(node: Tree, at: Ctx)
    | WrongShortcut(shortcut: Tree, at: Ctx)
    | Confused

  function Walk(t: Tree, c: Ctx, k: Key): (r: WalkResult)
    ensures r.TerminalNode? ==> r.node.Node? && |r.node.slots| == 16 && |r.at.pre| < 16
    ensures r.WrongShortcut? ==> r.shortcut.Shortcut? && !(r.shortcut.prefix <= k)
    decreases t
  {
    match t
    case Node(_, slots) =>
      if |c.pre| >= 16 || |slots| != 16 then Confused
      else
        var i := k[|c.pre|];
        if Meta(slots[i]) then Walk(slots[i], Below(t, c, i), k) else TerminalNode(t, c)
    case Shortcut(_, p, next) =>
      if !(p <= k) then WrongShortcut(t, c)
      else if next.Node? then Walk(next, Behind(t), k)
      else Confused
    case _ => TreeEmpty
  }

  /** The object stored under `k` in one of the slots, if any. */
  function Search(ps: seq<Ptr>, k: Key): Option<Obj> {
    if ps == [] then None
    else if ps[0].LeafPtr? && ps[0].leaf.key == k then Some(ps[0].leaf.obj)
    else Search(ps[1..], k)
  }

  /** What a lookup gives: an object, nothing, or whatever lies where a shortcut is read as a node. */
  datatype Answer = Found(obj: Obj) | Absent | Misread

  function AsAnswer(o: Option<Obj>): Answer {
    match o case Some(x) => Found(x) case None => Absent
  }

  function Find(t: Tree, k: Key): Answer {
    match Walk(t, TOP, k)
    case TerminalNode(n, _) => AsAnswer(Search(Ptrs(n.slots), k))
    case Confused => Misread
    case _ => Absent
  }

  /** The bindings of a tree with unique keys. */
  ghost predicate Binds(t: Tree, k: Key, o: Obj) {
    Leaf(k, o) in Leaves(t)
  }

  /** A whole array: nothing at all, or a well-formed tree with at least one leaf. */
  ghost predicate Array(t: Tree) {
    t == Empty || (WF(t, []) && Distinct(t) && |Leaves(t)| > 0)
  }

  ghost predicate StandsFor(m: map<Key, Obj>, ms: multiset<Leaf>) {
    && (forall x :: x in ms ==> x.key in m && m[x.key] == x.obj)
    && (forall k :: k in m ==> Leaf(k, m[k]) in ms)
  }

  lemma {:induction false} SomeMap(ms: multiset<Leaf>)
    requires Unique(ms)
    ensures exists m :: StandsFor(m, ms)
  {
    var m := map x | x in ms :: x.key := x.obj;
    assert StandsFor(m, ms);
  }

  /** The map that leaves with unique keys stand for. */
  ghost function MapOf(ms: multiset<Leaf>): (m: map<Key, Obj>)
    requires Unique(ms)
    ensures StandsFor(m, ms)
  {
    SomeMap(ms);
    var m :| StandsFor(m, ms);
    m
  }

  /** The map an array stands for. */
  ghost function Contents(t: Tree): map<Key, Obj>
    requires Unique(Leaves(t))
  {
    MapOf(Leaves(t))
  }

  lemma {:induction false} WalkLocated(t: Tree, c: Ctx, k: Key)
    requires WF(t, c.pre) && c.pre <= k
    ensures match Walk(t, c, k)
            case TerminalNode(n, d) => Located(t, c, n, d) && n.Node? && WF(n, d.pre) && d.pre <= k && !Meta(n.slots[k[|d.pre|]])
            case WrongShortcut(s, d) => Located(t, c, s, d) && s.Shortcut? && WF(s, d.pre) && d.pre <= k && !(s.prefix <= k)
            case _ => false
    decreases t
  {
    if t.Node? {
      var i := k[|c.pre|];
      if Meta(t.slots[i]) {
        assert c.pre + [i] <= k;
        WalkLocated(t.slots[i], Below(t, c, i), k);
      }
    } else if t.prefix <= k {
      WalkLocated(t.next, Behind(t), k);
    }
  }

  /** A key is in the tree exactly when the walk's last node holds it. */
  lemma {:induction false} WalkFinds(t: Tree, c: Ctx, x: Leaf)
    requires WF(t, c.pre) && c.pre <= x.key
    ensures x in Leaves(t) <==>
            match Walk(t, c, x.key)
            case TerminalNode(n, _) => x in Items(Ptrs(n.slots))
            case _ => false
    decreases t
  {
    var k := x.key;
    if t.Shortcut? {
      if t.prefix <= k {
        WalkFinds(t.next, Behind(t), x);
      } else if x in Leaves(t) {
        LeavesPrefix(t.next, t.prefix);
      }
    } else {
      var i := k[|c.pre|];
      if x in BranchLeaves(t.slots) {
        BranchSegment(t, c.pre, x);
      }
      if Meta(t.slots[i]) {
        assert c.pre + [i] <= k;
        WalkFinds(t.slots[i], Below(t, c, i), x);
        BranchLeavesAt(t.slots, x);
      }
    }
  }

  lemma {:induction false} SearchItems(ps: seq<Ptr>, k: Key)
    requires Unique(Items(ps))
    ensures forall o :: Search(ps, k) == Some(o) <==> Leaf(k, o) in Items(ps)
    ensures Search(ps, k) == None <==> forall x :: x in Items(ps) ==> x.key != k
  {
    if ps != [] {
      UniquePart(ItemOf(ps[0]), Items(ps[1..]));
      SearchItems(ps[1..], k);
      if ps[0].LeafPtr? && ps[0].leaf.key == k {
        assert ps[0].leaf in Items(ps);
      }
    }
  }

  lemma {:induction false} UniquePart(a: multiset<Leaf>, b: multiset<Leaf>)
    requires Unique(a + b)
    ensures Unique(a) && Unique(b)
  {}

  /** Lookup returns exactly the object bound to the key. */
  lemma {:induction false} FindBinds(t: Tree, k: Key)
    requires Array(t)
    ensures Find(t, k) != Misread && forall o :: Find(t, k) == Found(o) <==> Binds(t, k, o)
  {
    if t != Empty {
      WalkLocated(t, TOP, k);
      var r := Walk(t, TOP, k);
      if r.TerminalNode? { SearchItems(Ptrs(r.node.slots), k); }
      forall o { WalkFinds(t, TOP, Leaf(k, o)); }
    }
  }

  lemma {:induction false} ArrayUnique(t: Tree)
    requires Array(t)
    ensures Unique(Leaves(t))
  {
    if t != Empty { LeavesUnique(t, []); }
  }

  /** Lookup agrees with the map the array stands for, on present and absent keys. */
  lemma {:induction false} FindIsMapLookup(t: Tree, k: Key)
    requires Array(t) && Unique(Leaves(t))
    ensures Find(t, k) == if k in Contents(t) then Found(Contents(t)[k]) else Absent
  {
    FindBinds(t, k);
    if k in Contents(t) {
      assert Binds(t, k, Contents(t)[k]);
    } else {
      assert Find(t, k).Found? ==> Binds(t, k, Find(t, k).obj);
    }
  }

  ghost function Lookup(m: map<Key, Obj>, k: Key): Answer {
    if k in m then Found(m[k]) else Absent
  }

  lemma {:induction false} FindIn(t: Tree, m: map<Key, Obj>, k: Key)
    requires Array(t) && Unique(Leaves(t)) && m == Contents(t)
    ensures Find(t, k) == Lookup(m, k)
  {
    FindIsMapLookup(t, k);
  }
}
