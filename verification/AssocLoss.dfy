/**
 Both ways in which an insertion goes wrong can be reached.  Seventeen insertions
 lead to an array whose root shortcut the next key leaves at its second segment; the
 leaf just inserted is then not found.  One deletion later the array has a full node
 of leaves behind a shortcut; inserting a key that clusters with them puts a shortcut
 behind the shortcut, and a lookup reads it as a node.
 */
module AssocLoss {
  import opened AssocTree
  import opened AssocPlace
  import opened AssocWalk
  import opened AssocInsert
  import opened AssocRefine
  import AssocExact
  import opened AssocDelete

  function Padded(s: seq<Nibble>): Key
    requires |s| <= 16
  {
    s + seq(16 - |s|, _ => 0)
  }

  /** Sixteen leaves that differ in their fourth segment, and one that differs from them in the third. */
  function Held(a: Nibble): Leaf {
    Leaf(Padded([0, 0, 0, a]), a)
  }

  const OTHER := Leaf(Padded([0, 0, 1]), 16)

  /** The leaf that leaves the root shortcut early, and the one that clusters with the sixteen. */
  const STRAY := Leaf(Padded([0, 1]), 17)
  const CROWD := Leaf(Padded([0, 0, 0, 0, 1]), 18)

  /** The slots after `j` of the sixteen were inserted: the first in slot 0, the others from the end. */
  function Slots(j: nat): (s: seq<Tree>)
    ensures |s| == 16
  {
    seq(16, i requires 0 <= i < 16 => if i == 0 then Item(Held(0)) else if 16 - i < j then Item(Held(16 - i)) else Empty)
  }

  function Root(j: nat): Tree {
    Node(0, Slots(j))
  }

  // ------------------------------------------------------------ the leaves

  lemma {:induction false} Keys(a: Nibble)
    ensures Held(a).key[0] == Held(a).key[1] == Held(a).key[2] == 0 && Held(a).key[3] == a
    ensures Held(a).key[..3] == [0, 0, 0] && Held(a).key[..2] == [0, 0]
    ensures Held(a).key != OTHER.key && Held(a).key != CROWD.key
  {
    assert OTHER.key[2] == 1 && CROWD.key[4] == 1 && Held(a).key[4] == 0;
  }

  /** Every leaf in the slots is one of the sixteen, in its slot. */
  lemma {:induction false} SlotsHold(j: nat, x: Leaf)
    requires 1 <= j <= 16
    ensures x in Items(Ptrs(Slots(j))) <==> exists a: Nibble :: a < j && x == Held(a)
  {
    var s := Slots(j);
    ItemsAt(Ptrs(s), x);
    if x in Items(Ptrs(s)) {
      var i :| 0 <= i < 16 && Ptrs(s)[i] == LeafPtr(x);
      assert s[i] == Item(x);
      var a: Nibble := if i == 0 then 0 else 16 - i;
      assert x == Held(a);
    }
    if exists a: Nibble :: a < j && x == Held(a) {
      var a: Nibble :| a < j && x == Held(a);
      var i := if a == 0 then 0 else 16 - a;
      assert Ptrs(s)[i] == LeafPtr(x);
    }
  }

  lemma {:induction false} SlotsLack(j: nat, k: Key)
    requires 1 <= j <= 16 && forall a: Nibble :: a < j ==> Held(a).key != k
    ensures Lacks(Root(j), k)
  {
    forall x | x in Items(Ptrs(Slots(j))) ensures x.key != k { SlotsHold(j, x); }
  }

  lemma {:induction false} LeafNode(a: Addr, s: seq<Tree>)
    requires |s| == 16 && forall i :: 0 <= i < 16 ==> !Meta(s[i])
    ensures Distinct(Node(a, s)) && Addrs(Node(a, s)) == {a} && AddrsOf(s) == {}
  {
    assert forall i :: 0 <= i < 16 ==> Addrs(s[i]) == {} && Distinct(s[i]);
  }

  // -------------------------------------------------------- the insertions

  lemma {:induction false} FirstStep()
    ensures Step(Empty, Insert(Held(0)), Root(1))
  {
    assert Slots(1) == Blank()[0 := Item(Held(0))];
  }

  lemma {:induction false} NextSettles(j: nat)
    requires 1 <= j < 16
    ensures Settles(Root(j), Held(j), 16 - j, Root(j + 1)) && !Full(Root(j))
  {
    HeldApart(j);
    SlotsLack(j, Held(j).key);
    SlotsNext(j);
  }

  lemma {:induction false} HeldApart(j: Nibble)
    ensures forall a: Nibble :: a < j ==> Held(a).key != Held(j).key
  {
    forall a: Nibble | a < j ensures Held(a).key != Held(j).key { Keys(a); Keys(j); }
  }

  lemma {:induction false} SlotsNext(j: nat)
    requires 1 <= j < 16
    ensures Slots(j)[16 - j] == Empty && Slots(j + 1) == Slots(j)[16 - j := Item(Held(j))]
  {}

  lemma {:induction false} GrownHere(t: Tree, n: Tree, d: Ctx, l: Leaf, u: Tree)
    requires Walk(t, TOP, l.key) == TerminalNode(n, d) && Grows(n, d, l, u) && Fresh(t, n, u)
    ensures InsertStep(t, l, Subst(t, n.addr, u))
  {}

  lemma {:induction false} NextStep(j: nat)
    requires 1 <= j < 16
    ensures Step(Root(j), Insert(Held(j)), Root(j + 1))
  {
    NextSettles(j);
    Keys(j);
    LeafNode(0, Slots(j + 1));
    assert Walk(Root(j), TOP, Held(j).key) == TerminalNode(Root(j), TOP);
    GrownHere(Root(j), Root(j), TOP, Held(j), Root(j + 1));
  }

  lemma {:induction false} RunTo(j: nat) returns (h: History)
    requires 1 <= j <= 16
    ensures Run(h) && Now(h) == Root(j)
  {
    if j == 1 {
      FirstStep();
      h := Then(Start, Insert(Held(0)), Root(1));
    } else {
      h := RunTo(j - 1);
      NextStep(j - 1);
      h := Then(h, Insert(Held(j - 1)), Root(j));
    }
  }

  // ------------------------------------------------- sixteen leaves and two

  /** A key of the sixteen; the first has a zero where the others differ. */
  predicate Grouped(k: Key, first: bool) {
    k[..2] == [0, 0] && k[..3] == [0, 0, 0] && k[0] == k[2] == k[4] == 0 && (k[3] == 0 <==> first)
  }

  /** A full node of such leaves. */
  ghost predicate Group(s: seq<Tree>) {
    |s| == 16 && forall i :: 0 <= i < 16 ==> s[i].Item? && Grouped(s[i].leaf.key, i == 0)
  }

  /** Leaves the group at its third segment, leaves the root shortcut at the second, clusters with the group. */
  predicate IsOther(l: Leaf) {
    l.key[..2] == [0, 0] && [0, 0] <= l.key && l.key[0] == 0 && l.key[2] == 1
  }

  predicate IsStray(l: Leaf) {
    !([0, 0] <= l.key) && l.key[0] == 0 && l.key[1] == 1
  }

  predicate IsCrowd(l: Leaf) {
    l.key[..3] == [0, 0, 0] && [0, 0] <= l.key && l.key[2] == l.key[3] == 0 && l.key[4] == 1
  }

  lemma {:induction false} Cast()
    ensures Group(Slots(16)) && IsOther(OTHER) && IsStray(STRAY) && IsCrowd(CROWD)
  {
    forall i | 0 <= i < 16 ensures Slots(16)[i].Item? && Grouped(Slots(16)[i].leaf.key, i == 0) {
      Keys(if i == 0 then 0 else 16 - i);
    }
    var p: seq<Nibble> := [0, 0];
    assert p[1] != STRAY.key[1];
  }

  lemma {:induction false} GroupLeaf(s: seq<Tree>, x: Leaf)
    requires Group(s) && x in Items(Ptrs(s))
    ensures exists i :: 0 <= i < 16 && s[i] == Item(x) && Grouped(x.key, i == 0)
  {
    ItemsAt(Ptrs(s), x);
    var i :| 0 <= i < 16 && Ptrs(s)[i] == LeafPtr(x);
    assert s[i] == Item(x);
  }

  lemma {:induction false} TwoAtLeast(ms: multiset<Leaf>, x: Leaf, y: Leaf)
    requires x in ms && y in ms && x != y
    ensures |ms| >= 2
  {
    assert ms == multiset{x, y} + (ms - multiset{x, y});
  }

  lemma {:induction false} ItemsFew(ps: seq<Ptr>)
    ensures |Items(ps)| <= |ps|
  {
    if ps != [] { ItemsFew(ps[1..]); }
  }

  lemma {:induction false} GroupSize(s: seq<Tree>)
    requires Group(s)
    ensures 2 <= |Items(Ptrs(s))| <= 16
  {
    ItemsFew(Ptrs(s));
    ItemsAt(Ptrs(s), s[0].leaf);
    ItemsAt(Ptrs(s), s[1].leaf);
    assert Ptrs(s)[0] == LeafPtr(s[0].leaf) && Ptrs(s)[1] == LeafPtr(s[1].leaf);
    TwoAtLeast(Items(Ptrs(s)), s[0].leaf, s[1].leaf);
  }

  lemma {:induction false} GroupClusters(s: seq<Tree>, a: Addr, l: Leaf, level: nat)
    requires Group(s) && ((IsOther(l) && level == 0) || (IsCrowd(l) && level == 2))
    ensures Clusters(s, level, l) && Full(Node(a, s)) && Lacks(Node(a, s), l.key)
  {
    forall x | x in Items(Ptrs(s)) ensures x.key != l.key { GroupLeaf(s, x); }
  }

  // ------------------------------------------------------- the seventeenth

  /** After the seventeenth insertion. */
  function Clustered(s: seq<Tree>, o: Leaf): Tree {
    Shortcut(3, [0, 0], Node(1, MidSlots(0, Node(2, s), o)))
  }

  lemma {:induction false} OtherSplits(s: seq<Tree>, o: Leaf)
    requires Group(s) && IsOther(o)
    ensures Splits(s, o, 2, 0, 2, MidSlots(0, Node(2, s), o), s)
  {
    assert 2 <= |Items(Ptrs(s))| by { GroupSize(s); }
    assert Items(Ptrs(MidSlots(0, Node(2, s), o))) == multiset{o} by { MidItems(0, Node(2, s), o); }
    MidMeta(0, Node(2, s), o);
    Commute(multiset{o}, Items(Ptrs(s)));
    GroupSegment(s);
  }

  lemma {:induction false} Commute(a: multiset<Leaf>, b: multiset<Leaf>)
    ensures a + b == b + a
  {}

  lemma {:induction false} GroupSegment(s: seq<Tree>)
    requires Group(s)
    ensures forall x :: x in Items(Ptrs(s)) ==> x.key[2] == 0
  {
    forall x | x in Items(Ptrs(s)) ensures x.key[2] == 0 { GroupLeaf(s, x); }
  }

  lemma {:induction false} OtherGrows(s: seq<Tree>, o: Leaf, a: Addr)
    requires Group(s) && IsOther(o)
    ensures Grows(Node(a, s), TOP, o, Clustered(s, o))
  {
    GroupClusters(s, a, o, 0);
    OtherSplits(s, o);
    assert SplitsInto(s, o, 2, Clustered(s, o).next);
    assert DivergesAt(s, o, 2) by { assert s[0].leaf.key[2] != o.key[2]; }
  }

  lemma {:induction false} MidAddrs(a: Addr, rest: Tree, l: Leaf)
    requires Meta(rest) && Distinct(rest) && a !in Addrs(rest)
    ensures Distinct(Node(a, MidSlots(0, rest, l))) && Addrs(Node(a, MidSlots(0, rest, l))) == {a} + Addrs(rest)
  {
    var s := MidSlots(0, rest, l);
    assert s[0] == rest;
    assert forall i :: 1 <= i < 16 ==> Addrs(s[i]) == {} && Distinct(s[i]);
    assert AddrsOf(s) == Addrs(rest);
  }

  lemma {:induction false} ClusteredAddrs(s: seq<Tree>, o: Leaf)
    requires Group(s)
    ensures Distinct(Clustered(s, o)) && Addrs(Clustered(s, o)) == {1, 2, 3}
    ensures Distinct(Clustered(s, o).next) && Addrs(Clustered(s, o).next) == {1, 2}
  {
    LeafNode(2, s);
    MidAddrs(1, Node(2, s), o);
  }

  lemma {:induction false} OtherStep(s: seq<Tree>, o: Leaf)
    requires Group(s) && IsOther(o)
    ensures Step(Node(0, s), Insert(o), Clustered(s, o))
  {
    var t, u := Node(0, s), Clustered(s, o);
    OtherGrows(s, o, 0);
    ClusteredAddrs(s, o);
    assert Walk(t, TOP, o.key) == TerminalNode(t, TOP);
    GrownHere(t, t, TOP, o, u);
  }

  /** Seventeen safe insertions lead to a root shortcut. */
  lemma {:induction false} ClusteredReached() returns (h: History)
    ensures Run(h) && Now(h) == Clustered(Slots(16), OTHER)
  {
    h := RunTo(16);
    Cast();
    OtherStep(Slots(16), OTHER);
    h := Then(h, Insert(OTHER), Clustered(Slots(16), OTHER));
  }

  // ------------------------------------------------- the root split too early

  /** What the insertion of the stray leaf makes of it. */
  function Strayed(t: Tree, l: Leaf): Tree
    requires t.Shortcut?
  {
    Node(4, MidSlots(0, t.next, l))
  }

  lemma {:induction false} StrayStep(t: Tree, l: Leaf)
    requires t.Shortcut? && t.prefix == [0, 0] && Meta(t.next) && Distinct(t.next) && 4 !in Addrs(t.next) && IsStray(l)
    ensures InsertStep(t, l, Strayed(t, l)) && !Safe(t, l.key) && FirstDiff(t.prefix, l.key) == 1 && Strayed(t, l) == MidNode(t, l, 4, 4)
  {
    var u := Strayed(t, l);
    assert Walk(t, TOP, l.key) == WrongShortcut(t, TOP);
    assert t.prefix[1] != l.key[1] && t.prefix[0] == l.key[0];
    assert u == MidSplit(t, MidBase(TOP), l, 4, 4, 4);
    MidAddrs(4, t.next, l);
    assert Grows(t, TOP, l, u) && Fresh(t, t, u) && Subst(t, t.addr, u) == u;
  }

  /** A run, an insertion the code then performs, and a lookup that misses the leaf just inserted. */
  lemma {:induction false} InsertedKeyLost()
    ensures exists h, t' :: Run(h) && InsertStep(Now(h), STRAY, t') && Find(t', STRAY.key) == Absent
  {
    var h := ClusteredReached();
    RunContents(h);
    Cast();
    StrayLost(Slots(16), OTHER, STRAY);
  }

  lemma {:induction false} StrayLost(s: seq<Tree>, o: Leaf, l: Leaf)
    requires Group(s) && IsStray(l) && Array(Clustered(s, o))
    ensures exists t' :: InsertStep(Clustered(s, o), l, t') && Find(t', l.key) == Absent
  {
    var t := Clustered(s, o);
    ClusteredAddrs(s, o);
    StrayStep(t, l);
    AssocExact.NewKeyLost(t, l, 4, 4);
  }

  // ---------------------------------------------------------- the deletion

  /** After the deletion of the seventeenth leaf. */
  function Collapsed(s: seq<Tree>): Tree {
    Shortcut(3, [0, 0], Node(4, s))
  }

  lemma {:induction false} ClusteredLeaves(s: seq<Tree>, o: Leaf)
    requires Group(s)
    ensures Leaves(Clustered(s, o).next) == multiset{o} + Items(Ptrs(s)) && 2 <= |Leaves(Clustered(s, o))| <= 17
  {
    assert Leaves(Node(2, s)) == Items(Ptrs(s)) by {
      NoBranches(s);
      NothingMore(Items(Ptrs(s)));
    }
    MidItems(0, Node(2, s), o);
    GroupSize(s);
    Sizes(multiset{o}, Items(Ptrs(s)));
  }

  lemma {:induction false} NothingMore(a: multiset<Leaf>)
    ensures a + multiset{} == a
  {}

  lemma {:induction false} Sizes(a: multiset<Leaf>, b: multiset<Leaf>)
    ensures |a + b| == |a| + |b|
  {}

  lemma {:induction false} OtherWalk(s: seq<Tree>, o: Leaf)
    requires IsOther(o)
    ensures Walk(Clustered(s, o), TOP, o.key) == TerminalNode(Clustered(s, o).next, Behind(Clustered(s, o)))
  {
    assert Clustered(s, o).next.slots[1] == Item(o);
  }

  lemma {:induction false} OtherRemoved(s: seq<Tree>, o: Leaf)
    requires Group(s) && IsOther(o)
    ensures Removes(Clustered(s, o), o, Clustered(s, o).next, Behind(Clustered(s, o)), Collapsed(s))
  {
    var t, n, u := Clustered(s, o), Clustered(s, o).next, Node(4, s);
    ClusteredSmall(s, o);
    CollapsedPacked(s, o);
    CollapsedFresh(s, o);
    assert Packed(u, Leaves(n) - multiset{o}) && Fresh(t, n, u) && Collapsed(s) == Subst(t, n.addr, u);
  }

  lemma {:induction false} ClusteredSmall(s: seq<Tree>, o: Leaf)
    requires Group(s) && IsOther(o)
    ensures var t := Clustered(s, o); |Leaves(t)| != 1 && FirstSmall(t, TOP, o.key) == At(t.next, Behind(t)) && AssocExact.HasMeta(t.next)
  {
    ClusteredLeaves(s, o);
    assert Meta(Clustered(s, o).next.slots[0]);
  }

  lemma {:induction false} CollapsedPacked(s: seq<Tree>, o: Leaf)
    requires Group(s)
    ensures Packed(Node(4, s), Leaves(Clustered(s, o).next) - multiset{o})
  {
    ClusteredLeaves(s, o);
  }

  lemma {:induction false} CollapsedFresh(s: seq<Tree>, o: Leaf)
    requires Group(s)
    ensures Fresh(Clustered(s, o), Clustered(s, o).next, Node(4, s)) && Collapsed(s) == Subst(Clustered(s, o), 1, Node(4, s))
  {
    ClusteredAddrs(s, o);
    LeafNode(4, s);
  }

  lemma {:induction false} OtherGone(s: seq<Tree>, o: Leaf)
    requires Group(s) && IsOther(o) && Array(Clustered(s, o))
    ensures Step(Clustered(s, o), Delete(o.key), Collapsed(s))
  {
    var t := Clustered(s, o);
    ClusteredLeaves(s, o);
    OtherWalk(s, o);
    OtherRemoved(s, o);
    FindBinds(t, o.key);
    assert Leaf(o.key, o.obj) == o && Binds(t, o.key, o.obj);
  }

  lemma {:induction false} CollapsedReached() returns (h: History)
    ensures Run(h) && Now(h) == Collapsed(Slots(16))
  {
    h := ClusteredReached();
    RunContents(h);
    Cast();
    OtherGone(Slots(16), OTHER);
    h := Then(h, Delete(OTHER.key), Collapsed(Slots(16)));
  }

  // ------------------------------------------- a shortcut behind a shortcut

  lemma {:induction false} CrowdWalk(s: seq<Tree>, l: Leaf)
    requires Group(s) && IsCrowd(l)
    ensures Walk(Collapsed(s), TOP, l.key) == TerminalNode(Node(4, s), Behind(Collapsed(s)))
  {
    assert !Meta(s[0]);
  }

  lemma {:induction false} CrowdUnsafe(s: seq<Tree>, l: Leaf)
    requires Group(s) && IsCrowd(l)
    ensures !Safe(Collapsed(s), l.key)
  {
    CrowdWalk(s, l);
    GroupClusters(s, 4, Leaf(l.key, 0), 2);
  }

  /** The two leaves that share the slot. */
  function Pair(x: Leaf, l: Leaf): (r: seq<Tree>)
    ensures |r| == 16
  {
    Blank()[0 := Item(x)][1 := Item(l)]
  }

  function Rest(s: seq<Tree>, l: Leaf): seq<Tree>
    requires |s| == 16 && s[0].Item?
  {
    s[0 := Node(6, Pair(s[0].leaf, l))]
  }

  function Crowded(s: seq<Tree>, l: Leaf): Tree
    requires |s| == 16 && s[0].Item?
  {
    Shortcut(7, [0, 0, 0], Node(5, Rest(s, l)))
  }

  lemma {:induction false} PairItems(x: Leaf, l: Leaf)
    ensures Items(Ptrs(Pair(x, l))) == multiset{x} + multiset{l} && forall i :: 0 <= i < 16 ==> !Meta(Pair(x, l)[i])
  {
    var b := Blank()[0 := Item(x)];
    OneItem(Blank(), x, b);
    ItemsFill(b, 1, Item(l));
  }

  lemma {:induction false} RestItems(s: seq<Tree>, l: Leaf)
    requires Group(s)
    ensures Items(Ptrs(Rest(s, l))) + multiset{s[0].leaf} == Items(Ptrs(s))
    ensures forall x :: x in Items(Ptrs(Rest(s, l))) ==> x.key[3] != 0
  {
    var r := Rest(s, l);
    ItemsSet(s, 0, r[0]);
    CancelNone(Items(Ptrs(r)) + multiset{s[0].leaf}, Items(Ptrs(s)));
    forall x | x in Items(Ptrs(r)) ensures x.key[3] != 0 {
      ItemsAt(Ptrs(r), x);
      var i :| 0 <= i < 16 && Ptrs(r)[i] == LeafPtr(x);
      assert i > 0 && s[i] == Item(x);
    }
  }

  lemma {:induction false} Regroup(a: multiset<Leaf>, b: multiset<Leaf>, x: multiset<Leaf>, l: multiset<Leaf>)
    requires a + x == b
    ensures a + (x + l) == b + l
  {}

  lemma {:induction false} CrowdSplits(s: seq<Tree>, l: Leaf)
    requires Group(s) && IsCrowd(l)
    ensures Splits(s, l, 3, 0, 6, Rest(s, l), Pair(s[0].leaf, l))
  {
    PairItems(s[0].leaf, l);
    RestItems(s, l);
    Regroup(Items(Ptrs(Rest(s, l))), Items(Ptrs(s)), multiset{s[0].leaf}, multiset{l});
  }

  lemma {:induction false} CrowdGrows(s: seq<Tree>, l: Leaf)
    requires Group(s) && IsCrowd(l)
    ensures Grows(Node(4, s), Behind(Collapsed(s)), l, Crowded(s, l))
  {
    GroupClusters(s, 4, l, 2);
    CrowdSplits(s, l);
    assert SplitsInto(s, l, 3, Crowded(s, l).next);
    assert DivergesAt(s, l, 3) by { assert s[1].leaf.key[3] != l.key[3]; }
  }

  lemma {:induction false} CrowdedAddrs(s: seq<Tree>, l: Leaf)
    requires Group(s)
    ensures Distinct(Crowded(s, l)) && Addrs(Crowded(s, l)) == {5, 6, 7}
  {
    var r := Rest(s, l);
    PairItems(s[0].leaf, l);
    LeafNode(6, Pair(s[0].leaf, l));
    assert r[0] == Node(6, Pair(s[0].leaf, l)) && Addrs(r[0]) == {6};
    assert forall i :: 1 <= i < 16 ==> r[i] == s[i] && Addrs(r[i]) == {} && Distinct(r[i]);
    assert AddrsOf(r) == {6};
  }

  lemma {:induction false} CrowdStep(s: seq<Tree>, l: Leaf)
    requires Group(s) && IsCrowd(l)
    ensures InsertStep(Collapsed(s), l, Subst(Collapsed(s), 4, Crowded(s, l)))
  {
    CrowdWalk(s, l);
    CrowdGrows(s, l);
    CrowdFresh(s, l);
    GrownHere(Collapsed(s), Node(4, s), Behind(Collapsed(s)), l, Crowded(s, l));
  }

  lemma {:induction false} CrowdFresh(s: seq<Tree>, l: Leaf)
    requires Group(s)
    ensures Fresh(Collapsed(s), Node(4, s), Crowded(s, l))
  {
    CrowdedAddrs(s, l);
    LeafNode(4, s);
  }

  /** A run with a deletion, an insertion the code then performs, and a lookup that reads a shortcut as a node. */
  lemma {:induction false} ShortcutMisread()
    ensures exists h, t' :: Run(h) && InsertStep(Now(h), CROWD, t') && Find(t', CROWD.key) == Misread
  {
    var h := CollapsedReached();
    RunContents(h);
    Cast();
    var s := Slots(16);
    CrowdWalk(s, CROWD);
    CrowdUnsafe(s, CROWD);
    CrowdStep(s, CROWD);
    CrowdGrows(s, CROWD);
    AssocExact.ClusterBehind(Now(h), CROWD, Node(4, s), Behind(Collapsed(s)), Crowded(s, CROWD));
  }
}
