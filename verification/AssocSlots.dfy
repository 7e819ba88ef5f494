/**
 The slot loops of an insertion into a full node: scanning for the key and for
 room, caching segments, finding two leaves for one slot, and distributing the
 leaves over the two nodes of a split.
 */
module AssocSlots {
  import opened AssocTree

  const META_SEGMENT := 0xff

  // ------------------------------------------------------------ scanning

  /** Looks for the key and, failing that, for the last empty slot. */
  method ScanSlots(ps: seq<Ptr>, k: Key) returns (found: int, free: int)
    requires |ps| == 16
    ensures -1 <= found < 16 && -1 <= free < 16
    ensures found >= 0 ==> ps[found].LeafPtr? && ps[found].leaf.key == k
    ensures found < 0 ==> forall i :: 0 <= i < 16 && ps[i].LeafPtr? ==> ps[i].leaf.key != k
    ensures found < 0 && free >= 0 ==> ps[free] == Null && forall i :: free < i < 16 ==> ps[i] != Null
    ensures found < 0 && free < 0 ==> forall i :: 0 <= i < 16 ==> ps[i] != Null
  {
    found, free := -1, -1;
    var i := 0;
    while i < 16
      invariant 0 <= i <= 16 && found == -1 && -1 <= free < i
      invariant forall j :: 0 <= j < i && ps[j].LeafPtr? ==> ps[j].leaf.key != k
      invariant free >= 0 ==> ps[free] == Null
      invariant forall j :: free < j < i ==> ps[j] != Null
    {
      if ps[i] == Null {
        free := i;
      } else if ps[i].LeafPtr? && ps[i].leaf.key == k {
        found := i;
        return;
      }
      i := i + 1;
    }
  }

  /** The segments of the leaves at one level, with metadata slots marked and the new leaf last. */
  ghost predicate Caches(cache: seq<nat>, ps: seq<Ptr>, l: Leaf, level: nat) {
    && |cache| == 17 && |ps| == 16 && level < 16 && cache[16] == l.key[level]
    && forall i :: 0 <= i < 16 ==>
         if IsMeta(ps[i]) then cache[i] == META_SEGMENT
         else ps[i].LeafPtr? && cache[i] == ps[i].leaf.key[level]
  }

  method CacheSegments(ps: seq<Ptr>, l: Leaf, level: nat) returns (cache: seq<nat>, haveMeta: bool)
    requires |ps| == 16 && level < 16 && forall i :: 0 <= i < 16 ==> ps[i] != Null
    ensures Caches(cache, ps, l, level)
    ensures haveMeta <==> exists i :: 0 <= i < 16 && IsMeta(ps[i])
  {
    cache, haveMeta := [], false;
    var i := 0;
    while i < 16
      invariant 0 <= i <= 16 && |cache| == i
      invariant forall j :: 0 <= j < i ==>
                  if IsMeta(ps[j]) then cache[j] == META_SEGMENT
                  else ps[j].LeafPtr? && cache[j] == ps[j].leaf.key[level]
      invariant haveMeta <==> exists j :: 0 <= j < i && IsMeta(ps[j])
    {
      if IsMeta(ps[i]) {
        cache, haveMeta := cache + [META_SEGMENT], true;
      } else {
        cache := cache + [ps[i].leaf.key[level]];
      }
      i := i + 1;
    }
    cache := cache + [l.key[level]];
  }

  // --------------------------------------------------------- pigeonhole

  ghost function Elems(s: seq<nat>): set<nat> {
    set x | x in s
  }

  lemma {:induction false} BoundedSet(n: nat, s: set<nat>)
    requires forall x :: x in s ==> x < n
    ensures |s| <= n
  {
    if n > 0 {
      BoundedSet(n - 1, s - {n - 1});
      assert s <= (s - {n - 1}) + {n - 1};
    } else {
      assert s == {};
    }
  }

  lemma {:induction false} DistinctSize(s: seq<nat>)
    requires forall i, j :: 0 <= i < j < |s| ==> s[i] != s[j]
    ensures |Elems(s)| == |s|
  {
    if s != [] {
      DistinctSize(s[1..]);
      assert Elems(s) == {s[0]} + Elems(s[1..]);
      assert s[0] !in s[1..];
    }
  }

  ghost predicate Repeats(s: seq<nat>) {
    exists i, j :: 0 <= i < j < |s| && s[i] == s[j]
  }

  /** More pigeons than holes. */
  lemma {:induction false} Pigeonhole(s: seq<nat>, n: nat)
    requires |s| > n && forall i :: 0 <= i < |s| ==> s[i] < n
    ensures Repeats(s)
  {
    if !Repeats(s) {
      DistinctSize(s);
      BoundedSet(n, Elems(s));
      assert false;
    }
  }

  /** Two leaves, one of them possibly the new one, want the same slot. */
  ghost predicate Collides(cache: seq<nat>, i: int, j: int) {
    0 <= i < j < |cache| && cache[i] == cache[j] && cache[i] != META_SEGMENT
  }

  /** The leaves and the new leaf all belong in slots without metadata pointers. */
  ghost predicate NoClash(ps: seq<Ptr>, l: Leaf, level: nat) {
    && |ps| == 16 && level < 16
    && forall j :: 0 <= j < 16 && IsMeta(ps[j]) ==>
         l.key[level] != j && forall i :: 0 <= i < 16 && ps[i].LeafPtr? ==> ps[i].leaf.key[level] != j
  }

  /**
   In a full node no leaf wants a slot that holds a metadata pointer, so counting
   each metadata pointer as occupying its own slot leaves one slot too few.
   */
  lemma {:induction false} SomeCollide(cache: seq<nat>, ps: seq<Ptr>, l: Leaf, level: nat)
    requires Caches(cache, ps, l, level) && NoClash(ps, l, level)
    ensures exists i, j :: Collides(cache, i, j)
  {
    var f := seq(17, i requires 0 <= i < 17 => if i < 16 && IsMeta(ps[i]) then i else cache[i]);
    Pigeonhole(f, 16);
    var i, j :| 0 <= i < j < 17 && f[i] == f[j];
    assert Collides(cache, i, j);
  }

  /** The double loop that finds a slot wanted by at least two leaves. */
  method FindPair(cache: seq<nat>) returns (slot: nat)
    requires |cache| == 17 && exists i, j :: Collides(cache, i, j)
    ensures slot != META_SEGMENT
    ensures exists i, j :: Collides(cache, i, j) && cache[i] == slot
  {
    var i, j, hit := 0, 0, false;
    slot := 0;
    while i < 16 && !hit
      invariant 0 <= i <= 16
      invariant !hit ==> forall p, q :: Collides(cache, p, q) ==> i <= p
      invariant hit ==> Collides(cache, i, j) && slot == cache[i]
      decreases 16 - i, !hit
    {
      slot := cache[i];
      if slot != META_SEGMENT {
        j := i + 1;
        while j < 17 && !hit
          invariant i < j <= 17 && slot == cache[i]
          invariant !hit ==> forall q :: i < q < j ==> cache[q] != slot
          invariant hit ==> Collides(cache, i, j)
          decreases 17 - j, !hit
        {
          if cache[j] == slot { hit := true; } else { j := j + 1; }
        }
      }
      if !hit { i := i + 1; }
    }
  }

  // -------------------------------------------------------- distribution

  ghost function Nulls(ps: seq<Ptr>): nat {
    if ps == [] then 0 else (if ps[0] == Null then 1 else 0) + Nulls(ps[1..])
  }

  /** How many cached leaves want `slot`, and how many want another one. */
  ghost function Wants(c: seq<nat>, slot: nat): nat {
    if c == [] then 0 else (if c[0] == slot then 1 else 0) + Wants(c[1..], slot)
  }

  ghost function Others(c: seq<nat>, slot: nat): nat {
    if c == [] then 0 else (if c[0] != slot && c[0] != META_SEGMENT then 1 else 0) + Others(c[1..], slot)
  }

  lemma {:induction false} WantsSome(c: seq<nat>, j: nat)
    requires j < |c|
    ensures Wants(c, c[j]) >= 1
  {
    if j > 0 { WantsSome(c[1..], j - 1); }
  }

  lemma {:induction false} WantsTwo(c: seq<nat>, i: nat, j: nat)
    requires i < j < |c| && c[i] == c[j]
    ensures Wants(c, c[i]) >= 2
  {
    if i == 0 { WantsSome(c[1..], j - 1); } else { WantsTwo(c[1..], i - 1, j - 1); }
  }

  /** The node that is to keep the rest: metadata in place, the new node in its slot, nothing else yet. */
  ghost predicate Skeleton(base: seq<Ptr>, ps: seq<Ptr>, slot: nat, np: Ptr) {
    && |base| == |ps| == 16 && slot < 16 && np.NodePtr? && !IsMeta(ps[slot])
    && forall i :: 0 <= i < 16 ==> base[i] == if i == slot then np else if IsMeta(ps[i]) then ps[i] else Null
  }

  lemma {:induction false} RoomFrom(base: seq<Ptr>, ps: seq<Ptr>, slot: nat, np: Ptr, cache: seq<nat>, l: Leaf,
                                    level: nat, n: nat)
    requires Skeleton(base, ps, slot, np) && Caches(cache, ps, l, level) && n <= 16
    ensures Nulls(base[n..]) + (if n <= slot then 1 else 0) + 1 == Wants(cache[n..], slot) + Others(cache[n..], slot)
    decreases 16 - n
  {
    if n < 16 {
      RoomFrom(base, ps, slot, np, cache, l, level, n + 1);
      assert base[n..][1..] == base[n + 1..] && cache[n..][1..] == cache[n + 1..];
    } else {
      assert cache[16..] == [cache[16]];
    }
  }

  /** There is an empty slot for every leaf that stays. */
  lemma {:induction false} EnoughRoom(base: seq<Ptr>, ps: seq<Ptr>, slot: nat, np: Ptr, cache: seq<nat>, l: Leaf,
                                      level: nat)
    requires Skeleton(base, ps, slot, np) && Caches(cache, ps, l, level)
    requires exists i, j :: Collides(cache, i, j) && cache[i] == slot
    ensures Nulls(base) >= Others(cache, slot)
  {
    RoomFrom(base, ps, slot, np, cache, l, level, 0);
    assert base[0..] == base && cache[0..] == cache;
    var i, j :| Collides(cache, i, j) && cache[i] == slot;
    WantsTwo(cache, i, j);
  }

  /** The scan for the next empty slot, which stays inside the node. */
  method NextFree(q: seq<Ptr>, after: int) returns (f: nat)
    requires |q| == 16 && -1 <= after < 16 && Nulls(q[after + 1..]) > 0
    ensures after < f < 16 && q[f] == Null
    ensures Nulls(q[f + 1..]) == Nulls(q[after + 1..]) - 1
  {
    f := after + 1;
    while q[f] != Null
      invariant after < f < 16 && Nulls(q[f..]) == Nulls(q[after + 1..])
      decreases 16 - f
    {
      assert q[f..][1..] == q[f + 1..];
      f := f + 1;
    }
    assert q[f..][1..] == q[f + 1..];
  }

  method MakeSkeleton(ps: seq<Ptr>, slot: nat, np: Ptr) returns (base: seq<Ptr>)
    requires |ps| == 16 && slot < 16 && np.NodePtr? && !IsMeta(ps[slot])
    ensures Skeleton(base, ps, slot, np)
  {
    base := [];
    var i := 0;
    while i < 16
      invariant 0 <= i <= 16 && |base| == i
      invariant forall j :: 0 <= j < i ==> base[j] == if IsMeta(ps[j]) then ps[j] else Null
    {
      base := base + [if IsMeta(ps[i]) then ps[i] else Null];
      i := i + 1;
    }
    base := base[slot := np];
  }

  ghost predicate KeepsMeta(ps: seq<Ptr>, q: seq<Ptr>, slot: nat) {
    |ps| == |q| && forall j :: 0 <= j < |q| && j != slot && (IsMeta(ps[j]) || IsMeta(q[j])) ==> q[j] == ps[j]
  }

  ghost predicate AllWant(ms: multiset<Leaf>, level: nat, slot: nat) {
    level < 16 && forall x :: x in ms ==> x.key[level] == slot
  }

  ghost predicate NoneWant(ms: multiset<Leaf>, level: nat, slot: nat) {
    level < 16 && forall x :: x in ms ==> x.key[level] != slot
  }

  /** The first `n` slots of a node have been dealt out: `next` leaves to `q1`, the rest to `q0`. */
  ghost predicate Dealt(ps: seq<Ptr>, slot: nat, np: Ptr, level: nat, n: nat, q0: seq<Ptr>, q1: seq<Ptr>, next: nat) {
    && DealtSlots(ps, slot, np, q0, q1, next) && n <= 16
    && DealtLeaves(Items(q0), Items(q1), Items(ps[..n]), level, slot, next)
  }

  ghost predicate DealtSlots(ps: seq<Ptr>, slot: nat, np: Ptr, q0: seq<Ptr>, q1: seq<Ptr>, next: nat) {
    && |ps| == |q0| == |q1| == 16 && next <= 16 && slot < 16
    && q0[slot] == np && np.NodePtr? && KeepsMeta(ps, q0, slot)
    && (forall j :: 0 <= j < 16 ==> !IsMeta(q1[j]) && (j >= next ==> q1[j] == Null))
  }

  ghost predicate DealtLeaves(a: multiset<Leaf>, b: multiset<Leaf>, all: multiset<Leaf>, level: nat, slot: nat,
                              next: nat) {
    a + b == all && AllWant(b, level, slot) && NoneWant(a, level, slot) && |b| == next
  }

  /** Two nodes hold the leaves of `ps` and the leaf `l`, those that want `slot` in `q1`. */
  ghost predicate SplitPtrs(ps: seq<Ptr>, l: Leaf, level: nat, slot: nat, np: Ptr, q0: seq<Ptr>, q1: seq<Ptr>) {
    && |ps| == |q0| == |q1| == 16 && slot < 16 && !IsMeta(ps[slot])
    && q0[slot] == np && KeepsMeta(ps, q0, slot)
    && (forall j :: 0 <= j < 16 ==> !IsMeta(q1[j]))
    && Items(q0) + Items(q1) == Items(ps) + multiset{l}
    && AllWant(Items(q1), level, slot) && NoneWant(Items(q0), level, slot)
    && |Items(q1)| >= 2
  }

  lemma {:induction false} ItemsNone(ps: seq<Ptr>)
    requires forall i :: 0 <= i < |ps| ==> !ps[i].LeafPtr?
    ensures Items(ps) == multiset{}
  {
    if ps != [] { ItemsNone(ps[1..]); }
  }

  lemma {:induction false} ItemsSnoc(ps: seq<Ptr>, n: nat)
    requires n < |ps|
    ensures Items(ps[..n + 1]) == Items(ps[..n]) + ItemOf(ps[n])
  {
    if n == 0 {
      assert ps[..1][1..] == [];
    } else {
      ItemsSnoc(ps[1..], n - 1);
      assert ps[..n + 1][1..] == ps[1..][..n] && ps[..n][1..] == ps[1..][..n - 1];
      Regroup(ItemOf(ps[0]), Items(ps[1..][..n - 1]), ItemOf(ps[n]));
    }
  }

  lemma {:induction false} Regroup(a: multiset<Leaf>, b: multiset<Leaf>, c: multiset<Leaf>)
    ensures a + (b + c) == (a + b) + c
  {}

  /** Putting a leaf into an empty slot adds just that leaf. */
  lemma {:induction false} ItemsPut(ps: seq<Ptr>, i: nat, l: Leaf)
    requires i < |ps| && ps[i] == Null
    ensures Items(ps[i := LeafPtr(l)]) == Items(ps) + multiset{l}
  {
    ItemsUpdate(ps, i, LeafPtr(l));
    CancelNone(Items(ps[i := LeafPtr(l)]), Items(ps) + multiset{l});
  }

  lemma {:induction false} AddRight(a: multiset<Leaf>, b: multiset<Leaf>, x: multiset<Leaf>)
    ensures a + (b + x) == (a + b) + x
  {}

  lemma {:induction false} AddLeft(a: multiset<Leaf>, b: multiset<Leaf>, x: multiset<Leaf>)
    ensures (a + x) + b == (a + b) + x
  {}

  lemma {:induction false} ExpelLeaf(a: multiset<Leaf>, b: multiset<Leaf>, all: multiset<Leaf>, level: nat, slot: nat,
                                     next: nat, x: Leaf)
    requires DealtLeaves(a, b, all, level, slot, next) && x.key[level] == slot
    ensures DealtLeaves(a, b + multiset{x}, all + multiset{x}, level, slot, next + 1)
  {}

  lemma {:induction false} KeepLeaf(a: multiset<Leaf>, b: multiset<Leaf>, all: multiset<Leaf>, level: nat, slot: nat,
                                    next: nat, x: Leaf)
    requires DealtLeaves(a, b, all, level, slot, next) && x.key[level] != slot
    ensures DealtLeaves(a + multiset{x}, b, all + multiset{x}, level, slot, next)
  {}

  lemma {:induction false} DealStart(ps: seq<Ptr>, slot: nat, np: Ptr, level: nat, base: seq<Ptr>, q1: seq<Ptr>)
    requires Skeleton(base, ps, slot, np) && level < 16
    requires |q1| == 16 && forall j :: 0 <= j < 16 ==> q1[j] == Null
    ensures Dealt(ps, slot, np, level, 0, base, q1, 0)
  {
    ItemsNone(base);
    ItemsNone(q1);
    ItemsNone(ps[..0]);
  }

  lemma {:induction false} DealMeta(ps: seq<Ptr>, slot: nat, np: Ptr, level: nat, n: nat, q0: seq<Ptr>, q1: seq<Ptr>,
                                    next: nat)
    requires Dealt(ps, slot, np, level, n, q0, q1, next) && n < 16 && IsMeta(ps[n])
    ensures Dealt(ps, slot, np, level, n + 1, q0, q1, next)
  {
    ItemsSnoc(ps, n);
    assert Items(ps[..n + 1]) == Items(ps[..n]);
  }

  lemma {:induction false} ExpelItem(ps: seq<Ptr>, slot: nat, level: nat, n: nat, q0: seq<Ptr>, q1: seq<Ptr>, next: nat)
    requires n < |ps| && next < |q1| && q1[next] == Null && ps[n].LeafPtr?
    requires DealtLeaves(Items(q0), Items(q1), Items(ps[..n]), level, slot, next) && ps[n].leaf.key[level] == slot
    ensures DealtLeaves(Items(q0), Items(q1[next := ps[n]]), Items(ps[..n + 1]), level, slot, next + 1)
  {
    ItemsSnoc(ps, n);
    ItemsPut(q1, next, ps[n].leaf);
    ExpelLeaf(Items(q0), Items(q1), Items(ps[..n]), level, slot, next, ps[n].leaf);
  }

  lemma {:induction false} KeepItem(ps: seq<Ptr>, slot: nat, level: nat, n: nat, q0: seq<Ptr>, q1: seq<Ptr>, next: nat,
                                    f: nat)
    requires n < |ps| && f < |q0| && q0[f] == Null && ps[n].LeafPtr?
    requires DealtLeaves(Items(q0), Items(q1), Items(ps[..n]), level, slot, next) && ps[n].leaf.key[level] != slot
    ensures DealtLeaves(Items(q0[f := ps[n]]), Items(q1), Items(ps[..n + 1]), level, slot, next)
  {
    ItemsSnoc(ps, n);
    ItemsPut(q0, f, ps[n].leaf);
    KeepLeaf(Items(q0), Items(q1), Items(ps[..n]), level, slot, next, ps[n].leaf);
  }

  lemma {:induction false} DealExpelled(ps: seq<Ptr>, slot: nat, np: Ptr, level: nat, n: nat, q0: seq<Ptr>,
                                        q1: seq<Ptr>, next: nat)
    requires Dealt(ps, slot, np, level, n, q0, q1, next) && n < 16 && next < 16
    requires ps[n].LeafPtr? && ps[n].leaf.key[level] == slot
    ensures Dealt(ps, slot, np, level, n + 1, q0, q1[next := ps[n]], next + 1)
  {
    ExpelItem(ps, slot, level, n, q0, q1, next);
  }

  lemma {:induction false} DealKept(ps: seq<Ptr>, slot: nat, np: Ptr, level: nat, n: nat, q0: seq<Ptr>, q1: seq<Ptr>,
                                    next: nat, f: nat)
    requires Dealt(ps, slot, np, level, n, q0, q1, next) && n < 16 && f < 16 && q0[f] == Null
    requires ps[n].LeafPtr? && ps[n].leaf.key[level] != slot
    ensures Dealt(ps, slot, np, level, n + 1, q0[f := ps[n]], q1, next)
  {
    KeepItem(ps, slot, level, n, q0, q1, next, f);
  }

  lemma {:induction false} DealtExpelsNew(ps: seq<Ptr>, l: Leaf, slot: nat, np: Ptr, level: nat, q0: seq<Ptr>,
                                          q1: seq<Ptr>, next: nat)
    requires Dealt(ps, slot, np, level, 16, q0, q1, next) && 1 <= next < 16 && !IsMeta(ps[slot])
    requires l.key[level] == slot
    ensures SplitPtrs(ps, l, level, slot, np, q0, q1[next := LeafPtr(l)])
  {
    assert ps[..16] == ps;
    assert Items(q1[next := LeafPtr(l)]) == Items(q1) + multiset{l} by { ItemsPut(q1, next, l); }
    AddRight(Items(q0), Items(q1), multiset{l});
  }

  lemma {:induction false} DealtKeepsNew(ps: seq<Ptr>, l: Leaf, slot: nat, np: Ptr, level: nat, q0: seq<Ptr>,
                                         q1: seq<Ptr>, next: nat, f: nat)
    requires Dealt(ps, slot, np, level, 16, q0, q1, next) && 2 <= next && !IsMeta(ps[slot])
    requires l.key[level] != slot && f < 16 && q0[f] == Null
    ensures SplitPtrs(ps, l, level, slot, np, q0[f := LeafPtr(l)], q1)
  {
    assert ps[..16] == ps;
    assert Items(q0[f := LeafPtr(l)]) == Items(q0) + multiset{l} by { ItemsPut(q0, f, l); }
    AddLeft(Items(q0), Items(q1), multiset{l});
  }

  lemma {:induction false} WantsSplit(c: seq<nat>, slot: nat, n: nat)
    requires n < |c|
    ensures Wants(c[..n + 1], slot) == Wants(c[..n], slot) + (if c[n] == slot then 1 else 0)
  {
    if n == 0 {
      assert c[..1][1..] == [];
    } else {
      WantsSplit(c[1..], slot, n - 1);
      assert c[..n + 1][1..] == c[1..][..n] && c[..n][1..] == c[1..][..n - 1];
    }
  }

  lemma {:induction false} WantsBelow(c: seq<nat>, slot: nat)
    ensures Wants(c, slot) <= |c|
    ensures (exists i :: 0 <= i < |c| && c[i] != slot) ==> Wants(c, slot) < |c|
  {
    if c != [] {
      WantsBelow(c[1..], slot);
      if exists i :: 0 <= i < |c| && c[i] != slot {
        var i :| 0 <= i < |c| && c[i] != slot;
        assert i > 0 ==> c[1..][i - 1] != slot;
      }
    }
  }

  /** The first `i` pointers have been dealt out, and empty slots are left beyond `free` for those that stay. */
  ghost predicate Dealing(ps: seq<Ptr>, level: nat, slot: nat, np: Ptr, cache: seq<nat>, i: nat,
                          q0: seq<Ptr>, q1: seq<Ptr>, next: nat, free: int)
    requires i <= |cache|
  {
    && Dealt(ps, slot, np, level, i, q0, q1, next) && next == Wants(cache[..i], slot)
    && -1 <= free < |q0| == 16 && Nulls(q0[free + 1..]) >= Others(cache[i..], slot)
  }

  lemma {:induction false} DealingStart(ps: seq<Ptr>, l: Leaf, level: nat, slot: nat, np: Ptr, cache: seq<nat>,
                                        q0: seq<Ptr>, q1: seq<Ptr>)
    requires Caches(cache, ps, l, level) && Skeleton(q0, ps, slot, np) && Nulls(q0) >= Others(cache, slot)
    requires |q1| == 16 && forall i :: 0 <= i < 16 ==> q1[i] == Null
    ensures Dealing(ps, level, slot, np, cache, 0, q0, q1, 0, -1)
  {
    DealStart(ps, slot, np, level, q0, q1);
    assert q0[0..] == q0 && cache[0..] == cache;
  }

  /** The loop that filters the leaf pointers between the two nodes. */
  method DealOut(ps: seq<Ptr>, l: Leaf, level: nat, slot: nat, np: Ptr, cache: seq<nat>, base: seq<Ptr>)
    returns (q0: seq<Ptr>, q1: seq<Ptr>, next: nat, free: int)
    requires Caches(cache, ps, l, level) && Skeleton(base, ps, slot, np) && Nulls(base) >= Others(cache, slot)
    ensures Dealt(ps, slot, np, level, 16, q0, q1, next) && next == Wants(cache[..16], slot)
    ensures -1 <= free < 16 && Nulls(q0[free + 1..]) >= Others(cache[16..], slot)
  {
    q0, q1, next, free := base, seq(16, _ => Null), 0, -1;
    DealingStart(ps, l, level, slot, np, cache, q0, q1);
    var i := 0;
    while i < 16
      invariant 0 <= i <= 16 && Dealing(ps, level, slot, np, cache, i, q0, q1, next, free)
    {
      q0, q1, next, free := DealNext(ps, l, level, slot, np, cache, i, q0, q1, next, free);
      i := i + 1;
    }
  }

  method DealNext(ps: seq<Ptr>, ghost l: Leaf, level: nat, slot: nat, ghost np: Ptr, cache: seq<nat>, i: nat,
                  p0: seq<Ptr>, p1: seq<Ptr>, count: nat, last: int)
    returns (q0: seq<Ptr>, q1: seq<Ptr>, next: nat, free: int)
    requires Caches(cache, ps, l, level) && i < 16 && Dealing(ps, level, slot, np, cache, i, p0, p1, count, last)
    ensures Dealing(ps, level, slot, np, cache, i + 1, q0, q1, next, free)
  {
    OneMore(cache, slot, i);
    q0, q1, next, free := DealOne(ps, level, slot, np, i, ps[i], cache[i], p0, p1, count, last);
  }

  lemma {:induction false} OneMore(c: seq<nat>, slot: nat, i: nat)
    requires i < |c|
    ensures Wants(c[..i + 1], slot) == Wants(c[..i], slot) + (if c[i] == slot then 1 else 0)
    ensures Others(c[i..], slot) == Others(c[i + 1..], slot) + (if c[i] != slot && c[i] != META_SEGMENT then 1 else 0)
    ensures Wants(c[..i], slot) <= i
  {
    WantsSplit(c, slot, i);
    WantsBelow(c[..i], slot);
    assert c[i..][1..] == c[i + 1..];
  }

  /** Deals out the pointer `p` of slot `i`. */
  method DealOne(ghost ps: seq<Ptr>, level: nat, slot: nat, ghost np: Ptr, ghost i: nat, p: Ptr, seg: nat,
                 p0: seq<Ptr>, p1: seq<Ptr>, count: nat, last: int)
    returns (q0: seq<Ptr>, q1: seq<Ptr>, next: nat, free: int)
    requires Dealt(ps, slot, np, level, i, p0, p1, count) && i < 16 && p == ps[i] && count < 16 && -1 <= last < 16
    requires if IsMeta(p) then seg == META_SEGMENT else p.LeafPtr? && seg == p.leaf.key[level]
    requires seg != slot && seg != META_SEGMENT ==> Nulls(p0[last + 1..]) > 0
    ensures Dealt(ps, slot, np, level, i + 1, q0, q1, next) && next == count + (if seg == slot then 1 else 0)
    ensures -1 <= free < 16 && Nulls(q0[free + 1..]) == Nulls(p0[last + 1..]) - (if seg != slot && seg != META_SEGMENT then 1 else 0)
  {
    q0, q1, next, free := p0, p1, count, last;
    if IsMeta(p) {
      DealMeta(ps, slot, np, level, i, q0, q1, next);
    } else if seg == slot {
      DealExpelled(ps, slot, np, level, i, q0, q1, next);
      q1, next := q1[next := p], next + 1;
    } else {
      free := NextFree(q0, last);
      DealKept(ps, slot, np, level, i, q0, q1, next, free);
      assert q0[free := p][free + 1..] == q0[free + 1..];
      q0 := q0[free := p];
    }
  }

  /**
   Deals the leaves of a full node out to the two nodes of a split and finds the
   slot for the new leaf.  `next` is how many leaves the expelling node got.
   */
  method Distribute(ps: seq<Ptr>, l: Leaf, level: nat, slot: nat, np: Ptr, cache: seq<nat>)
    returns (q0: seq<Ptr>, q1: seq<Ptr>, next: nat, expelNew: bool, at: nat)
    requires Caches(cache, ps, l, level) && slot < 16 && np.NodePtr? && !IsMeta(ps[slot])
    requires exists i, j :: Collides(cache, i, j) && cache[i] == slot
    requires exists i :: 0 <= i < 17 && cache[i] != slot
    ensures |q0| == |q1| == 16 && at < 16 && next == |Items(q1)|
    ensures expelNew <==> l.key[level] == slot
    ensures if expelNew then q1[at] == Null && SplitPtrs(ps, l, level, slot, np, q0, q1[at := LeafPtr(l)])
            else q0[at] == Null && SplitPtrs(ps, l, level, slot, np, q0[at := LeafPtr(l)], q1)
  {
    var base := MakeSkeleton(ps, slot, np);
    EnoughRoom(base, ps, slot, np, cache, l, level);
    var free;
    q0, q1, next, free := DealOut(ps, l, level, slot, np, cache, base);
    CollisionCount(cache, slot);
    expelNew := cache[16] == slot;
    if expelNew {
      at := next;
      DealtExpelsNew(ps, l, slot, np, level, q0, q1, next);
    } else {
      assert cache[16..] == [cache[16]];
      at := NextFree(q0, free);
      DealtKeepsNew(ps, l, slot, np, level, q0, q1, next, at);
    }
  }

  /** At least two of the seventeen leaves want the slot, and not all of them. */
  lemma {:induction false} CollisionCount(cache: seq<nat>, slot: nat)
    requires |cache| == 17
    requires exists i, j :: Collides(cache, i, j) && cache[i] == slot
    requires exists i :: 0 <= i < 17 && cache[i] != slot
    ensures cache[16] == slot ==> 1 <= Wants(cache[..16], slot) < 16
    ensures cache[16] != slot ==> 2 <= Wants(cache[..16], slot)
  {
    var i, j :| Collides(cache, i, j) && cache[i] == slot;
    WantsTwo(cache, i, j);
    assert cache[..17] == cache;
    WantsSplit(cache, slot, 16);
    WantsBelow(cache[..16], slot);
    if cache[16] == slot {
      var h :| 0 <= h < 17 && cache[h] != slot;
      assert cache[..16][h] != slot;
    }
  }
}
