/**
 The hash table of neighbour entries.  Whatever the hash function and its random
 seed, the table is a map from (device, key) to at most one entry, and growing it
 neither loses nor duplicates any.
 */
module NeighTable {
  import opened Common

  type Dev = int
  type Pkey = int
  type Name = (Dev, Pkey)

  /** An entry in the table; `id` is the address of the entry itself. */
  datatype Item = Item(name: Name, id: nat)

  type U32 = n: nat | n < 0x1_0000_0000

  type Hash = (Name, int) -> U32

  /** Chains, one per bucket, from the head on. */
  type Chains = seq<seq<Item>>

  function Power(n: nat): nat {
    if n == 0 then 1 else 2 * Power(n - 1)
  }

  /** The top `shift` bits of a 32-bit hash. */
  function Index(h: U32, shift: nat): (i: nat)
    requires 1 <= shift <= 32
    ensures i < Power(shift)
  {
    IndexBelow(h, shift);
    h / Power(32 - shift)
  }

  lemma {:induction false} IndexBelow(h: U32, shift: nat)
    requires 1 <= shift <= 32
    ensures Power(32 - shift) > 0 && h / Power(32 - shift) < Power(shift)
  {
    PowerSplit(shift, 32 - shift);
    PowerValue();
    DivBelow(h, Power(32 - shift), Power(shift));
  }

  lemma {:induction false} PowerSplit(a: nat, b: nat)
    ensures Power(a + b) == Power(a) * Power(b) && Power(b) > 0
  {
    if a > 0 { PowerSplit(a - 1, b); } else { PowerPositive(b); }
  }

  lemma {:induction false} PowerPositive(b: nat)
    ensures Power(b) > 0
  {
    if b > 0 { PowerPositive(b - 1); }
  }

  lemma {:induction false} PowerValue()
    ensures Power(32) == 0x1_0000_0000
  {
    assert Power(8) == 0x100;
    PowerSplit(8, 8);
    PowerSplit(16, 16);
  }

  lemma {:induction false} DivBelow(v: nat, d: nat, n: nat)
    requires d > 0 && v < n * d
    ensures v / d < n
  {}

  // -------------------------------------------------------------- contents

  ghost function Flat(bs: Chains): multiset<Item> {
    if bs == [] then multiset{} else multiset(bs[0]) + Flat(bs[1..])
  }

  lemma {:induction false} FlatUpdate(bs: Chains, i: nat, c: seq<Item>)
    requires i < |bs|
    ensures Flat(bs[i := c]) + multiset(bs[i]) == Flat(bs) + multiset(c)
  {
    if i == 0 {
      assert bs[i := c][1..] == bs[1..];
    } else {
      FlatUpdate(bs[1..], i - 1, c);
      assert bs[i := c][1..] == bs[1..][i - 1 := c];
      Swap(multiset(bs[0]), Flat(bs[1..][i - 1 := c]), multiset(bs[i]), Flat(bs[1..]), multiset(c));
    }
  }

  lemma {:induction false} Swap(a: multiset<Item>, b: multiset<Item>, c: multiset<Item>, d: multiset<Item>,
                                e: multiset<Item>)
    requires b + c == d + e
    ensures (a + b) + c == (a + d) + e
  {
    assert (a + b) + c == a + (b + c);
    assert (a + d) + e == a + (d + e);
  }

  lemma {:induction false} FlatIn(bs: Chains, x: Item)
    ensures x in Flat(bs) <==> exists i :: 0 <= i < |bs| && x in bs[i]
  {
    if bs != [] {
      FlatIn(bs[1..], x);
      if exists i :: 0 <= i < |bs| && x in bs[i] {
        var i :| 0 <= i < |bs| && x in bs[i];
        if i > 0 { assert x in bs[1..][i - 1]; }
      }
      if x in Flat(bs[1..]) {
        var j :| 0 <= j < |bs[1..]| && x in bs[1..][j];
        assert x in bs[j + 1];
      }
    }
  }

  /** The map `m` says what the entries `ms` say, each entry being there once. */
  ghost predicate Stands(ms: multiset<Item>, m: map<Name, nat>) {
    forall x: Item :: ms[x] == if x.name in m && m[x.name] == x.id then 1 else 0
  }

  /** Every entry hangs in the bucket its hash says. */
  ghost predicate Placed(bs: Chains, hash: Hash, rnd: int, shift: nat) {
    && 1 <= shift <= 32 && |bs| == Power(shift)
    && forall i, x :: 0 <= i < |bs| && x in bs[i] ==> Index(hash(x.name, rnd), shift) == i
  }

  // ------------------------------------------------------------ chain walks

  /** The first entry of that name in a chain. */
  function FindIn(c: seq<Item>, name: Name): Option<Item> {
    if c == [] then None else if c[0].name == name then Some(c[0]) else FindIn(c[1..], name)
  }

  lemma {:induction false} FindInIs(c: seq<Item>, name: Name)
    ensures match FindIn(c, name) case Some(x) => x in c && x.name == name case None => forall x :: x in c ==> x.name != name
  {
    if c != [] { FindInIs(c[1..], name); }
  }

  method WalkChain(c: seq<Item>, name: Name) returns (r: Option<Item>)
    ensures r == FindIn(c, name)
  {
    var i := 0;
    while i < |c|
      invariant 0 <= i <= |c| && FindIn(c, name) == FindIn(c[i..], name)
    {
      if c[i].name == name { return Some(c[i]); }
      assert c[i..][1..] == c[i + 1..];
      i := i + 1;
    }
    return None;
  }

  /** What is left of the first `n` entries of a chain without those that match. */
  function Kept(c: seq<Item>, gone: Item -> bool, n: nat): seq<Item>
    requires n <= |c|
  {
    if n == 0 then [] else if gone(c[n - 1]) then Kept(c, gone, n - 1) else Kept(c, gone, n - 1) + [c[n - 1]]
  }

  /** A chain without the entries that match. */
  function Without(c: seq<Item>, gone: Item -> bool): seq<Item> {
    Kept(c, gone, |c|)
  }

  lemma {:induction false} PrefixNext(c: seq<Item>, n: nat)
    requires n < |c|
    ensures multiset(c[..n + 1]) == multiset(c[..n]) + multiset{c[n]}
  {
    assert c[..n + 1] == c[..n] + [c[n]];
  }

  /** How often `x` is among the first `n` entries. */
  function Count(c: seq<Item>, x: Item, n: nat): nat
    requires n <= |c|
  {
    if n == 0 then 0 else Count(c, x, n - 1) + One(c[n - 1] == x)
  }

  lemma {:induction false} CountIs(c: seq<Item>, x: Item, n: nat)
    requires n <= |c|
    ensures Count(c, x, n) == multiset(c[..n])[x]
  {
    if n > 0 {
      CountIs(c, x, n - 1);
      PrefixNext(c, n - 1);
    }
  }

  lemma {:induction false} CountAppend(k: seq<Item>, y: Item, x: Item)
    ensures multiset(k + [y])[x] == multiset(k)[x] + One(y == x)
  {}

  lemma {:induction false} KeptIn(c: seq<Item>, gone: Item -> bool, n: nat, x: Item)
    requires n <= |c|
    ensures multiset(Kept(c, gone, n))[x] == if gone(x) then 0 else Count(c, x, n)
  {
    if n > 0 {
      KeptIn(c, gone, n - 1, x);
      CountAppend(Kept(c, gone, n - 1), c[n - 1], x);
    }
  }

  lemma {:induction false} WithoutIn(c: seq<Item>, gone: Item -> bool, x: Item)
    ensures multiset(Without(c, gone))[x] == if gone(x) then 0 else multiset(c)[x]
  {
    KeptIn(c, gone, |c|, x);
    CountIs(c, x, |c|);
    assert c[..|c|] == c;
  }

  /** Unlinks the matching entries of a chain one by one. */
  method UnlinkMatching(c: seq<Item>, gone: Item -> bool) returns (r: seq<Item>)
    ensures r == Without(c, gone)
  {
    r := [];
    var i := 0;
    while i < |c|
      invariant 0 <= i <= |c| && r == Kept(c, gone, i)
    {
      if !gone(c[i]) { r := r + [c[i]]; }
      i := i + 1;
    }
  }

  // ---------------------------------------------------------------- growing

  /** Puts an entry at the head of its chain. */
  function Pushed(bs: Chains, i: nat, x: Item): Chains
    requires i < |bs|
  {
    bs[i := [x] + bs[i]]
  }

  lemma {:induction false} PushedFlat(bs: Chains, i: nat, x: Item)
    requires i < |bs|
    ensures Flat(Pushed(bs, i, x)) == Flat(bs) + multiset{x}
  {
    FlatUpdate(bs, i, [x] + bs[i]);
    assert multiset([x] + bs[i]) == multiset{x} + multiset(bs[i]);
    Cancel(Flat(Pushed(bs, i, x)), multiset(bs[i]), Flat(bs), multiset{x});
  }

  lemma {:induction false} Cancel(a: multiset<Item>, m: multiset<Item>, b: multiset<Item>, x: multiset<Item>)
    requires a + m == b + (x + m)
    ensures a == b + x
  {
    forall y: Item ensures a[y] == (b + x)[y] {
      assert (a + m)[y] == (b + (x + m))[y];
    }
  }

  lemma {:induction false} PushedPlaced(bs: Chains, hash: Hash, rnd: int, shift: nat, x: Item)
    requires Placed(bs, hash, rnd, shift)
    ensures Placed(Pushed(bs, Index(hash(x.name, rnd), shift), x), hash, rnd, shift)
  {}

  /** Rehashes one chain into the new table. */
  method MoveChain(c: seq<Item>, bs0: Chains, hash: Hash, rnd: int, shift: nat) returns (bs: Chains)
    requires Placed(bs0, hash, rnd, shift)
    ensures Placed(bs, hash, rnd, shift) && Flat(bs) == Flat(bs0) + multiset(c)
  {
    bs := bs0;
    var i := 0;
    while i < |c|
      invariant 0 <= i <= |c| && Placed(bs, hash, rnd, shift) && Flat(bs) == Flat(bs0) + multiset(c[..i])
    {
      var b := Index(hash(c[i].name, rnd), shift);
      PushedFlat(bs, b, c[i]);
      PushedPlaced(bs, hash, rnd, shift, c[i]);
      PrefixNext(c, i);
      bs := Pushed(bs, b, c[i]);
      i := i + 1;
    }
    assert c[..i] == c;
  }

  lemma {:induction false} FlatEmpty(bs: Chains)
    requires forall i :: 0 <= i < |bs| ==> bs[i] == []
    ensures Flat(bs) == multiset{}
  {
    if bs != [] { FlatEmpty(bs[1..]); }
  }

  lemma {:induction false} FlatSnoc(bs: Chains, i: nat)
    requires i < |bs|
    ensures Flat(bs[..i + 1]) == Flat(bs[..i]) + multiset(bs[i])
  {
    if i == 0 {
      assert bs[..1][1..] == [];
    } else {
      FlatSnoc(bs[1..], i - 1);
      assert bs[..i + 1][1..] == bs[1..][..i] && bs[..i][1..] == bs[1..][..i - 1];
      assert multiset(bs[0]) + (Flat(bs[1..][..i - 1]) + multiset(bs[i])) == (multiset(bs[0]) + Flat(bs[1..][..i - 1])) + multiset(bs[i]);
    }
  }

  /** Growth under a new shift and seed keeps every entry exactly once. */
  method HashGrow(from: Chains, hash: Hash, rnd: int, shift: nat) returns (bs: Chains)
    requires 1 <= shift <= 32
    ensures Placed(bs, hash, rnd, shift) && Flat(bs) == Flat(from)
  {
    bs := seq(Power(shift), _ => []);
    FlatEmpty(bs);
    var i := 0;
    while i < |from|
      invariant 0 <= i <= |from| && Placed(bs, hash, rnd, shift) && Flat(bs) == Flat(from[..i])
    {
      bs := MoveChain(from[i], bs, hash, rnd, shift);
      FlatSnoc(from, i);
      i := i + 1;
    }
    assert from[..i] == from;
  }

  // ------------------------------------------------------------ map effects

  /** A well-formed table of some seed and size that stands for the map `m`. */
  ghost predicate Holds(bs: Chains, hash: Hash, rnd: int, shift: nat, m: map<Name, nat>) {
    Placed(bs, hash, rnd, shift) && Stands(Flat(bs), m)
  }

  /** Looking in the one bucket is looking in the whole table. */
  lemma {:induction false} BucketFinds(bs: Chains, hash: Hash, rnd: int, shift: nat, m: map<Name, nat>, name: Name)
    requires Holds(bs, hash, rnd, shift, m)
    ensures var r := FindIn(bs[Index(hash(name, rnd), shift)], name);
            if r.Some? then r.value.name == name && name in m && m[name] == r.value.id else name !in m
  {
    var i := Index(hash(name, rnd), shift);
    FindInIs(bs[i], name);
    match FindIn(bs[i], name)
    case Some(x) =>
      FlatIn(bs, x);
      assert Flat(bs)[x] > 0;
    case None =>
      if name in m {
        assert Flat(bs)[Item(name, m[name])] == 1;
        FlatIn(bs, Item(name, m[name]));
        assert false;
      }
  }

  lemma {:induction false} PushFresh(bs: Chains, hash: Hash, rnd: int, shift: nat, m: map<Name, nat>, x: Item)
    requires Holds(bs, hash, rnd, shift, m) && x.name !in m
    ensures Holds(Pushed(bs, Index(hash(x.name, rnd), shift), x), hash, rnd, shift, m[x.name := x.id])
  {
    PushedPlaced(bs, hash, rnd, shift, x);
    PushedFlat(bs, Index(hash(x.name, rnd), shift), x);
  }

  /** Dropping exactly the entries that match `gone`. */
  ghost predicate Drops(ms: multiset<Item>, ns: multiset<Item>, gone: Item -> bool) {
    forall x :: ns[x] == if gone(x) then 0 else ms[x]
  }

  /** What is left of a map when the entries that match are taken out. */
  ghost function Remaining(m: map<Name, nat>, gone: Item -> bool): map<Name, nat> {
    map k | k in m && !gone(Item(k, m[k])) :: m[k]
  }

  lemma {:induction false} DropStands(ms: multiset<Item>, ns: multiset<Item>, gone: Item -> bool, m: map<Name, nat>)
    requires Stands(ms, m) && Drops(ms, ns, gone)
    ensures Stands(ns, Remaining(m, gone))
  {}

  /** Unlinking in every chain drops the matching entries from the table. */
  lemma {:induction false} ChainsDrop(bs: Chains, cs: Chains, gone: Item -> bool, x: Item)
    requires |cs| == |bs| && forall i :: 0 <= i < |bs| ==> cs[i] == Without(bs[i], gone)
    ensures Flat(cs)[x] == if gone(x) then 0 else Flat(bs)[x]
  {
    if bs != [] {
      ChainsDrop(bs[1..], cs[1..], gone, x);
      WithoutIn(bs[0], gone, x);
    }
  }

  lemma {:induction false} ChainsPlaced(bs: Chains, cs: Chains, gone: Item -> bool, hash: Hash, rnd: int, shift: nat)
    requires Placed(bs, hash, rnd, shift) && |cs| == |bs| && forall i :: 0 <= i < |bs| ==> cs[i] == Without(bs[i], gone)
    ensures Placed(cs, hash, rnd, shift)
  {
    forall i, x | 0 <= i < |cs| && x in cs[i] ensures Index(hash(x.name, rnd), shift) == i {
      WithoutIn(bs[i], gone, x);
      assert x in multiset(cs[i]);
      assert x in multiset(bs[i]);
    }
  }

  lemma {:induction false} Flushed(bs: Chains, cs: Chains, gone: Item -> bool, hash: Hash, rnd: int, shift: nat,
                                   m: map<Name, nat>)
    requires Holds(bs, hash, rnd, shift, m) && |cs| == |bs| && forall i :: 0 <= i < |bs| ==> cs[i] == Without(bs[i], gone)
    ensures Holds(cs, hash, rnd, shift, Remaining(m, gone))
  {
    ChainsPlaced(bs, cs, gone, hash, rnd, shift);
    forall x ensures Flat(cs)[x] == if gone(x) then 0 else Flat(bs)[x] { ChainsDrop(bs, cs, gone, x); }
    DropStands(Flat(bs), Flat(cs), gone, m);
  }

  /** `r` is the chain without its first entry that is `x`. */
  ghost predicate CutOut(c: seq<Item>, x: Item, r: seq<Item>) {
    exists i :: 0 <= i < |c| && c[i] == x && x !in c[..i] && r == c[..i] + c[i + 1..]
  }

  lemma {:induction false} CutIs(c: seq<Item>, x: Item, r: seq<Item>)
    requires CutOut(c, x, r)
    ensures multiset(r) + multiset{x} == multiset(c)
  {
    var i :| 0 <= i < |c| && c[i] == x && x !in c[..i] && r == c[..i] + c[i + 1..];
    assert c == c[..i] + ([x] + c[i + 1..]);
    TakenOut(c[..i], x, c[i + 1..]);
  }

  lemma {:induction false} TakenOut(a: seq<Item>, x: Item, b: seq<Item>)
    ensures multiset(a + b) + multiset{x} == multiset(a + ([x] + b))
  {
    assert multiset([x] + b) == multiset{x} + multiset(b);
  }

  /** Walks a chain to the entry and unlinks it there. */
  method UnlinkOne(c: seq<Item>, x: Item) returns (found: bool, r: seq<Item>)
    ensures found == (x in c) && if found then CutOut(c, x, r) else r == c
  {
    var i := 0;
    while i < |c|
      invariant 0 <= i <= |c| && x !in c[..i]
    {
      if c[i] == x { return true, c[..i] + c[i + 1..]; }
      i := i + 1;
    }
    return false, c;
  }

  /** Cutting an entry out of its chain takes it out of the table's entries. */
  lemma {:induction false} CutFlat(bs: Chains, x: Item, i: nat, c: seq<Item>)
    requires i < |bs| && CutOut(bs[i], x, c)
    ensures Flat(bs[i := c]) + multiset{x} == Flat(bs)
    ensures forall y :: y in c ==> y in bs[i]
  {
    CutIs(bs[i], x, c);
    FlatUpdate(bs, i, c);
    Trade(Flat(bs[i := c]), multiset(bs[i]), Flat(bs), multiset(c), multiset{x});
  }

  lemma {:induction false} Trade(a: multiset<Item>, m: multiset<Item>, b: multiset<Item>, c: multiset<Item>,
                                 x: multiset<Item>)
    requires a + m == b + c && c + x == m
    ensures a + x == b
  {
    forall y: Item ensures (a + x)[y] == b[y] {
      assert (a + m)[y] == (b + c)[y] && (c + x)[y] == m[y];
    }
  }

  lemma {:induction false} CutStands(ms: multiset<Item>, m: map<Name, nat>, x: Item, ms': multiset<Item>)
    requires Stands(ms, m) && ms' + multiset{x} == ms
    ensures x.name in m && m[x.name] == x.id && Stands(ms', m - {x.name})
  {}

  lemma {:induction false} CutHolds(bs: Chains, hash: Hash, rnd: int, shift: nat, m: map<Name, nat>, x: Item, i: nat,
                                    c: seq<Item>)
    requires Holds(bs, hash, rnd, shift, m) && i < |bs| && CutOut(bs[i], x, c)
    ensures x.name in m && m[x.name] == x.id && Holds(bs[i := c], hash, rnd, shift, m - {x.name})
  {
    CutFlat(bs, x, i, c);
    CutStands(Flat(bs), m, x, Flat(bs[i := c]));
  }

  // ------------------------------------------------------------- the table

  datatype Created = Existing(id: nat) | Fresh | Refused

  class Table {
    const hash: Hash
    var buckets: Chains
    var shift: nat
    var rnd: int
    /** The map the table stands for. */
    ghost var contents: map<Name, nat>

    ghost predicate Valid()
      reads this
    {
      Holds(buckets, hash, rnd, shift, contents)
    }

    /** An empty table of eight buckets. */
    constructor (h: Hash, seed: int)
      ensures Valid() && contents == map[] && hash == h
    {
      hash, shift, rnd, contents := h, 3, seed, map[];
      buckets := seq(8, _ => []);
      new;
      assert Power(3) == 8;
      FlatEmpty(buckets);
    }

    method Lookup(name: Name) returns (r: Option<nat>)
      requires Valid()
      ensures r == if name in contents then Some(contents[name]) else None
    {
      BucketFinds(buckets, hash, rnd, shift, contents, name);
      var x := WalkChain(buckets[Index(hash(name, rnd), shift)], name);
      r := if x.Some? then Some(x.value.id) else None;
    }

    /** Moves everything into a table twice the size, if there is memory for one. */
    method Grow(seed: int, room: bool)
      requires Valid() && shift < 32
      modifies `buckets, `rnd, `shift
      ensures Valid() && Flat(buckets) == old(Flat(buckets))
      ensures shift == (if room then old(shift) + 1 else old(shift)) && rnd == if room then seed else old(rnd)
    {
      if !room { return; }
      var bs := HashGrow(buckets, hash, seed, shift + 1);
      buckets, rnd, shift := bs, seed, shift + 1;
    }

    /**
     Adds an entry unless one of its name is there already.  `entries` counts the
     entries allocated so far, and may call for growth first.
     */
    method Create(x: Item, entries: nat, seed: int, room: bool, parmsDead: bool) returns (r: Created)
      requires Valid() && entries <= Power(32)
      modifies this
      ensures Valid() && (r == Refused <==> parmsDead)
      ensures shift == if entries > Power(old(shift)) && room then old(shift) + 1 else old(shift)
      ensures r.Existing? ==> x.name in contents && r.id == contents[x.name]
      ensures r != Fresh ==> contents == old(contents)
      ensures r == Fresh ==> x.name !in old(contents) && contents == old(contents)[x.name := x.id]
    {
      if entries > Power(shift) {
        Grow(seed, room);
      }
      r := Enter(x, parmsDead);
    }

    /** Adds an entry to the table as it is. */
    method Enter(x: Item, parmsDead: bool) returns (r: Created)
      requires Valid()
      modifies `buckets, `contents
      ensures Valid() && (r == Refused <==> parmsDead)
      ensures r.Existing? ==> x.name in contents && r.id == contents[x.name]
      ensures r != Fresh ==> contents == old(contents)
      ensures r == Fresh ==> x.name !in old(contents) && contents == old(contents)[x.name := x.id]
    {
      if parmsDead { return Refused; }
      var i := Index(hash(x.name, rnd), shift);
      BucketFinds(buckets, hash, rnd, shift, contents, x.name);
      var found := WalkChain(buckets[i], x.name);
      if found.Some? { return Existing(found.value.id); }
      PushFresh(buckets, hash, rnd, shift, contents, x);
      buckets, contents := Pushed(buckets, i, x), contents[x.name := x.id];
      return Fresh;
    }

    /** Takes an entry out if nobody else refers to it. */
    method RemoveOne(x: Item, alone: bool) returns (ok: bool)
      requires Valid()
      modifies this
      ensures Valid() && ok == (alone && x.name in old(contents) && old(contents)[x.name] == x.id)
      ensures contents == if ok then old(contents) - {x.name} else old(contents)
    {
      var i := Index(hash(x.name, rnd), shift);
      InBucket(buckets, hash, rnd, shift, contents, x);
      var found, c := UnlinkOne(buckets[i], x);
      ok := found && alone;
      if ok {
        CutHolds(buckets, hash, rnd, shift, contents, x, i, c);
        buckets, contents := buckets[i := c], contents - {x.name};
      }
    }

    /** Takes out all entries of a device, or of all devices, except those to be kept. */
    method FlushDev(dev: Option<Dev>, keep: Item -> bool)
      requires Valid()
      modifies this
      ensures Valid() && contents == Remaining(old(contents), Leaving(dev, keep))
    {
      var bs := FlushChains(buckets, Leaving(dev, keep));
      Flushed(buckets, bs, Leaving(dev, keep), hash, rnd, shift, contents);
      buckets, contents := bs, Remaining(contents, Leaving(dev, keep));
    }
  }

  /** Which entries a flush takes out. */
  function Leaving(dev: Option<Dev>, keep: Item -> bool): Item -> bool {
    (x: Item) => (dev.None? || x.name.0 == dev.value) && !keep(x)
  }

  method FlushChains(bs: Chains, gone: Item -> bool) returns (cs: Chains)
    ensures |cs| == |bs| && forall i :: 0 <= i < |bs| ==> cs[i] == Without(bs[i], gone)
  {
    cs := [];
    var i := 0;
    while i < |bs|
      invariant 0 <= i <= |bs| && |cs| == i && forall j :: 0 <= j < i ==> cs[j] == Without(bs[j], gone)
    {
      var c := UnlinkMatching(bs[i], gone);
      cs := cs + [c];
      i := i + 1;
    }
  }

  lemma {:induction false} InBucket(bs: Chains, hash: Hash, rnd: int, shift: nat, m: map<Name, nat>, x: Item)
    requires Holds(bs, hash, rnd, shift, m)
    ensures x in bs[Index(hash(x.name, rnd), shift)] <==> x.name in m && m[x.name] == x.id
  {
    FlatIn(bs, x);
    if x in bs[Index(hash(x.name, rnd), shift)] { assert Flat(bs)[x] > 0; }
    if x.name in m && m[x.name] == x.id { assert Flat(bs)[x] == 1; }
  }
}
