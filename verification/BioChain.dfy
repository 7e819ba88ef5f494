/**
 Completion of chained bios.  `bio_chain` makes a tree of bios; every bio is ended
 once by its driver, in any order and concurrently.  The counters are atomic, but a
 finished child passes its status on by testing the parent's status and storing to it
 in two separate accesses.  Each access is a step of its own here, so that completions
 climbing the tree interleave as freely as they do.
 */
module BioChain {
  import opened Common

  /**
   Where the completion of a bio is: waiting for decrements; past the last one;
   having seen whether the parent's status was zero; or handed on for good.
   */
  datatype Stage = Waiting | Passed | Tested(zero: bool) | Done

  /**
   `error` is what the driver reported last.  `tokens` counts the completions that
   have arrived at the bio and are about to decrement it, `ended` the calls of its own
   end function, `puts` how often it was freed by chaining.  `rank` orders parents
   before children.  `erased` says that the status is zero although an error stands,
   reported by the driver and not taken back or handed on by a child.
   */
  datatype Bio = Bio(parent: int, rank: nat, remaining: int, chain: bool, status: int, erased: bool,
                     called: bool, error: int, stage: Stage, tokens: int, ended: int, puts: int)

  type Bios = seq<Bio>

  function NewBio(rank: nat): Bio {
    Bio(-1, rank, 1, false, 0, false, false, 0, Waiting, 0, 0, 0)
  }

  /** How many of the first `k` bios are children of `i` that have not been handed on. */
  function Open(bs: Bios, i: int, k: nat): nat
    requires k <= |bs|
  {
    if k == 0 then 0 else Open(bs, i, k - 1) + if OpenChild(bs[k - 1], i) then 1 else 0
  }

  predicate OpenChild(b: Bio, i: int) {
    b.parent == i && !b.stage.Done?
  }

  /** How many decrements the bio is still waiting for. */
  function Left(bs: Bios, i: int): int
    requires 0 <= i < |bs|
  {
    (if bs[i].called then 0 else 1) + Open(bs, i, |bs|) + bs[i].tokens
  }

  /** A child that was handed on with an error. */
  predicate BadChild(bs: Bios, i: int) {
    exists c :: 0 <= c < |bs| && IsBad(bs[c], i)
  }

  predicate IsBad(b: Bio, i: int) {
    b.parent == i && b.stage.Done? && b.status != 0
  }

  /** The counter of the bio and what has been done with it. */
  ghost predicate Counted(bs: Bios, i: int)
    requires 0 <= i < |bs|
  {
    var b := bs[i];
    && -1 <= b.parent < |bs| && (b.parent >= 0 ==> bs[b.parent].rank < b.rank)
    && b.tokens >= 0 && (b.stage.Waiting? <==> Left(bs, i) > 0) && (b.parent < 0 ==> b.stage.Waiting? || b.stage.Done?)
    && (b.chain ==> b.stage.Waiting? && b.remaining == Left(bs, i))
    && (!b.chain && b.stage.Waiting? ==> Left(bs, i) == 1 && b.remaining == 1)
    && b.ended == (if b.stage.Done? && b.parent < 0 then 1 else 0)
    && b.puts == (if b.stage.Done? && b.parent >= 0 then 1 else 0)
  }

  /** The status of the bio: an error that was reported or passed on, unless erased. */
  ghost predicate Stated(bs: Bios, i: int)
    requires 0 <= i < |bs|
  {
    var b := bs[i];
    (b.status != 0 || b.erased <==> b.error != 0 || BadChild(bs, i)) && !(b.status != 0 && b.erased)
  }

  ghost predicate Right(bs: Bios, i: int)
    requires 0 <= i < |bs|
  {
    Counted(bs, i) && Stated(bs, i)
  }

  ghost predicate Sound(bs: Bios) {
    forall i :: 0 <= i < |bs| ==> Right(bs, i)
  }

  // ---------------------------------------------------------------- steps

  /** `bio_chain`: the parent will wait for one more completion. */
  predicate CanChain(bs: Bios, c: int, p: int) {
    && 0 <= c < |bs| && 0 <= p < |bs| && bs[c].parent == -1 && bs[p].rank < bs[c].rank
    && !bs[c].called && !bs[p].called
  }

  function Chain(bs: Bios, c: int, p: int): Bios
    requires CanChain(bs, c, p)
  {
    bs[c := bs[c].(parent := p)][p := bs[p].(chain := true, remaining := bs[p].remaining + 1)]
  }

  predicate CanReport(bs: Bios, i: int) {
    0 <= i < |bs| && !bs[i].called
  }

  /** The driver stores a status, zero or not, as often as it likes before it ends the bio. */
  function Report(bs: Bios, i: int, v: int): Bios
    requires 0 <= i < |bs|
  {
    bs[i := bs[i].(status := v, error := v, erased := v == 0 && BadChild(bs, i))]
  }

  /** The driver ends the bio, once. */
  function Call(bs: Bios, i: int): Bios
    requires 0 <= i < |bs|
  {
    bs[i := bs[i].(called := true, tokens := bs[i].tokens + 1)]
  }

  predicate Turns(bs: Bios, i: int) {
    0 <= i < |bs| && bs[i].tokens > 0
  }

  /** The decrement at the top of the loop in `bio_endio`, and the end of a root. */
  function Turn(bs: Bios, i: int): Bios
    requires Turns(bs, i)
  {
    var b := bs[i].(tokens := bs[i].tokens - 1);
    if b.chain && b.remaining - 1 != 0 then bs[i := b.(remaining := b.remaining - 1)]
    else
      var b1 := if b.chain then b.(remaining := 0, chain := false) else b;
      bs[i := if b.parent < 0 then b1.(stage := Done, ended := b1.ended + 1) else b1.(stage := Passed)]
  }

  predicate Tests(bs: Bios, i: int) {
    0 <= i < |bs| && bs[i].stage == Passed && 0 <= bs[i].parent < |bs|
  }

  /** Reads the parent's status. */
  function Test(bs: Bios, i: int): Bios
    requires Tests(bs, i)
  {
    bs[i := bs[i].(stage := Tested(bs[bs[i].parent].status == 0))]
  }

  predicate Stores(bs: Bios, i: int) {
    0 <= i < |bs| && bs[i].stage.Tested? && 0 <= bs[i].parent < |bs|
  }

  /** What a child with status `v` makes of its parent, having seen a zero in it or not. */
  function Given(b: Bio, v: int, zero: bool): Bio {
    if zero then b.(status := v, erased := v == 0 && (b.erased || b.status != 0))
    else b.(erased := b.erased || (v != 0 && b.status == 0))
  }

  /** Stores to it if it was seen to be zero, frees the child and goes on with the parent. */
  function Store(bs: Bios, i: int): Bios
    requires Stores(bs, i)
  {
    var p := bs[i].parent;
    var cs := bs[i := bs[i].(stage := Done, puts := bs[i].puts + 1)];
    var q := Given(cs[p], bs[i].status, bs[i].stage.zero);
    cs[p := q.(tokens := q.tokens + 1)]
  }

  // ------------------------------------------------------------- counting

  lemma {:induction false} OpenSame(bs: Bios, cs: Bios, i: int, k: nat)
    requires |bs| == |cs| && k <= |bs| && forall c :: 0 <= c < k ==> (OpenChild(bs[c], i) <==> OpenChild(cs[c], i))
    ensures Open(bs, i, k) == Open(cs, i, k)
  {
    if k > 0 { OpenSame(bs, cs, i, k - 1); }
  }

  /** One open child less. */
  lemma {:induction false} OpenLess(bs: Bios, cs: Bios, i: int, x: int, k: nat)
    requires |bs| == |cs| && k <= |bs| && 0 <= x < k && OpenChild(bs[x], i) && !OpenChild(cs[x], i)
    requires forall c :: 0 <= c < k && c != x ==> (OpenChild(bs[c], i) <==> OpenChild(cs[c], i))
    ensures Open(bs, i, k) == Open(cs, i, k) + 1
  {
    if x == k - 1 { OpenSame(bs, cs, i, k - 1); } else { OpenLess(bs, cs, i, x, k - 1); }
  }

  lemma {:induction false} OpenSome(bs: Bios, i: int, x: int, k: nat)
    requires k <= |bs| && 0 <= x < k && OpenChild(bs[x], i)
    ensures Open(bs, i, k) >= 1
  {
    if x < k - 1 { OpenSome(bs, i, x, k - 1); }
  }

  lemma {:induction false} OpenNone(bs: Bios, i: int, k: nat)
    requires k <= |bs| && forall c :: 0 <= c < k ==> !OpenChild(bs[c], i)
    ensures Open(bs, i, k) == 0
  {
    if k > 0 { OpenNone(bs, i, k - 1); }
  }

  // ------------------------------------------------------------ the steps

  /** The children of `j` are as open and as bad as they were. */
  ghost predicate SameBelow(bs: Bios, cs: Bios, j: int) {
    && |bs| == |cs|
    && (forall c :: 0 <= c < |bs| ==> (OpenChild(bs[c], j) <==> OpenChild(cs[c], j)))
    && (forall c :: 0 <= c < |bs| ==> (IsBad(bs[c], j) <==> IsBad(cs[c], j)))
  }

  lemma {:induction false} SameLeft(bs: Bios, cs: Bios, j: int)
    requires 0 <= j < |bs| && SameBelow(bs, cs, j)
    ensures Open(bs, j, |bs|) == Open(cs, j, |cs|) && (BadChild(bs, j) <==> BadChild(cs, j))
  {
    OpenSame(bs, cs, j, |bs|);
  }

  /** A bio that a step leaves alone, along with what it sees of others. */
  lemma {:induction false} Untouched(bs: Bios, cs: Bios, j: int)
    requires 0 <= j < |bs| && Right(bs, j) && SameBelow(bs, cs, j) && cs[j] == bs[j]
    requires bs[j].parent >= 0 ==> cs[bs[j].parent].rank == bs[bs[j].parent].rank
    ensures Right(cs, j)
  {
    SameLeft(bs, cs, j);
  }

  lemma {:induction false} ChainSound(bs: Bios, c: int, p: int)
    requires Sound(bs) && CanChain(bs, c, p)
    ensures Sound(Chain(bs, c, p))
  {
    var cs := Chain(bs, c, p);
    assert Right(bs, c) && Right(bs, p);
    forall i | 0 <= i < |cs| ensures Right(cs, i) {
      assert Right(bs, i);
      if i == p { ChainedParent(bs, c, p); } else { ChainedOther(bs, c, p, i); }
    }
  }

  lemma {:induction false} ChainedParent(bs: Bios, c: int, p: int)
    requires Sound(bs) && CanChain(bs, c, p) && Right(bs, c) && Right(bs, p)
    ensures Right(Chain(bs, c, p), p)
  {
    var cs := Chain(bs, c, p);
    OpenLess(cs, bs, p, c, |bs|);
    assert forall x :: 0 <= x < |bs| ==> (IsBad(bs[x], p) <==> IsBad(cs[x], p));
  }

  lemma {:induction false} ChainedOther(bs: Bios, c: int, p: int, i: int)
    requires Sound(bs) && CanChain(bs, c, p) && Right(bs, c) && Right(bs, p) && 0 <= i < |bs| && i != p && Right(bs, i)
    ensures Right(Chain(bs, c, p), i)
  {
    assert SameBelow(bs, Chain(bs, c, p), i);
    SameLeft(bs, Chain(bs, c, p), i);
  }

  /** Bio `x` changes in a way that nobody else sees, but for the status it may have been given. */
  ghost predicate Alone(bs: Bios, cs: Bios, x: int) {
    && |cs| == |bs| && 0 <= x < |bs| && (forall j :: 0 <= j < |bs| && j != x ==> cs[j] == bs[j])
    && cs[x].parent == bs[x].parent && cs[x].rank == bs[x].rank
    && (bs[x].parent >= 0 ==> !bs[x].stage.Done? && !cs[x].stage.Done?)
  }

  lemma {:induction false} AloneSound(bs: Bios, cs: Bios, x: int)
    requires Sound(bs) && Alone(bs, cs, x) && Right(cs, x)
    ensures Sound(cs)
  {
    assert Right(bs, x);
    forall j | 0 <= j < |cs| ensures Right(cs, j) {
      if j != x {
        assert Right(bs, j);
        assert SameBelow(bs, cs, j);
        Untouched(bs, cs, j);
      }
    }
  }

  lemma {:induction false} AloneBelow(bs: Bios, cs: Bios, x: int)
    requires Sound(bs) && Alone(bs, cs, x)
    ensures SameBelow(bs, cs, x)
  {
    assert Right(bs, x);
  }

  lemma {:induction false} ReportSound(bs: Bios, i: int, v: int)
    requires Sound(bs) && CanReport(bs, i)
    ensures Sound(Report(bs, i, v))
  {
    var cs := Report(bs, i, v);
    assert Right(bs, i);
    AloneBelow(bs, cs, i);
    SameLeft(bs, cs, i);
    AloneSound(bs, cs, i);
  }

  lemma {:induction false} CallSound(bs: Bios, i: int)
    requires Sound(bs) && 0 <= i < |bs| && !bs[i].called
    ensures Sound(Call(bs, i))
  {
    var cs := Call(bs, i);
    assert Right(bs, i);
    AloneBelow(bs, cs, i);
    SameLeft(bs, cs, i);
    AloneSound(bs, cs, i);
  }

  /** The check `BUG_ON(remaining <= 0)` never fires, and no parent is finished before its child. */
  lemma {:induction false} NoBug(bs: Bios, i: int)
    requires Sound(bs) && 0 <= i < |bs|
    ensures bs[i].tokens > 0 ==> bs[i].stage.Waiting? && (bs[i].chain ==> bs[i].remaining > 0)
    ensures bs[i].parent >= 0 && !bs[i].stage.Done? ==> bs[i].parent < |bs| && bs[bs[i].parent].stage.Waiting?
  {
    assert Right(bs, i);
    if bs[i].parent >= 0 && !bs[i].stage.Done? {
      assert Right(bs, bs[i].parent);
      OpenSome(bs, bs[i].parent, i, |bs|);
    }
  }

  /** The turn is the last one the bio waited for. */
  ghost predicate Finishes(bs: Bios, i: int)
    requires 0 <= i < |bs|
  {
    Left(bs, i) == 1
  }

  lemma {:induction false} TurnSound(bs: Bios, i: int)
    requires Sound(bs) && Turns(bs, i)
    ensures Sound(Turn(bs, i)) && (Turn(bs, i)[i].stage.Waiting? <==> !Finishes(bs, i))
  {
    var cs := Turn(bs, i);
    NoBug(bs, i);
    assert Right(bs, i);
    AloneBelow(bs, cs, i);
    SameLeft(bs, cs, i);
    AloneSound(bs, cs, i);
  }

  lemma {:induction false} TestSound(bs: Bios, i: int)
    requires Sound(bs) && Tests(bs, i)
    ensures Sound(Test(bs, i))
  {
    var cs := Test(bs, i);
    assert Right(bs, i);
    AloneBelow(bs, cs, i);
    SameLeft(bs, cs, i);
    AloneSound(bs, cs, i);
  }

  lemma {:induction false} StoreChild(bs: Bios, i: int, cs: Bios)
    requires Sound(bs) && Stores(bs, i) && cs == Store(bs, i)
    ensures Right(cs, i)
  {
    assert Right(bs, i) && Right(bs, bs[i].parent);
    NoBug(bs, i);
    assert SameBelow(bs, cs, i);
    SameLeft(bs, cs, i);
  }

  lemma {:induction false} StoreBad(bs: Bios, i: int, cs: Bios)
    requires Sound(bs) && Stores(bs, i) && cs == Store(bs, i)
    ensures BadChild(cs, bs[i].parent) <==> BadChild(bs, bs[i].parent) || bs[i].status != 0
  {
    var p := bs[i].parent;
    assert Right(bs, i) && Right(bs, p);
    if BadChild(bs, p) {
      var c :| 0 <= c < |bs| && IsBad(bs[c], p);
      assert IsBad(cs[c], p);
    }
    if bs[i].status != 0 { assert IsBad(cs[i], p); }
    if BadChild(cs, p) {
      var c :| 0 <= c < |cs| && IsBad(cs[c], p);
      assert c != i ==> IsBad(bs[c], p);
    }
  }

  lemma {:induction false} StoreParent(bs: Bios, i: int, cs: Bios)
    requires Sound(bs) && Stores(bs, i) && cs == Store(bs, i)
    ensures Right(cs, bs[i].parent)
  {
    var p := bs[i].parent;
    assert Right(bs, i) && Right(bs, p);
    NoBug(bs, i);
    OpenLess(bs, cs, p, i, |bs|);
    StoreBad(bs, i, cs);
  }

  /** Every access of every completion keeps the tree's books. */
  lemma {:induction false} StoreSound(bs: Bios, i: int)
    requires Sound(bs) && Stores(bs, i)
    ensures Sound(Store(bs, i))
  {
    var cs, p := Store(bs, i), bs[i].parent;
    assert Right(bs, i) && Right(bs, p);
    NoBug(bs, i);
    forall j | 0 <= j < |cs| ensures Right(cs, j) {
      assert Right(bs, j);
      if j == i {
        StoreChild(bs, i, cs);
      } else if j == p {
        StoreParent(bs, i, cs);
      } else {
        StoreOther(bs, i, j);
      }
    }
  }

  lemma {:induction false} StoreOther(bs: Bios, i: int, j: int)
    requires Sound(bs) && Stores(bs, i) && 0 <= j < |bs| && j != i && j != bs[i].parent && Right(bs, j)
    ensures Right(Store(bs, i), j)
  {
    NoBug(bs, i);
    assert SameBelow(bs, Store(bs, i), j);
    Untouched(bs, Store(bs, i), j);
  }

  // ------------------------------------------------- what the books imply

  /** `j` is `i` or a descendant of it. */
  ghost predicate Under(bs: Bios, j: int, i: int)
    requires Sound(bs) && 0 <= j < |bs|
    decreases bs[j].rank
  {
    j == i || (assert Right(bs, j); bs[j].parent >= 0 && Under(bs, bs[j].parent, i))
  }

  /** A finished bio has only finished descendants, each ended by its driver. */
  lemma {:induction false} DoneBelow(bs: Bios, j: int, i: int)
    requires Sound(bs) && 0 <= j < |bs| && 0 <= i < |bs| && bs[i].stage.Done? && Under(bs, j, i)
    ensures bs[j].stage.Done? && bs[j].called
    decreases bs[j].rank
  {
    assert Right(bs, j);
    if j != i {
      DoneBelow(bs, bs[j].parent, i);
      NoBug(bs, j);
    }
  }

  /** No completion is on its way. */
  ghost predicate Quiet(bs: Bios) {
    forall i :: 0 <= i < |bs| ==> bs[i].tokens == 0 && (bs[i].stage.Waiting? || bs[i].stage.Done?)
  }

  ghost predicate RankBelow(bs: Bios, r: int) {
    forall i :: 0 <= i < |bs| ==> bs[i].rank < r
  }

  lemma {:induction false} SomeBound(bs: Bios)
    ensures exists r :: RankBelow(bs, r)
  {
    if bs == [] {
      assert RankBelow(bs, 0);
    } else {
      SomeBound(bs[1..]);
      var r :| RankBelow(bs[1..], r);
      var top := if bs[0].rank < r then r else bs[0].rank + 1;
      forall i | 0 <= i < |bs| ensures bs[i].rank < top { if i > 0 { assert bs[i] == bs[1..][i - 1]; } }
      assert RankBelow(bs, top);
    }
  }

  ghost predicate AllCalled(bs: Bios, i: int)
    requires Sound(bs)
  {
    forall j :: 0 <= j < |bs| && Under(bs, j, i) ==> bs[j].called
  }

  /** With no completion on its way, a bio is finished once it and all below it were ended. */
  lemma {:induction false} QuietDone(bs: Bios, i: int, r: int)
    requires Sound(bs) && Quiet(bs) && RankBelow(bs, r) && 0 <= i < |bs| && AllCalled(bs, i)
    ensures bs[i].stage.Done?
    decreases r - bs[i].rank
  {
    assert Right(bs, i);
    assert Under(bs, i, i);
    forall c | 0 <= c < |bs| ensures !OpenChild(bs[c], i) {
      assert Right(bs, c);
      if bs[c].parent == i {
        forall j | 0 <= j < |bs| && Under(bs, j, c) ensures bs[j].called { UnderVia(bs, j, c, i); }
        QuietDone(bs, c, r);
      }
    }
    OpenNone(bs, i, |bs|);
  }

  lemma {:induction false} UnderVia(bs: Bios, j: int, c: int, i: int)
    requires Sound(bs) && 0 <= j < |bs| && 0 <= c < |bs| && Under(bs, j, c) && bs[c].parent == i && i >= 0
    ensures Under(bs, j, i)
    decreases bs[j].rank
  {
    assert Right(bs, j);
    if j != c {
      UnderVia(bs, bs[j].parent, c, i);
    } else {
      assert Under(bs, i, i);
    }
  }

  // ------------------------------------------------------------- the loop

  /** A child passes its status on with nothing in between. */
  function HandOn(bs: Bios, i: int): Bios
    requires Tests(bs, i)
  {
    Store(Test(bs, i), i)
  }

  lemma {:induction false} HandOnSound(bs: Bios, i: int)
    requires Sound(bs) && Tests(bs, i)
    ensures Sound(HandOn(bs, i)) && |HandOn(bs, i)| == |bs| && Turns(HandOn(bs, i), bs[i].parent)
    ensures var p := bs[i].parent;
            && HandOn(bs, i)[p].rank == bs[p].rank < bs[i].rank
            && HandOn(bs, i)[p].erased == (bs[p].erased && bs[i].status == 0)
            && HandOn(bs, i)[p].status == if bs[p].status != 0 then bs[p].status else bs[i].status
  {
    TestSound(bs, i);
    StoreSound(Test(bs, i), i);
    assert Right(bs, i) && Right(bs, bs[i].parent);
  }

  /** Ending a bio by recursion: its turn, and its parent's if it finished. */
  ghost function EndRecursively(bs: Bios, i: int): Bios
    requires Sound(bs) && Turns(bs, i)
    decreases bs[i].rank
  {
    assert Right(bs, i);
    TurnSound(bs, i);
    var cs := Turn(bs, i);
    if Tests(cs, i) then
      HandOnSound(cs, i);
      EndRecursively(HandOn(cs, i), bs[i].parent)
    else cs
  }

  /**
   What a completion that runs to its end makes of a bio, `spent` being how many
   decrements it used up there: it hands a waiting bio on or leaves it where it is, and
   neither replaces nor erases a status.
   */
  ghost predicate Carried(b: Bio, c: Bio, spent: int) {
    && c.parent == b.parent && c.rank == b.rank && c.called == b.called && c.error == b.error
    && c.tokens == b.tokens - spent && (c.stage == b.stage || (b.stage.Waiting? && c.stage.Done?))
    && (b.status != 0 ==> c.status == b.status) && (c.erased ==> b.erased)
  }

  ghost predicate AllCarried(bs: Bios, cs: Bios, i: int) {
    |cs| == |bs| && Sound(cs) && forall j :: 0 <= j < |bs| ==> Carried(bs[j], cs[j], One(j == i))
  }

  lemma {:induction false} HandOnCarried(bs: Bios, i: int, es: Bios)
    requires Sound(bs) && Turns(bs, i) && Tests(Turn(bs, i), i)
    requires AllCarried(HandOn(Turn(bs, i), i), es, bs[i].parent)
    ensures AllCarried(bs, es, i)
  {
    var ds, p := HandOn(Turn(bs, i), i), bs[i].parent;
    NoBug(bs, i);
    assert Right(bs, i);
    forall j | 0 <= j < |bs| ensures Carried(bs[j], es[j], One(j == i)) {
      assert Carried(ds[j], es[j], One(j == p));
    }
  }

  /** The recursion goes to its end: it uses up the one decrement it began with and leaves none behind. */
  lemma {:induction false} EndCarried(bs: Bios, i: int)
    requires Sound(bs) && Turns(bs, i)
    ensures AllCarried(bs, EndRecursively(bs, i), i)
    decreases bs[i].rank
  {
    var cs := Turn(bs, i);
    TurnSound(bs, i);
    NoBug(bs, i);
    assert Right(bs, i);
    if Tests(cs, i) {
      HandOnSound(cs, i);
      EndCarried(HandOn(cs, i), bs[i].parent);
      HandOnCarried(bs, i, EndRecursively(bs, i));
    }
  }

  /**
   Bio `i` has been ended by its driver and by nobody else, and no completion is on its
   way that was not before.
   */
  ghost predicate Ended(bs: Bios, cs: Bios, i: int) {
    && |cs| == |bs| && Sound(cs) && 0 <= i < |bs|
    && forall j :: 0 <= j < |bs| ==> Carried(bs[j].(called := j == i || bs[j].called), cs[j], 0)
  }

  lemma {:induction false} CalledEnded(bs: Bios, i: int)
    requires Sound(bs) && 0 <= i < |bs| && !bs[i].called
    ensures Sound(Call(bs, i)) && Turns(Call(bs, i), i) && Ended(bs, EndRecursively(Call(bs, i), i), i)
  {
    var s := Call(bs, i);
    CallSound(bs, i);
    assert Right(bs, i);
    EndCarried(s, i);
    var cs := EndRecursively(s, i);
    forall j | 0 <= j < |bs| ensures Carried(bs[j].(called := j == i || bs[j].called), cs[j], 0) {
      assert Carried(s[j], cs[j], One(j == i));
    }
  }

  /** If nothing was on its way nothing is, and a root of which all was ended has ended. */
  lemma {:induction false} EndedQuiet(bs: Bios, cs: Bios, i: int)
    requires Quiet(bs) && Ended(bs, cs, i)
    ensures Quiet(cs)
    ensures forall r :: 0 <= r < |cs| && cs[r].parent < 0 && AllCalled(cs, r) ==> cs[r].ended == 1
  {
    forall j | 0 <= j < |cs| ensures cs[j].tokens == 0 && (cs[j].stage.Waiting? || cs[j].stage.Done?) {
      assert Carried(bs[j].(called := j == i || bs[j].called), cs[j], 0);
    }
    SomeBound(cs);
    var top :| RankBelow(cs, top);
    forall r | 0 <= r < |cs| && cs[r].parent < 0 && AllCalled(cs, r) ensures cs[r].ended == 1 {
      QuietDone(cs, r, top);
      assert Right(cs, r);
    }
  }

  /** `bio_remaining_done` and the end of a root; says whether a chained bio finished. */
  method TurnInPlace(bios: array<Bio>, i: int) returns (passed: bool)
    requires Sound(bios[..]) && Turns(bios[..], i)
    modifies bios
    ensures bios[..] == Turn(old(bios[..]), i) && passed == Tests(bios[..], i)
    ensures passed <==> Finishes(old(bios[..]), i) && old(bios[i]).parent >= 0
  {
    ghost var bs := bios[..];
    assert Right(bs, i);
    NoBug(bs, i);
    TurnSound(bs, i);
    var b := bios[i];
    b := b.(tokens := b.tokens - 1);
    if b.chain {
      assert b.remaining > 0;
      b := b.(remaining := b.remaining - 1);
      if b.remaining != 0 {
        bios[i] := b;
        assert bios[..] == Turn(bs, i);
        return false;
      }
      b := b.(chain := false);
    }
    passed := b.parent >= 0;
    bios[i] := if passed then b.(stage := Passed) else b.(stage := Done, ended := b.ended + 1);
    assert bios[..] == Turn(bs, i);
  }

  /** `__bio_chain_endio`, undisturbed. */
  method HandOnInPlace(bios: array<Bio>, i: int) returns (parent: int)
    requires Sound(bios[..]) && Tests(bios[..], i)
    modifies bios
    ensures bios[..] == HandOn(old(bios[..]), i) && parent == old(bios[i]).parent
  {
    ghost var bs := bios[..];
    assert Right(bs, i) && Right(bs, bs[i].parent);
    parent := bios[i].parent;
    var p := bios[parent];
    if p.status == 0 { p := Given(p, bios[i].status, true); }
    bios[i] := bios[i].(stage := Done, puts := bios[i].puts + 1);
    bios[parent] := p.(tokens := p.tokens + 1);
    assert bios[..] == HandOn(bs, i);
  }

  /**
   `bio_endio`: the loop does what the recursion does.  It leaves no completion behind:
   where none was on its way, every bio of which all was ended is finished.
   */
  method BioEndio(bios: array<Bio>, i: int)
    requires 0 <= i < bios.Length && Sound(bios[..]) && !bios[i].called
    modifies bios
    ensures Ended(old(bios[..]), bios[..], i)
    ensures Quiet(old(bios[..])) ==>
              && Quiet(bios[..])
              && forall r :: 0 <= r < bios.Length && bios[r].parent < 0 && AllCalled(bios[..], r) ==> bios[r].ended == 1
    ensures var s := Call(old(bios[..]), i); Sound(s) && Turns(s, i) && bios[..] == EndRecursively(s, i)
  {
    ghost var first, start := bios[..], Call(bios[..], i);
    CalledEnded(first, i);
    assert Right(first, i);
    bios[i] := bios[i].(called := true, tokens := bios[i].tokens + 1);
    assert bios[..] == start;
    var cur := i;
    while true
      invariant Sound(bios[..]) && Turns(bios[..], cur) && EndRecursively(bios[..], cur) == EndRecursively(start, i)
      decreases bios[cur].rank
    {
      ghost var bs := bios[..];
      TurnSound(bs, cur);
      var passed := TurnInPlace(bios, cur);
      if !passed {
        if Quiet(first) { EndedQuiet(first, bios[..], i); }
        return;
      }
      HandOnSound(bios[..], cur);
      cur := HandOnInPlace(bios, cur);
    }
  }
}
