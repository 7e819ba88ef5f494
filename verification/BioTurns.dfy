/**
 The turns of the loops that copy one list of bios to another: where each turn leads,
 and exactly when the turns come to an end.  A turn that lands on an empty vector, with
 something left to copy on both sides, copies nothing and moves nothing, for ever.
 */
module BioTurns {
  import opened Common
  import opened BioIter

  /** The current bio of either list and the iterator in it. */
  datatype Pos = Pos(i: nat, si: Iter, j: nat, di: Iter)

  predicate AllFit(bs: seq<Bio>) {
    forall i :: 0 <= i < |bs| ==> Fits(bs[i].vecs, bs[i].iter)
  }

  predicate Inside(bs: seq<Bio>, k: nat, it: Iter) {
    AllFit(bs) && k < |bs| && Fits(bs[k].vecs, it)
  }

  predicate InPlace(srcs: seq<Bio>, dsts: seq<Bio>, p: Pos) {
    Inside(srcs, p.i, p.si) && Inside(dsts, p.j, p.di)
  }

  /** The check at the top of the outer loop: on to the next bio, if this one is used up. */
  function Moved(bs: seq<Bio>, k: nat, it: Iter): Option<(nat, Iter)> {
    if it.size > 0 then Some((k, it)) else if k + 1 < |bs| then Some((k + 1, bs[k + 1].iter)) else None
  }

  function Checked(srcs: seq<Bio>, dsts: seq<Bio>, p: Pos): (r: Option<Pos>)
    requires InPlace(srcs, dsts, p)
    ensures r.Some? ==> InPlace(srcs, dsts, r.value)
  {
    match Moved(srcs, p.i, p.si)
    case None => None
    case Some(s) =>
      match Moved(dsts, p.j, p.di)
      case None => None
      case Some(d) => Some(Pos(s.0, s.1, d.0, d.1))
  }

  predicate Copies(p: Pos) {
    p.si.size > 0 && p.di.size > 0
  }

  /** How much the next turn copies. */
  function Piece(srcs: seq<Bio>, dsts: seq<Bio>, p: Pos): nat
    requires InPlace(srcs, dsts, p) && Copies(p)
  {
    Min(Segment(srcs[p.i].vecs, p.si).len, Segment(dsts[p.j].vecs, p.di).len)
  }

  /** One turn of the inner loop. */
  function Turned(srcs: seq<Bio>, dsts: seq<Bio>, p: Pos): (r: Pos)
    requires InPlace(srcs, dsts, p) && Copies(p)
    ensures InPlace(srcs, dsts, r)
  {
    SegmentNext(srcs[p.i].vecs, p.si);
    SegmentNext(dsts[p.j].vecs, p.di);
    var n := Piece(srcs, dsts, p);
    NextIterRest(srcs[p.i].vecs, p.si, n);
    NextIterRest(dsts[p.j].vecs, p.di, n);
    Pos(p.i, NextIter(srcs[p.i].vecs, p.si, n), p.j, NextIter(dsts[p.j].vecs, p.di, n))
  }

  /** From one check to the next; none if the copy is over. */
  function Step(srcs: seq<Bio>, dsts: seq<Bio>, p: Pos): (r: Option<Pos>)
    requires InPlace(srcs, dsts, p)
    ensures r.Some? ==> InPlace(srcs, dsts, r.value)
  {
    match Checked(srcs, dsts, p)
    case None => None
    case Some(q) => Some(if Copies(q) then Turned(srcs, dsts, q) else q)
  }

  function After(srcs: seq<Bio>, dsts: seq<Bio>, p: Pos, k: nat): (r: Option<Pos>)
    requires InPlace(srcs, dsts, p)
    ensures r.Some? ==> InPlace(srcs, dsts, r.value)
  {
    if k == 0 then Some(p)
    else match After(srcs, dsts, p, k - 1) case None => None case Some(q) => Step(srcs, dsts, q)
  }

  // ------------------------------------------------------------ what is left

  function Total(bs: seq<Bio>, k: nat): nat
    decreases |bs| - k
  {
    if k >= |bs| then 0 else bs[k].iter.size + Total(bs, k + 1)
  }

  function Left(bs: seq<Bio>, k: nat, it: Iter): nat {
    it.size + Total(bs, k + 1)
  }

  /** An empty vector is met in the list before `b` bytes. */
  predicate GapAhead(bs: seq<Bio>, k: nat, it: Iter, b: int)
    decreases |bs| - k
  {
    k < |bs| && (GapIn(bs[k].vecs, it, b) || (k + 1 < |bs| && b > it.size && GapAhead(bs, k + 1, bs[k + 1].iter, b - it.size)))
  }

  /** An empty vector is met on either side before either side is used up. */
  predicate Stalls(srcs: seq<Bio>, dsts: seq<Bio>, p: Pos) {
    var b := Min(Left(srcs, p.i, p.si), Left(dsts, p.j, p.di));
    GapAhead(srcs, p.i, p.si, b) || GapAhead(dsts, p.j, p.di, b)
  }

  lemma {:induction false} NoGap(bs: seq<Bio>, k: nat, it: Iter, b: int)
    requires b <= 0
    ensures !GapAhead(bs, k, it, b)
  {}

  lemma {:induction false} GapChecked(bs: seq<Bio>, k: nat, it: Iter, b: int)
    requires Inside(bs, k, it)
    ensures match Moved(bs, k, it)
            case None => Left(bs, k, it) == 0
            case Some(q) => Left(bs, q.0, q.1) == Left(bs, k, it) && (GapAhead(bs, q.0, q.1, b) <==> GapAhead(bs, k, it, b))
  {
    if it.size == 0 && k + 1 < |bs| && b <= 0 { NoGap(bs, k + 1, bs[k + 1].iter, b); }
  }

  lemma {:induction false} GapTurned(bs: seq<Bio>, k: nat, it: Iter, n: nat, b: int)
    requires Inside(bs, k, it) && it.size > 0 && n <= Segment(bs[k].vecs, it).len && n <= b
    ensures n <= it.size
    ensures Left(bs, k, NextIter(bs[k].vecs, it, n)) == Left(bs, k, it) - n
    ensures GapAhead(bs, k, NextIter(bs[k].vecs, it, n), b - n) <==> GapAhead(bs, k, it, b)
  {
    SegmentNext(bs[k].vecs, it);
    GapMoved(bs[k].vecs, it, n, b);
  }

  /** A step changes nothing about whether the copy will stall, and a copy that is over did not. */
  lemma {:induction false} StepStalls(srcs: seq<Bio>, dsts: seq<Bio>, p: Pos)
    requires InPlace(srcs, dsts, p)
    ensures match Step(srcs, dsts, p)
            case None => !Stalls(srcs, dsts, p)
            case Some(q) => Stalls(srcs, dsts, q) <==> Stalls(srcs, dsts, p)
  {
    var b := Min(Left(srcs, p.i, p.si), Left(dsts, p.j, p.di));
    GapChecked(srcs, p.i, p.si, b);
    GapChecked(dsts, p.j, p.di, b);
    match Checked(srcs, dsts, p)
    case None =>
      NoGap(srcs, p.i, p.si, b);
      NoGap(dsts, p.j, p.di, b);
    case Some(q) =>
      if Copies(q) { TurnStalls(srcs, dsts, q); }
  }

  lemma {:induction false} TurnStalls(srcs: seq<Bio>, dsts: seq<Bio>, p: Pos)
    requires InPlace(srcs, dsts, p) && Copies(p)
    ensures Stalls(srcs, dsts, Turned(srcs, dsts, p)) <==> Stalls(srcs, dsts, p)
  {
    var n, b := Piece(srcs, dsts, p), Min(Left(srcs, p.i, p.si), Left(dsts, p.j, p.di));
    SegmentNext(srcs[p.i].vecs, p.si);
    SegmentNext(dsts[p.j].vecs, p.di);
    GapTurned(srcs, p.i, p.si, n, b);
    GapTurned(dsts, p.j, p.di, n, b);
  }

  // ------------------------------------------------------------- the end

  /** What the turns use up: bytes on both sides, and bios. */
  function Work(srcs: seq<Bio>, dsts: seq<Bio>, p: Pos): nat
    requires InPlace(srcs, dsts, p)
  {
    Left(srcs, p.i, p.si) + Left(dsts, p.j, p.di) + (|srcs| - p.i) + (|dsts| - p.j)
  }

  /** The position is at an empty vector with something left on both sides. */
  predicate Stuck(srcs: seq<Bio>, dsts: seq<Bio>, p: Pos)
    requires InPlace(srcs, dsts, p)
  {
    Copies(p) && (srcs[p.i].vecs[p.si.idx].len == 0 || dsts[p.j].vecs[p.di.idx].len == 0)
  }

  /** A step either gets somewhere or, exactly at an empty vector, nowhere at all. */
  lemma {:induction false} StepWorks(srcs: seq<Bio>, dsts: seq<Bio>, p: Pos)
    requires InPlace(srcs, dsts, p) && Step(srcs, dsts, p).Some?
    ensures var q := Step(srcs, dsts, p).value;
            if Stuck(srcs, dsts, p) then q == p else Work(srcs, dsts, q) < Work(srcs, dsts, p)
  {
    GapChecked(srcs, p.i, p.si, 0);
    GapChecked(dsts, p.j, p.di, 0);
    var q := Checked(srcs, dsts, p).value;
    if Copies(q) { TurnWorks(srcs, dsts, q); }
  }

  lemma {:induction false} TurnWorks(srcs: seq<Bio>, dsts: seq<Bio>, p: Pos)
    requires InPlace(srcs, dsts, p) && Copies(p)
    ensures var q := Turned(srcs, dsts, p);
            if Stuck(srcs, dsts, p) then q == p && Stalls(srcs, dsts, p) else Work(srcs, dsts, q) < Work(srcs, dsts, p)
  {
    var n := Piece(srcs, dsts, p);
    SegmentNext(srcs[p.i].vecs, p.si);
    SegmentNext(dsts[p.j].vecs, p.di);
    NextIterWithin(srcs[p.i].vecs, p.si, n);
    NextIterWithin(dsts[p.j].vecs, p.di, n);
  }

  lemma {:induction false} AfterStep(srcs: seq<Bio>, dsts: seq<Bio>, p: Pos, q: Pos, k: nat)
    requires InPlace(srcs, dsts, p) && Step(srcs, dsts, p) == Some(q)
    ensures After(srcs, dsts, p, k + 1) == After(srcs, dsts, q, k)
  {
    if k > 0 { AfterStep(srcs, dsts, p, q, k - 1); }
  }

  ghost predicate Ends(srcs: seq<Bio>, dsts: seq<Bio>, p: Pos)
    requires InPlace(srcs, dsts, p)
  {
    exists k: nat :: After(srcs, dsts, p, k) == None
  }

  lemma {:induction false} EndsNow(srcs: seq<Bio>, dsts: seq<Bio>, p: Pos)
    requires InPlace(srcs, dsts, p) && Step(srcs, dsts, p) == None
    ensures After(srcs, dsts, p, 1) == None
  {
    assert After(srcs, dsts, p, 0) == Some(p);
  }

  lemma {:induction false} StuckStalls(srcs: seq<Bio>, dsts: seq<Bio>, p: Pos)
    requires InPlace(srcs, dsts, p) && Stuck(srcs, dsts, p)
    ensures Stalls(srcs, dsts, p) && Step(srcs, dsts, p) == Some(p)
  {
    TurnWorks(srcs, dsts, p);
  }

  /** The turns are over, or stand still, after `k` steps. */
  ghost predicate Settled(srcs: seq<Bio>, dsts: seq<Bio>, p: Pos, k: nat)
    requires InPlace(srcs, dsts, p)
  {
    match After(srcs, dsts, p, k)
    case None => true
    case Some(q) => Stuck(srcs, dsts, q)
  }

  /** Whatever settles `q` settles `p` one step earlier. */
  ghost predicate Follows(srcs: seq<Bio>, dsts: seq<Bio>, p: Pos, q: Pos) {
    && InPlace(srcs, dsts, p) && InPlace(srcs, dsts, q) && Work(srcs, dsts, q) < Work(srcs, dsts, p)
    && forall n: nat :: Settled(srcs, dsts, q, n) ==> Settled(srcs, dsts, p, n + 1)
  }

  lemma {:induction false} SettledStep(srcs: seq<Bio>, dsts: seq<Bio>, p: Pos, q: Pos, n: nat)
    requires InPlace(srcs, dsts, p) && Step(srcs, dsts, p) == Some(q) && Settled(srcs, dsts, q, n)
    ensures Settled(srcs, dsts, p, n + 1)
  {
    AfterStep(srcs, dsts, p, q, n);
  }

  lemma {:induction false} SettledOrNearer(srcs: seq<Bio>, dsts: seq<Bio>, p: Pos) returns (q: Pos)
    requires InPlace(srcs, dsts, p)
    ensures Settled(srcs, dsts, p, 0) || Settled(srcs, dsts, p, 1) || Follows(srcs, dsts, p, q)
  {
    q := p;
    if Step(srcs, dsts, p) == None {
      EndsNow(srcs, dsts, p);
    } else if !Stuck(srcs, dsts, p) {
      q := Step(srcs, dsts, p).value;
      StepWorks(srcs, dsts, p);
      forall n: nat | Settled(srcs, dsts, q, n) ensures Settled(srcs, dsts, p, n + 1) { SettledStep(srcs, dsts, p, q, n); }
    }
  }

  /** The turns come to an end or to a stand. */
  lemma {:induction false} Goes(srcs: seq<Bio>, dsts: seq<Bio>, p: Pos) returns (k: nat)
    requires InPlace(srcs, dsts, p)
    ensures Settled(srcs, dsts, p, k)
    decreases Work(srcs, dsts, p)
  {
    var q := SettledOrNearer(srcs, dsts, p);
    if Settled(srcs, dsts, p, 0) { return 0; }
    if Settled(srcs, dsts, p, 1) { return 1; }
    k := Goes(srcs, dsts, q);
    k := k + 1;
  }

  /** Any number of steps changes nothing about whether the copy will stall. */
  lemma {:induction false} AfterStalls(srcs: seq<Bio>, dsts: seq<Bio>, p: Pos, k: nat)
    requires InPlace(srcs, dsts, p)
    ensures match After(srcs, dsts, p, k)
            case None => !Stalls(srcs, dsts, p)
            case Some(q) => Stalls(srcs, dsts, q) <==> Stalls(srcs, dsts, p)
  {
    if k > 0 {
      AfterStalls(srcs, dsts, p, k - 1);
      match After(srcs, dsts, p, k - 1)
      case None =>
      case Some(q) => StepStalls(srcs, dsts, q);
    }
  }

  /** The copy comes to an end if and only if no empty vector is met before either side is used up. */
  lemma {:induction false} EndsExactly(srcs: seq<Bio>, dsts: seq<Bio>, p: Pos)
    requires InPlace(srcs, dsts, p)
    ensures Ends(srcs, dsts, p) <==> !Stalls(srcs, dsts, p)
  {
    if Ends(srcs, dsts, p) {
      var k: nat :| After(srcs, dsts, p, k) == None;
      AfterStalls(srcs, dsts, p, k);
    } else {
      var k, q := StandsStill(srcs, dsts, p);
    }
  }

  /** A copy that does not end comes to stand at a position it never leaves. */
  lemma {:induction false} StandsStill(srcs: seq<Bio>, dsts: seq<Bio>, p: Pos) returns (k: nat, q: Pos)
    requires InPlace(srcs, dsts, p) && !Ends(srcs, dsts, p)
    ensures After(srcs, dsts, p, k) == Some(q) && Stuck(srcs, dsts, q) && Step(srcs, dsts, q) == Some(q) && Stalls(srcs, dsts, p)
  {
    k := Goes(srcs, dsts, p);
    assert Settled(srcs, dsts, p, k) && After(srcs, dsts, p, k) != None;
    q := After(srcs, dsts, p, k).value;
    StuckStalls(srcs, dsts, q);
    AfterStalls(srcs, dsts, p, k);
  }

  // ------------------------------------------------------- on the inputs

  /** Vector `z` of bio `x` is empty, inside what is left of its bio, with fewer than `b` bytes of the list in front. */
  predicate EmptyIn(bs: seq<Bio>, k: nat, b: int, x: int, z: int) {
    k <= x < |bs| && EmptyAt(bs[x].vecs, bs[x].iter, b - Total(bs, k) + Total(bs, x), z)
  }

  /** A gap is ahead exactly if there is such a vector. */
  lemma {:induction false} GapAheadIs(bs: seq<Bio>, k: nat, b: int)
    requires AllFit(bs) && k < |bs|
    ensures GapAhead(bs, k, bs[k].iter, b) <==> exists x, z :: EmptyIn(bs, k, b, x, z)
    decreases |bs| - k
  {
    GapIs(bs[k].vecs, bs[k].iter, b);
    assert forall z :: EmptyIn(bs, k, b, k, z) <==> EmptyAt(bs[k].vecs, bs[k].iter, b, z);
    if GapIn(bs[k].vecs, bs[k].iter, b) {
      var z :| EmptyAt(bs[k].vecs, bs[k].iter, b, z);
      assert EmptyIn(bs, k, b, k, z);
    }
    GapLater(bs, k, b);
  }

  lemma {:induction false} GapLater(bs: seq<Bio>, k: nat, b: int)
    requires AllFit(bs) && k < |bs|
    ensures (k + 1 < |bs| && b > bs[k].iter.size && GapAhead(bs, k + 1, bs[k + 1].iter, b - bs[k].iter.size))
            <==> exists x, z :: x > k && EmptyIn(bs, k, b, x, z)
    decreases |bs| - k, 0
  {
    var b' := b - bs[k].iter.size;
    assert forall x, z :: x > k ==> (EmptyIn(bs, k, b, x, z) <==> EmptyIn(bs, k + 1, b', x, z));
    if k + 1 < |bs| {
      GapAheadIs(bs, k + 1, b');
      if GapAhead(bs, k + 1, bs[k + 1].iter, b') {
        var x, z :| EmptyIn(bs, k + 1, b', x, z);
        assert x > k && EmptyIn(bs, k, b, x, z);
      }
      if b' <= 0 { NoGap(bs, k + 1, bs[k + 1].iter, b'); }
    }
  }
}
