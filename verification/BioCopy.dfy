/**
 Copying between two lists of bios whose data is cut into pieces differently.  Copying
 moves the bytes of one run of addresses to the places of the other, as far as the
 shorter goes.
 */
module BioCopy {
  import opened Common
  import opened BioIter
  import opened BioTurns

  // -------------------------------------------------------------- copying

  type Byte = int

  /** The first `p` bytes have been copied and nothing else has changed. */
  ghost predicate CopiedTo(m0: seq<Byte>, m: seq<Byte>, to: seq<nat>, from: seq<nat>, p: nat) {
    && |m| == |m0| && p <= |to| && p <= |from| && Within(to, |m0|) && Within(from, |m0|)
    && (forall k :: 0 <= k < p ==> m[to[k]] == m0[from[k]])
    && forall a :: 0 <= a < |m| && a !in to[..p] ==> m[a] == m0[a]
  }

  ghost predicate Within(s: seq<nat>, n: nat) {
    forall k :: 0 <= k < |s| ==> s[k] < n
  }

  ghost predicate NoRepeats(s: seq<nat>) {
    forall i, j :: 0 <= i < j < |s| ==> s[i] != s[j]
  }

  ghost predicate Apart(s: seq<nat>, t: seq<nat>) {
    forall i, j :: 0 <= i < |s| && 0 <= j < |t| ==> s[i] != t[j]
  }

  /** `memcpy` between two places that do not overlap. */
  method Memcpy(mem: array<Byte>, dst: nat, src: nat, n: nat)
    requires dst + n <= mem.Length && src + n <= mem.Length && (dst + n <= src || src + n <= dst || n == 0)
    modifies mem
    ensures forall a :: dst <= a < dst + n ==> mem[a] == old(mem[a - dst + src])
    ensures forall a :: 0 <= a < mem.Length && !(dst <= a < dst + n) ==> mem[a] == old(mem[a])
  {
    var i := 0;
    while i < n
      invariant 0 <= i <= n
      invariant forall a :: dst <= a < dst + i ==> mem[a] == old(mem[a - dst + src])
      invariant forall a :: 0 <= a < mem.Length && !(dst <= a < dst + i) ==> mem[a] == old(mem[a])
    {
      mem[dst + i] := mem[src + i];
      i := i + 1;
    }
  }

  lemma {:induction false} ChunkCopied(m0: seq<Byte>, m: seq<Byte>, m1: seq<Byte>, to: seq<nat>, from: seq<nat>, p: nat,
                                       d: nat, s: nat, n: nat)
    requires CopiedTo(m0, m, to, from, p) && p + n <= |to| && p + n <= |from| && NoRepeats(to) && Apart(to, from)
    requires to[p..p + n] == Range(d, n) && from[p..p + n] == Range(s, n) && |m1| == |m| && d + n <= |m| && s + n <= |m|
    requires forall a :: d <= a < d + n ==> m1[a] == m[a - d + s]
    requires forall a :: 0 <= a < |m| && !(d <= a < d + n) ==> m1[a] == m[a]
    ensures CopiedTo(m0, m1, to, from, p + n)
  {
    forall k | 0 <= k < p + n ensures m1[to[k]] == m0[from[k]] {
      if k < p { OutsideChunk(to, p, d, n, k); } else { InsideChunk(m0, m, to, from, p, d, s, n, k); }
    }
    forall a | 0 <= a < |m1| && a !in to[..p + n] ensures m1[a] == m0[a] {
      ChunkInside(to, p, d, n, a);
      assert forall k :: 0 <= k < p ==> to[..p][k] == to[..p + n][k];
    }
  }

  lemma {:induction false} OutsideChunk(to: seq<nat>, p: nat, d: nat, n: nat, k: nat)
    requires p + n <= |to| && NoRepeats(to) && to[p..p + n] == Range(d, n) && k < p
    ensures !(d <= to[k] < d + n)
  {
    ChunkInside(to, p, d, n, to[k]);
  }

  /** Every address of the chunk stands in the run, at its place. */
  lemma {:induction false} ChunkInside(to: seq<nat>, p: nat, d: nat, n: nat, a: nat)
    requires p + n <= |to| && to[p..p + n] == Range(d, n)
    ensures d <= a < d + n ==> to[p + (a - d)] == a && a in to[..p + n]
  {
    if d <= a < d + n {
      assert to[p..p + n][a - d] == a;
      assert to[..p + n][p + a - d] == a;
    }
  }

  lemma {:induction false} InsideChunk(m0: seq<Byte>, m: seq<Byte>, to: seq<nat>, from: seq<nat>, p: nat, d: nat,
                                       s: nat, n: nat, k: nat)
    requires CopiedTo(m0, m, to, from, p) && p + n <= |to| && p + n <= |from| && Apart(to, from) && p <= k < p + n
    requires to[p..p + n] == Range(d, n) && from[p..p + n] == Range(s, n) && s + n <= |m|
    ensures to[k] == d + (k - p) && from[k] == s + (k - p) && m[s + (k - p)] == m0[from[k]]
  {
    assert to[p..p + n][k - p] == to[k];
    assert from[p..p + n][k - p] == from[k];
    assert forall j :: 0 <= j < p ==> to[..p][j] != from[k];
  }

  /** The iterators stand at byte `p` of the two runs. */
  ghost predicate StandAt(vs: seq<BioVec>, it: Iter, run: seq<nat>, p: nat) {
    Fits(vs, it) && p + it.size <= |run| && Rest(vs, it) == run[p..p + it.size]
  }

  lemma {:induction false} SegmentStands(vs: seq<BioVec>, it: Iter, run: seq<nat>, p: nat, n: nat)
    requires StandAt(vs, it, run, p) && it.size > 0 && n <= Segment(vs, it).len
    ensures n <= it.size && run[p..p + n] == Range(Base(Segment(vs, it)), n)
  {
    SegmentNext(vs, it);
    var s := Segment(vs, it);
    var x, y := run[p..p + n], Range(Base(s), n);
    forall i | 0 <= i < n ensures x[i] == y[i] {
      assert run[p..p + it.size][i] == Range(Base(s), s.len)[i];
    }
  }

  lemma {:induction false} RunBounds(run: seq<nat>, p: nat, n: nat, d: nat, size: nat)
    requires p + n <= |run| && n > 0 && run[p..p + n] == Range(d, n) && Within(run, size)
    ensures d + n <= size
  {
    assert run[p..p + n][n - 1] == run[p + n - 1];
  }

  lemma {:induction false} RunsApart(to: seq<nat>, from: seq<nat>, p: nat, n: nat, d: nat, s: nat)
    requires p + n <= |to| && p + n <= |from| && to[p..p + n] == Range(d, n) && from[p..p + n] == Range(s, n) && Apart(to, from)
    ensures d + n <= s || s + n <= d || n == 0
  {
    var x := if d <= s then s else d;
    ChunkInside(to, p, d, n, x);
    ChunkInside(from, p, s, n, x);
  }

  lemma {:induction false} AdvanceStands(vs: seq<BioVec>, it: Iter, r: Iter, run: seq<nat>, p: nat, n: nat)
    requires StandAt(vs, it, run, p) && n <= it.size && Fits(vs, r) && r.size == it.size - n && Rest(vs, r) == Rest(vs, it)[n..]
    ensures StandAt(vs, r, run, p + n)
  {
    assert run[p..p + it.size][n..] == run[p + n..p + it.size];
  }

  /** The next piece of both: where it lies, and that it can be copied. */
  ghost predicate Copyable(to: seq<nat>, from: seq<nat>, p: nat, d: nat, s: nat, n: nat, size: nat) {
    && p + n <= |to| && p + n <= |from| && to[p..p + n] == Range(d, n) && from[p..p + n] == Range(s, n)
    && d + n <= size && s + n <= size && (d + n <= s || s + n <= d || n == 0)
  }

  /** Both iterators stand at byte `c` of the two runs. */
  ghost predicate BothStand(srcs: seq<Bio>, dsts: seq<Bio>, p: Pos, to: seq<nat>, from: seq<nat>, c: nat) {
    InPlace(srcs, dsts, p) && StandAt(dsts[p.j].vecs, p.di, to, c) && StandAt(srcs[p.i].vecs, p.si, from, c)
  }

  lemma {:induction false} SegmentsCopyable(srcs: seq<Bio>, dsts: seq<Bio>, p: Pos, to: seq<nat>, from: seq<nat>,
                                            c: nat, size: nat)
    requires BothStand(srcs, dsts, p, to, from, c) && Apart(to, from) && Copies(p) && Within(to, size) && Within(from, size)
    requires !Stuck(srcs, dsts, p)
    ensures var n := Piece(srcs, dsts, p);
            && 0 < n <= p.di.size && n <= p.si.size
            && Copyable(to, from, c, Base(Segment(dsts[p.j].vecs, p.di)), Base(Segment(srcs[p.i].vecs, p.si)), n, size)
  {
    var n, d, s := Piece(srcs, dsts, p), Base(Segment(dsts[p.j].vecs, p.di)), Base(Segment(srcs[p.i].vecs, p.si));
    SegmentNext(srcs[p.i].vecs, p.si);
    SegmentNext(dsts[p.j].vecs, p.di);
    SegmentStands(srcs[p.i].vecs, p.si, from, c, n);
    SegmentStands(dsts[p.j].vecs, p.di, to, c, n);
    RunBounds(from, c, n, s, size);
    RunBounds(to, c, n, d, size);
    RunsApart(to, from, c, n, d, s);
  }

  method CopyChunk(mem: array<Byte>, d: nat, s: nat, n: nat, ghost m0: seq<Byte>, ghost to: seq<nat>,
                   ghost from: seq<nat>, ghost c: nat)
    requires Copyable(to, from, c, d, s, n, mem.Length) && CopiedTo(m0, mem[..], to, from, c) && NoRepeats(to) && Apart(to, from)
    modifies mem
    ensures CopiedTo(m0, mem[..], to, from, c + n)
  {
    ghost var before := mem[..];
    Memcpy(mem, d, s, n);
    ChunkCopied(m0, before, mem[..], to, from, c, d, s, n);
  }

  method AdvanceStanding(vs: seq<BioVec>, it: Iter, n: nat, ghost run: seq<nat>, ghost c: nat) returns (r: Iter)
    requires StandAt(vs, it, run, c) && 0 < n <= it.size
    ensures r == NextIter(vs, it, n) && StandAt(vs, r, run, c + n)
  {
    var ok;
    r, ok := Advance(vs, it, n);
    AdvanceStands(vs, it, r, run, c, n);
  }

  /** One turn of the inner loop. */
  method CopySegment(mem: array<Byte>, srcs: seq<Bio>, dsts: seq<Bio>, p: Pos,
                     ghost m0: seq<Byte>, ghost to: seq<nat>, ghost from: seq<nat>, ghost c: nat)
    returns (q: Pos, ghost e: nat)
    requires BothStand(srcs, dsts, p, to, from, c) && NoRepeats(to) && Apart(to, from) && CopiedTo(m0, mem[..], to, from, c)
    requires Copies(p) && !Stuck(srcs, dsts, p)
    modifies mem
    ensures q == Turned(srcs, dsts, p) && BothStand(srcs, dsts, q, to, from, e) && CopiedTo(m0, mem[..], to, from, e)
    ensures c < e && q.di.size == p.di.size - (e - c) && q.si.size == p.si.size - (e - c) && q.i == p.i && q.j == p.j
  {
    var n := CopyPiece(mem, srcs, dsts, p, m0, to, from, c);
    q := AdvanceBoth(srcs, dsts, p, n, to, from, c);
    e := c + n;
  }

  /** Copies as much as lies in one page on either side. */
  method CopyPiece(mem: array<Byte>, srcs: seq<Bio>, dsts: seq<Bio>, p: Pos,
                   ghost m0: seq<Byte>, ghost to: seq<nat>, ghost from: seq<nat>, ghost c: nat)
    returns (n: nat)
    requires BothStand(srcs, dsts, p, to, from, c) && NoRepeats(to) && Apart(to, from) && CopiedTo(m0, mem[..], to, from, c)
    requires Copies(p) && !Stuck(srcs, dsts, p)
    modifies mem
    ensures n == Piece(srcs, dsts, p) && 0 < n <= p.di.size && n <= p.si.size && CopiedTo(m0, mem[..], to, from, c + n)
  {
    var sb, db := Segment(srcs[p.i].vecs, p.si), Segment(dsts[p.j].vecs, p.di);
    n := Min(sb.len, db.len);
    SegmentsCopyable(srcs, dsts, p, to, from, c, mem.Length);
    CopyChunk(mem, Base(db), Base(sb), n, m0, to, from, c);
  }

  /** Moves both iterators on by the piece that was copied. */
  method AdvanceBoth(srcs: seq<Bio>, dsts: seq<Bio>, p: Pos, n: nat, ghost to: seq<nat>, ghost from: seq<nat>,
                     ghost c: nat) returns (q: Pos)
    requires BothStand(srcs, dsts, p, to, from, c) && Copies(p) && n == Piece(srcs, dsts, p) && 0 < n <= p.di.size && n <= p.si.size
    ensures q == Turned(srcs, dsts, p) && BothStand(srcs, dsts, q, to, from, c + n)
    ensures q.di.size == p.di.size - n && q.si.size == p.si.size - n && q.i == p.i && q.j == p.j
  {
    var si := AdvanceStanding(srcs[p.i].vecs, p.si, n, from, c);
    var di := AdvanceStanding(dsts[p.j].vecs, p.di, n, to, c);
    q := Pos(p.i, si, p.j, di);
  }

  // ------------------------------------------------- following the turns

  /** `p` is a position at the top of the outer loop. */
  ghost predicate AtTop(srcs: seq<Bio>, dsts: seq<Bio>, start: Pos, p: Pos) {
    InPlace(srcs, dsts, start) && exists k: nat :: After(srcs, dsts, start, k) == Some(p)
  }

  /** `q` is a position right after the checks there. */
  ghost predicate OnTrack(srcs: seq<Bio>, dsts: seq<Bio>, start: Pos, q: Pos) {
    exists p :: AtTop(srcs, dsts, start, p) && InPlace(srcs, dsts, p) && Checked(srcs, dsts, p) == Some(q)
  }

  lemma {:induction false} NextTop(srcs: seq<Bio>, dsts: seq<Bio>, start: Pos, p: Pos)
    requires AtTop(srcs, dsts, start, p) && InPlace(srcs, dsts, p)
    ensures match Step(srcs, dsts, p) case None => Ends(srcs, dsts, start) case Some(q) => AtTop(srcs, dsts, start, q)
  {
    var k: nat :| After(srcs, dsts, start, k) == Some(p);
    assert After(srcs, dsts, start, k + 1) == Step(srcs, dsts, p);
  }

  /** A turn, or none, leads from behind the checks to the top again. */
  lemma {:induction false} TrackOn(srcs: seq<Bio>, dsts: seq<Bio>, start: Pos, q: Pos)
    requires OnTrack(srcs, dsts, start, q) && InPlace(srcs, dsts, q)
    ensures AtTop(srcs, dsts, start, if Copies(q) then Turned(srcs, dsts, q) else q)
  {
    var p :| AtTop(srcs, dsts, start, p) && InPlace(srcs, dsts, p) && Checked(srcs, dsts, p) == Some(q);
    NextTop(srcs, dsts, start, p);
  }

  /** In the middle of the inner loop the checks would change nothing. */
  lemma {:induction false} TopCopies(srcs: seq<Bio>, dsts: seq<Bio>, start: Pos, p: Pos)
    requires AtTop(srcs, dsts, start, p) && InPlace(srcs, dsts, p) && Copies(p)
    ensures OnTrack(srcs, dsts, start, p)
  {
    assert Checked(srcs, dsts, p) == Some(p);
  }

  /** Copies from one iterator to the other until one is used up. */
  method CopyDataIter(mem: array<Byte>, srcs: seq<Bio>, dsts: seq<Bio>, p: Pos, ghost start: Pos,
                      ghost m0: seq<Byte>, ghost to: seq<nat>, ghost from: seq<nat>, ghost c: nat)
    returns (q: Pos, ghost e: nat)
    requires BothStand(srcs, dsts, p, to, from, c) && NoRepeats(to) && Apart(to, from) && CopiedTo(m0, mem[..], to, from, c)
    requires !Stalls(srcs, dsts, p) && OnTrack(srcs, dsts, start, p)
    modifies mem
    ensures e == c + Min(p.di.size, p.si.size) && q.i == p.i && q.j == p.j
    ensures q.di.size == p.di.size - (e - c) && q.si.size == p.si.size - (e - c)
    ensures BothStand(srcs, dsts, q, to, from, e) && CopiedTo(m0, mem[..], to, from, e)
    ensures !Stalls(srcs, dsts, q) && AtTop(srcs, dsts, start, q)
  {
    q, e := p, c;
    if !Copies(q) { TrackOn(srcs, dsts, start, q); }
    while q.si.size > 0 && q.di.size > 0
      invariant BothStand(srcs, dsts, q, to, from, e) && CopiedTo(m0, mem[..], to, from, e)
      invariant c <= e && q.di.size + (e - c) == p.di.size && q.si.size + (e - c) == p.si.size && q.i == p.i && q.j == p.j
      invariant !Stalls(srcs, dsts, q) && if Copies(q) then OnTrack(srcs, dsts, start, q) else AtTop(srcs, dsts, start, q)
      decreases q.si.size
    {
      q, e := CopyOn(mem, srcs, dsts, q, start, m0, to, from, e);
    }
  }

  method CopyOn(mem: array<Byte>, srcs: seq<Bio>, dsts: seq<Bio>, p: Pos, ghost start: Pos,
                ghost m0: seq<Byte>, ghost to: seq<nat>, ghost from: seq<nat>, ghost c: nat)
    returns (q: Pos, ghost e: nat)
    requires BothStand(srcs, dsts, p, to, from, c) && NoRepeats(to) && Apart(to, from) && CopiedTo(m0, mem[..], to, from, c)
    requires !Stalls(srcs, dsts, p) && OnTrack(srcs, dsts, start, p) && Copies(p)
    modifies mem
    ensures c < e && q.di.size == p.di.size - (e - c) && q.si.size == p.si.size - (e - c) && q.i == p.i && q.j == p.j
    ensures BothStand(srcs, dsts, q, to, from, e) && CopiedTo(m0, mem[..], to, from, e)
    ensures !Stalls(srcs, dsts, q) && if Copies(q) then OnTrack(srcs, dsts, start, q) else AtTop(srcs, dsts, start, q)
  {
    NotStuck(srcs, dsts, p);
    q, e := CopySegment(mem, srcs, dsts, p, m0, to, from, c);
    TurnOn(srcs, dsts, start, p, q);
  }

  lemma {:induction false} NotStuck(srcs: seq<Bio>, dsts: seq<Bio>, p: Pos)
    requires InPlace(srcs, dsts, p) && !Stalls(srcs, dsts, p)
    ensures !Stuck(srcs, dsts, p)
  {
    if Stuck(srcs, dsts, p) { StuckStalls(srcs, dsts, p); }
  }

  lemma {:induction false} TurnOn(srcs: seq<Bio>, dsts: seq<Bio>, start: Pos, p: Pos, q: Pos)
    requires InPlace(srcs, dsts, p) && Copies(p) && !Stalls(srcs, dsts, p) && OnTrack(srcs, dsts, start, p) && q == Turned(srcs, dsts, p)
    ensures !Stalls(srcs, dsts, q) && if Copies(q) then OnTrack(srcs, dsts, start, q) else AtTop(srcs, dsts, start, q)
  {
    TurnStalls(srcs, dsts, p);
    TrackOn(srcs, dsts, start, p);
    if Copies(q) { TopCopies(srcs, dsts, start, q); }
  }

  // ----------------------------------------------------------- whole lists

  /** The byte addresses of a list of bios, end to end. */
  function Flatten(bs: seq<Bio>): seq<nat>
    requires AllFit(bs)
  {
    if bs == [] then [] else Rest(bs[0].vecs, bs[0].iter) + Flatten(bs[1..])
  }

  /** In the list, `k` bios in, with the iterator `it` for bio `k`, at byte `p` of the run. */
  ghost predicate ListAt(bs: seq<Bio>, k: nat, it: Iter, run: seq<nat>, p: nat) {
    && AllFit(bs) && k < |bs| && Fits(bs[k].vecs, it) && p <= |run|
    && run[p..] == Rest(bs[k].vecs, it) + Flatten(bs[k + 1..])
  }

  lemma {:induction false} ListStands(bs: seq<Bio>, k: nat, it: Iter, run: seq<nat>, p: nat)
    requires ListAt(bs, k, it, run, p)
    ensures StandAt(bs[k].vecs, it, run, p)
  {
    assert run[p..][..it.size] == run[p..p + it.size];
  }

  lemma {:induction false} ListMoved(bs: seq<Bio>, k: nat, it: Iter, r: Iter, run: seq<nat>, p: nat, q: nat)
    requires ListAt(bs, k, it, run, p) && p <= q && r.size + (q - p) == it.size && StandAt(bs[k].vecs, r, run, q)
    ensures ListAt(bs, k, r, run, q)
  {
    var tail := Flatten(bs[k + 1..]);
    assert run[q..] == run[p..][q - p..];
    assert (Rest(bs[k].vecs, it) + tail)[it.size..] == tail;
    assert run[p..][it.size..] == run[q..][r.size..];
    assert run[q..] == run[q..][..r.size] + run[q..][r.size..];
    assert run[q..][..r.size] == run[q..q + r.size];
  }

  lemma {:induction false} ListNext(bs: seq<Bio>, k: nat, it: Iter, run: seq<nat>, p: nat)
    requires ListAt(bs, k, it, run, p) && it.size == 0
    ensures if k + 1 < |bs| then ListAt(bs, k + 1, bs[k + 1].iter, run, p) else p == |run|
  {
    if k + 1 < |bs| {
      assert bs[k + 1..][1..] == bs[k + 2..];
      assert bs[k + 1..][0] == bs[k + 1];
    }
  }

  /** Where the copy starts. */
  function Start(srcs: seq<Bio>, dsts: seq<Bio>): Pos
    requires srcs != [] && dsts != []
  {
    Pos(0, srcs[0].iter, 0, dsts[0].iter)
  }

  /** The two positions in the lists, at byte `c` of the runs. */
  ghost predicate ListsAt(srcs: seq<Bio>, dsts: seq<Bio>, p: Pos, to: seq<nat>, from: seq<nat>, c: nat) {
    ListAt(srcs, p.i, p.si, from, c) && ListAt(dsts, p.j, p.di, to, c)
  }

  /** On to the next bio of a list, if this one is used up. */
  method NextBio(bs: seq<Bio>, k0: nat, it0: Iter, ghost run: seq<nat>, ghost c: nat)
    returns (k: nat, it: Iter, over: bool)
    requires ListAt(bs, k0, it0, run, c)
    ensures over <==> Moved(bs, k0, it0) == None
    ensures if over then c == |run| else Moved(bs, k0, it0) == Some((k, it)) && ListAt(bs, k, it, run, c)
  {
    k, it, over := k0, it0, false;
    if it.size == 0 {
      ListNext(bs, k, it, run, c);
      k := k + 1;
      if k == |bs| { return k, it, true; }
      it := bs[k].iter;
    }
  }

  lemma {:induction false} CheckedStalls(srcs: seq<Bio>, dsts: seq<Bio>, p: Pos)
    requires InPlace(srcs, dsts, p) && Checked(srcs, dsts, p).Some?
    ensures Stalls(srcs, dsts, Checked(srcs, dsts, p).value) <==> Stalls(srcs, dsts, p)
  {
    var b := Min(Left(srcs, p.i, p.si), Left(dsts, p.j, p.di));
    GapChecked(srcs, p.i, p.si, b);
    GapChecked(dsts, p.j, p.di, b);
  }

  /**
   Copies one list of bios to another: exactly the first bytes, as many as the
   shorter list holds, land in the places of the destination, in order, and no other
   byte changes.
   */
  method BioListCopyData(mem: array<Byte>, dsts: seq<Bio>, srcs: seq<Bio>)
    requires dsts != [] && srcs != [] && AllFit(dsts) && AllFit(srcs)
    requires Within(Flatten(dsts), mem.Length) && Within(Flatten(srcs), mem.Length)
    requires NoRepeats(Flatten(dsts)) && Apart(Flatten(dsts), Flatten(srcs))
    requires !Stalls(srcs, dsts, Start(srcs, dsts))
    modifies mem
    ensures CopiedTo(old(mem[..]), mem[..], Flatten(dsts), Flatten(srcs), Min(|Flatten(dsts)|, |Flatten(srcs)|))
    ensures Ends(srcs, dsts, Start(srcs, dsts))
  {
    ghost var m0, to, from, c: nat := mem[..], Flatten(dsts), Flatten(srcs), 0;
    var p := Start(srcs, dsts);
    assert from[0..] == from && to[0..] == to;
    assert After(srcs, dsts, p, 0) == Some(p);
    while true
      invariant ListsAt(srcs, dsts, p, to, from, c) && CopiedTo(m0, mem[..], to, from, c)
      invariant !Stalls(srcs, dsts, p) && AtTop(srcs, dsts, Start(srcs, dsts), p)
      decreases |srcs| - p.i, |dsts| - p.j, p.si.size + p.di.size
    {
      var over;
      p, over, c := CopyRound(mem, srcs, dsts, p, Start(srcs, dsts), m0, to, from, c);
      if over { break; }
    }
  }

  /** One round of the outer loop. */
  method CopyRound(mem: array<Byte>, srcs: seq<Bio>, dsts: seq<Bio>, p: Pos, ghost start: Pos,
                   ghost m0: seq<Byte>, ghost to: seq<nat>, ghost from: seq<nat>, ghost c: nat)
    returns (q: Pos, over: bool, ghost e: nat)
    requires ListsAt(srcs, dsts, p, to, from, c) && CopiedTo(m0, mem[..], to, from, c) && NoRepeats(to) && Apart(to, from)
    requires !Stalls(srcs, dsts, p) && AtTop(srcs, dsts, start, p)
    modifies mem
    ensures CopiedTo(m0, mem[..], to, from, e)
    ensures over ==> e == Min(|to|, |from|) && Ends(srcs, dsts, start)
    ensures !over ==> ListsAt(srcs, dsts, q, to, from, e) && !Stalls(srcs, dsts, q) && AtTop(srcs, dsts, start, q)
    ensures !over ==> q.i > p.i || (q.i == p.i && (q.j > p.j || (q.j == p.j && q.si.size + q.di.size < p.si.size + p.di.size)))
  {
    e := c;
    q, over := NextPair(srcs, dsts, p, start, to, from, c);
    if !over { q, e := CopyPair(mem, srcs, dsts, q, start, m0, to, from, c); }
  }

  /** The checks at the top of the outer loop. */
  method NextPair(srcs: seq<Bio>, dsts: seq<Bio>, p: Pos, ghost start: Pos, ghost to: seq<nat>, ghost from: seq<nat>,
                  ghost c: nat)
    returns (q: Pos, over: bool)
    requires ListsAt(srcs, dsts, p, to, from, c) && !Stalls(srcs, dsts, p) && AtTop(srcs, dsts, start, p)
    ensures over ==> c == Min(|to|, |from|) && Ends(srcs, dsts, start)
    ensures !over ==> ListsAt(srcs, dsts, q, to, from, c) && !Stalls(srcs, dsts, q) && OnTrack(srcs, dsts, start, q)
    ensures !over ==> q.i > p.i || (q.i == p.i && q.si == p.si && p.si.size > 0 && (q.j > p.j || (q.j == p.j && q.di == p.di && p.di.size > 0)))
  {
    q := p;
    var i, si, j, di;
    i, si, over := NextBio(srcs, p.i, p.si, from, c);
    if over { NextTop(srcs, dsts, start, p); return; }
    j, di, over := NextBio(dsts, p.j, p.di, to, c);
    if over { NextTop(srcs, dsts, start, p); return; }
    CheckedStalls(srcs, dsts, p);
    q := Pos(i, si, j, di);
  }

  method CopyPair(mem: array<Byte>, srcs: seq<Bio>, dsts: seq<Bio>, p: Pos, ghost start: Pos,
                  ghost m0: seq<Byte>, ghost to: seq<nat>, ghost from: seq<nat>, ghost c: nat)
    returns (q: Pos, ghost e: nat)
    requires ListsAt(srcs, dsts, p, to, from, c) && CopiedTo(m0, mem[..], to, from, c) && NoRepeats(to) && Apart(to, from)
    requires !Stalls(srcs, dsts, p) && OnTrack(srcs, dsts, start, p)
    modifies mem
    ensures ListsAt(srcs, dsts, q, to, from, e) && CopiedTo(m0, mem[..], to, from, e)
    ensures !Stalls(srcs, dsts, q) && AtTop(srcs, dsts, start, q)
    ensures q.i == p.i && q.j == p.j && q.di.size + q.si.size + 2 * Min(p.di.size, p.si.size) == p.di.size + p.si.size
  {
    ListStands(srcs, p.i, p.si, from, c);
    ListStands(dsts, p.j, p.di, to, c);
    q, e := CopyDataIter(mem, srcs, dsts, p, start, m0, to, from, c);
    ListMoved(srcs, p.i, p.si, q.si, from, c, e);
    ListMoved(dsts, p.j, p.di, q.di, to, c, e);
  }

  /** One bio copied to another: as many bytes as the smaller has left, in order, and no other byte changes. */
  method BioCopyData(mem: array<Byte>, dst: Bio, src: Bio)
    requires Fits(dst.vecs, dst.iter) && Fits(src.vecs, src.iter)
    requires Within(Rest(dst.vecs, dst.iter), mem.Length) && Within(Rest(src.vecs, src.iter), mem.Length)
    requires NoRepeats(Rest(dst.vecs, dst.iter)) && Apart(Rest(dst.vecs, dst.iter), Rest(src.vecs, src.iter))
    requires !Stalls([src], [dst], Start([src], [dst]))
    modifies mem
    ensures CopiedTo(old(mem[..]), mem[..], Rest(dst.vecs, dst.iter), Rest(src.vecs, src.iter), Min(dst.iter.size, src.iter.size))
    ensures Ends([src], [dst], Start([src], [dst]))
  {
    var p := Start([src], [dst]);
    EndsExactly([src], [dst], p);
    if Copies(p) {
      PairStarts(dst, src);
      var q;
      ghost var e;
      q, e := CopyDataIter(mem, [src], [dst], p, p, mem[..], Rest(dst.vecs, dst.iter), Rest(src.vecs, src.iter), 0);
    }
  }

  lemma {:induction false} PairStarts(dst: Bio, src: Bio)
    requires Fits(dst.vecs, dst.iter) && Fits(src.vecs, src.iter) && Copies(Start([src], [dst]))
    ensures var p := Start([src], [dst]);
            && BothStand([src], [dst], p, Rest(dst.vecs, dst.iter), Rest(src.vecs, src.iter), 0)
            && OnTrack([src], [dst], p, p)
  {
    var p := Start([src], [dst]);
    assert After([src], [dst], p, 0) == Some(p);
    assert Checked([src], [dst], p) == Some(p);
  }

  // ----------------------------------------------------------- an example

  /** Eight bytes cut into four, none and four. */
  const CUT: seq<Bio> := [Bio([BioVec(0, 4, 0), BioVec(0, 0, 4), BioVec(1, 4, 0)], Iter(8, 0, 0))]
  const WHOLE: seq<Bio> := [Bio([BioVec(2, 8, 0)], Iter(8, 0, 0))]
  const CUT_AT := Pos(0, Iter(4, 1, 0), 0, Iter(4, 0, 4))

  /** After the first turn, every turn from the one list to the other leads back to where it started. */
  lemma {:induction false} CutStandsStill()
    ensures AllFit(CUT) && AllFit(WHOLE) && Stalls(CUT, WHOLE, Start(CUT, WHOLE))
    ensures After(CUT, WHOLE, Start(CUT, WHOLE), 1) == Some(CUT_AT) && Step(CUT, WHOLE, CUT_AT) == Some(CUT_AT)
  {
    var p := Start(CUT, WHOLE);
    CutFits();
    CutTurned();
    assert After(CUT, WHOLE, p, 0) == Some(p);
    StuckStalls(CUT, WHOLE, CUT_AT);
    AfterStalls(CUT, WHOLE, p, 1);
  }

  lemma {:induction false} CutTurned()
    ensures InPlace(CUT, WHOLE, Start(CUT, WHOLE)) && Step(CUT, WHOLE, Start(CUT, WHOLE)) == Some(CUT_AT)
    ensures InPlace(CUT, WHOLE, CUT_AT) && Stuck(CUT, WHOLE, CUT_AT)
  {
    CutFits();
    var p := Start(CUT, WHOLE);
    assert Piece(CUT, WHOLE, p) == 4;
    NextIterWithin(CUT[0].vecs, p.si, 4);
    NextIterWithin(WHOLE[0].vecs, p.di, 4);
    assert Turned(CUT, WHOLE, p) == CUT_AT;
  }

  lemma {:induction false} CutFits()
    ensures AllFit(CUT) && AllFit(WHOLE)
  {
    assert |Bytes(CUT[0].vecs, 2, 0)| == 4;
    assert |Bytes(CUT[0].vecs, 1, 0)| == 4;
  }
}
