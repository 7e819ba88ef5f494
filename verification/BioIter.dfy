/**
 Iterators over the vectors of a bio.  A bio's data is the run of byte addresses its
 vectors name; vectors may be empty.
 */
module BioIter {

  const PAGE_SIZE := 4096

  /** A piece of memory: `len` bytes from `offset` on, counted from the start of `page`. */
  datatype BioVec = BioVec(page: nat, len: nat, offset: nat)

  /** `size` bytes are left, starting `done` bytes into vector `idx`. */
  datatype Iter = Iter(size: nat, idx: nat, done: nat)

  datatype Bio = Bio(vecs: seq<BioVec>, iter: Iter)

  function Base(v: BioVec): nat {
    v.page * PAGE_SIZE + v.offset
  }

  function Range(a: nat, n: nat): (r: seq<nat>)
    ensures |r| == n && forall i :: 0 <= i < n ==> r[i] == a + i
  {
    seq(n, i requires 0 <= i < n => a + i)
  }

  /** All byte addresses from `done` bytes into vector `idx` to the end. */
  function Bytes(vs: seq<BioVec>, idx: nat, done: nat): seq<nat>
    decreases |vs| - idx
  {
    if idx >= |vs| then []
    else if done <= vs[idx].len then Range(Base(vs[idx]) + done, vs[idx].len - done) + Bytes(vs, idx + 1, 0)
    else []
  }

  /**
   The vectors hold what the iterator still has to deliver.  Advancing leaves an
   iterator at the start of a vector or strictly inside it.
   */
  predicate Fits(vs: seq<BioVec>, it: Iter) {
    && it.size <= |Bytes(vs, it.idx, it.done)|
    && (it.size > 0 ==> it.idx < |vs| && (it.done == 0 || it.done < vs[it.idx].len))
  }

  /** The byte addresses an iterator has still to deliver. */
  function Rest(vs: seq<BioVec>, it: Iter): (r: seq<nat>)
    requires Fits(vs, it)
    ensures |r| == it.size
  {
    Bytes(vs, it.idx, it.done)[..it.size]
  }

  function Min(a: nat, b: nat): nat {
    if a <= b then a else b
  }

  /** The next piece that lies in one page. */
  function Segment(vs: seq<BioVec>, it: Iter): BioVec
    requires it.idx < |vs| && it.done <= vs[it.idx].len
  {
    var v := vs[it.idx];
    var off := v.offset + it.done;
    BioVec(v.page + off / PAGE_SIZE, Min(Min(it.size, v.len - it.done), PAGE_SIZE - off % PAGE_SIZE), off % PAGE_SIZE)
  }

  /** A segment stays inside its page and its vector and names the next bytes; it is empty exactly at an empty vector. */
  lemma {:induction false} SegmentNext(vs: seq<BioVec>, it: Iter)
    requires Fits(vs, it) && it.size > 0
    ensures var s := Segment(vs, it);
            && s.len <= it.size && s.len <= vs[it.idx].len - it.done && s.offset + s.len <= PAGE_SIZE
            && Range(Base(s), s.len) == Rest(vs, it)[..s.len] && (s.len == 0 <==> vs[it.idx].len == 0)
  {}

  /** It goes as far as one of the three ends: what is left, the vector, the page. */
  lemma {:induction false} SegmentFull(vs: seq<BioVec>, it: Iter)
    requires Fits(vs, it) && it.size > 0
    ensures var s := Segment(vs, it);
            s.len == it.size || s.len == vs[it.idx].len - it.done || s.offset + s.len == PAGE_SIZE
  {}

  // ----------------------------------------------------------- advancing

  /** Where `bytes` bytes from the start of vector `idx` lead. */
  function Land(vs: seq<BioVec>, idx: nat, bytes: nat): (nat, nat)
    decreases |vs| - idx
  {
    if bytes > 0 && idx < |vs| && bytes >= vs[idx].len then Land(vs, idx + 1, bytes - vs[idx].len) else (idx, bytes)
  }

  /** The iterator after `n` more bytes. */
  function NextIter(vs: seq<BioVec>, it: Iter, n: nat): Iter
    requires n <= it.size
  {
    var at := Land(vs, it.idx, it.done + n);
    Iter(it.size - n, at.0, at.1)
  }

  lemma {:induction false} BytesFrom(vs: seq<BioVec>, idx: nat, n: nat)
    requires idx < |vs| && n <= vs[idx].len
    ensures |Bytes(vs, idx, 0)| >= n && Bytes(vs, idx, 0)[n..] == Bytes(vs, idx, n)
  {}

  lemma {:induction false} BytesSkip(vs: seq<BioVec>, idx: nat, n: nat)
    requires idx < |vs| && vs[idx].len <= n <= |Bytes(vs, idx, 0)|
    ensures n - vs[idx].len <= |Bytes(vs, idx + 1, 0)| && Bytes(vs, idx, 0)[n..] == Bytes(vs, idx + 1, 0)[n - vs[idx].len..]
  {}

  lemma {:induction false} LandBytes(vs: seq<BioVec>, idx: nat, bytes: nat)
    requires bytes <= |Bytes(vs, idx, 0)|
    ensures var at := Land(vs, idx, bytes);
            && at.1 <= |Bytes(vs, at.0, 0)| && Bytes(vs, at.0, 0)[at.1..] == Bytes(vs, idx, 0)[bytes..]
            && (at.1 == 0 || (at.0 < |vs| && at.1 < vs[at.0].len))
    decreases |vs| - idx
  {
    if bytes > 0 && bytes >= vs[idx].len {
      BytesSkip(vs, idx, bytes);
      LandBytes(vs, idx + 1, bytes - vs[idx].len);
    }
  }

  lemma {:induction false} LandRest(vs: seq<BioVec>, idx: nat, done: nat, n: nat, at: (nat, nat))
    requires idx < |vs| && done <= vs[idx].len && n <= |Bytes(vs, idx, done)| && at == Land(vs, idx, done + n)
    ensures Bytes(vs, at.0, at.1) == Bytes(vs, idx, done)[n..] && (at.1 == 0 || (at.0 < |vs| && at.1 < vs[at.0].len))
  {
    var all := Bytes(vs, idx, 0);
    BytesFrom(vs, idx, done);
    assert all[done..][n..] == all[done + n..];
    LandBytes(vs, idx, done + n);
    if at.1 > 0 { BytesFrom(vs, at.0, at.1); }
  }

  /** Advancing drops exactly so many bytes. */
  lemma {:induction false} NextIterRest(vs: seq<BioVec>, it: Iter, n: nat)
    requires Fits(vs, it) && it.size > 0 && n <= it.size
    ensures Fits(vs, NextIter(vs, it, n)) && Rest(vs, NextIter(vs, it, n)) == Rest(vs, it)[n..]
  {
    LandRest(vs, it.idx, it.done, n, Land(vs, it.idx, it.done + n));
    assert Bytes(vs, it.idx, it.done)[n..][..it.size - n] == Bytes(vs, it.idx, it.done)[..it.size][n..];
  }

  /** Within its vector an iterator moves on, to the next vector when it reaches the end. */
  lemma {:induction false} NextIterWithin(vs: seq<BioVec>, it: Iter, n: nat)
    requires Fits(vs, it) && it.size > 0 && n <= it.size && it.done + n <= vs[it.idx].len
    ensures NextIter(vs, it, n) == if n == 0 then it
                                   else if it.done + n < vs[it.idx].len then Iter(it.size - n, it.idx, it.done + n)
                                   else Iter(it.size - n, it.idx + 1, 0)
  {
    assert Land(vs, it.idx + 1, 0) == (it.idx + 1, 0);
  }

  /** Moves an iterator on by so many bytes; one that asks too much is emptied. */
  method Advance(vs: seq<BioVec>, it: Iter, bytes0: nat) returns (r: Iter, ok: bool)
    requires Fits(vs, it) && it.size > 0
    ensures ok == (bytes0 <= it.size)
    ensures ok ==> r == NextIter(vs, it, bytes0) && Fits(vs, r) && Rest(vs, r) == Rest(vs, it)[bytes0..]
    ensures !ok ==> r.size == 0
  {
    if bytes0 > it.size { return it.(size := 0), false; }
    NextIterRest(vs, it, bytes0);
    BytesFrom(vs, it.idx, it.done);
    var size, bytes: nat, idx := it.size - bytes0, bytes0 + it.done, it.idx;
    while bytes > 0 && bytes >= vs[idx].len
      invariant bytes <= |Bytes(vs, idx, 0)| && Land(vs, idx, bytes) == Land(vs, it.idx, it.done + bytes0)
      decreases |vs| - idx
    {
      BytesSkip(vs, idx, bytes);
      bytes, idx := bytes - vs[idx].len, idx + 1;
    }
    r, ok := Iter(size, idx, bytes), true;
  }

  // ---------------------------------------------------------------- gaps

  /** An empty vector is met before `b` bytes, while the iterator lasts. */
  predicate GapIn(vs: seq<BioVec>, it: Iter, b: int)
    decreases |vs| - it.idx
  {
    it.size > 0 && b > 0 && it.idx < |vs|
    && (vs[it.idx].len == 0
        || (it.done < vs[it.idx].len < it.done + it.size
            && GapIn(vs, Iter(it.size + it.done - vs[it.idx].len, it.idx + 1, 0), b + it.done - vs[it.idx].len)))
  }

  /** The bytes in front of vector `z`, from the iterator on. */
  function Before(vs: seq<BioVec>, idx: nat, done: nat, z: nat): int
    requires idx <= z < |vs|
    decreases z - idx
  {
    if idx == z then 0 else vs[idx].len - done + Before(vs, idx + 1, 0, z)
  }

  /** That is, some empty vector has fewer bytes in front of it than are left and than `b`. */
  lemma {:induction false} GapIs(vs: seq<BioVec>, it: Iter, b: int)
    requires Fits(vs, it)
    ensures GapIn(vs, it, b) <==> exists z :: EmptyAt(vs, it, b, z)
    decreases |vs| - it.idx
  {
    if it.size > 0 && b > 0 {
      if vs[it.idx].len == 0 {
        assert EmptyAt(vs, it, b, it.idx);
      } else {
        GapNext(vs, it, b);
      }
    } else {
      forall z | it.idx <= z < |vs| && vs[z].len == 0 ensures !EmptyAt(vs, it, b, z) {
        if it.size > 0 { BeforeSigned(vs, it.idx, it.done, z); }
      }
    }
  }

  predicate EmptyAt(vs: seq<BioVec>, it: Iter, b: int, z: int) {
    it.idx <= z < |vs| && it.size > 0 && vs[z].len == 0 && Before(vs, it.idx, it.done, z) < it.size && Before(vs, it.idx, it.done, z) < b
  }

  lemma {:induction false} BeforeSigned(vs: seq<BioVec>, idx: nat, done: nat, z: nat)
    requires idx <= z < |vs| && (done == 0 || done < vs[idx].len)
    ensures Before(vs, idx, done, z) >= 0
    decreases z - idx
  {
    if idx < z { BeforeSigned(vs, idx + 1, 0, z); }
  }

  lemma {:induction false} EmptyAhead(vs: seq<BioVec>, it: Iter, b: int, z: int)
    requires it.idx < z < |vs| && it.done <= vs[it.idx].len < it.done + it.size
    ensures var r := vs[it.idx].len - it.done;
            EmptyAt(vs, Iter(it.size - r, it.idx + 1, 0), b - r, z) <==> EmptyAt(vs, it, b, z)
  {}

  lemma {:induction false} GapNext(vs: seq<BioVec>, it: Iter, b: int)
    requires Fits(vs, it) && it.size > 0 && b > 0 && vs[it.idx].len > 0
    ensures GapIn(vs, it, b) <==> exists z :: EmptyAt(vs, it, b, z)
    decreases |vs| - it.idx, 0
  {
    var r := vs[it.idx].len - it.done;
    if r < it.size {
      var it' := Iter(it.size - r, it.idx + 1, 0);
      assert Fits(vs, it') by { NextIterRest(vs, it, r); NextIterWithin(vs, it, r); }
      GapIs(vs, it', b - r);
      if GapIn(vs, it', b - r) {
        var z :| EmptyAt(vs, it', b - r, z);
        EmptyAhead(vs, it, b, z);
      }
      if exists z :: EmptyAt(vs, it, b, z) {
        var z :| EmptyAt(vs, it, b, z);
        EmptyAhead(vs, it, b, z);
      }
    } else {
      forall z | it.idx < z < |vs| ensures !EmptyAt(vs, it, b, z) { BeforeSigned(vs, it.idx + 1, 0, z); }
    }
  }

  /** Moving on inside a vector, the gap ahead comes nearer by just that much. */
  lemma {:induction false} GapMoved(vs: seq<BioVec>, it: Iter, n: nat, b: int)
    requires Fits(vs, it) && it.size > 0 && n <= it.size && n <= b && it.done + n <= vs[it.idx].len
    ensures GapIn(vs, NextIter(vs, it, n), b - n) <==> GapIn(vs, it, b)
  {
    NextIterWithin(vs, it, n);
  }
}
