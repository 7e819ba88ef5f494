/**
 The ring as a queue.  As long as only the reader moves the head, every event
 that completes is delivered exactly once and in order, however the completions,
 refills and reads interleave.
 */
module AioRing {
  import opened AioContext

  // -------------------------------------------------------- ring indices

  lemma {:induction false} ModSplit(a: int, q: int, r: int, nr: int)
    requires nr > 0 && a == nr * q + r && 0 <= r < nr
    ensures a % nr == r
  {
    var k := q - a / nr;
    assert nr * k == a % nr - r;
    assert -nr < nr * k < nr;
    assert k == 0;
  }

  lemma {:induction false} ModAdd(a: int, n: int, nr: int)
    requires nr > 0 && 0 <= n && a % nr + n < nr
    ensures (a + n) % nr == a % nr + n
  {
    ModSplit(a + n, a / nr, a % nr + n, nr);
  }

  lemma {:induction false} ModWrap(a: int, n: int, nr: int)
    requires nr > 0 && nr <= a % nr + n < 2 * nr
    ensures (a + n) % nr == a % nr + n - nr
  {
    ModSplit(a + n, a / nr + 1, a % nr + n - nr, nr);
  }

  lemma {:induction false} ModNext(a: int, nr: int)
    requires nr > 1
    ensures (a + 1) % nr == Next(a % nr, nr)
  {
    if a % nr + 1 < nr { ModAdd(a, 1, nr); } else { ModWrap(a, 1, nr); }
  }

  /** Fewer than a ring apart, the distance can be read off the indices. */
  lemma {:induction false} ModDistance(a: int, b: int, nr: int)
    requires nr > 0 && a <= b < a + nr
    ensures InRing(a % nr, b % nr, nr) == b - a
    ensures a % nr == b % nr ==> a == b
  {
    assert (a % nr) % nr == a % nr by { ModSplit(a % nr, 0, a % nr, nr); }
    if a % nr + (b - a) < nr { ModAdd(a, b - a, nr); } else { ModWrap(a, b - a, nr); }
  }

  // ------------------------------------------------------------ invariant

  lemma {:induction false} SumNonNegative(xs: seq<int>)
    requires forall i :: 0 <= i < |xs| ==> xs[i] >= 0
    ensures Sum(xs) >= 0
  {
    if xs != [] { SumNonNegative(xs[1..]); }
  }

  lemma {:induction false} HeldNonNegative(ps: seq<Pc>, batch: int)
    requires forall i :: 0 <= i < |ps| ==> Held(ps[i], batch) >= 0
    ensures HeldAll(ps, batch) >= 0
  {
    if ps != [] { HeldNonNegative(ps[1..], batch); }
  }

  /** Completed events and requests still out there fit into the ring with one slot to spare. */
  lemma {:induction false} RoomLeft(s: State)
    requires Conserves(s)
    ensures s.completed + s.outstanding <= s.nr - 1
  {
    SumNonNegative(s.cpu);
    HeldNonNegative(s.pc, s.batch);
  }

  ghost predicate Stored(s: State) {
    |s.slots| == s.nr > 0 && 0 <= s.done && forall i :: s.done <= i < |s.log| ==> s.slots[i % s.nr] == s.log[i]
  }

  /** A head that was loaded may be stale, but never so much that the ring looks empty when it is not. */
  ghost predicate LoadedRight(s: State, c: int)
    requires 0 <= c < |s.pc| && s.nr > 0
  {
    s.pc[c].Loaded? ==>
      s.lock == c && 0 <= s.pc[c].seen <= s.done && s.pc[c].head == s.pc[c].seen % s.nr && |s.log| - s.pc[c].seen <= s.completed
  }

  ghost predicate ReaderRight(s: State)
    requires s.nr > 0 && 0 <= s.done
  {
    s.reader.Copying? ==>
      && s.done + |s.reader.out| <= s.reader.upto <= |s.log| && (s.reader.out == [] || |s.reader.out| <= s.reader.want)
      && s.reader.at == (s.done + |s.reader.out|) % s.nr && s.reader.end == s.reader.upto % s.nr
      && s.reader.out == s.log[s.done..s.done + |s.reader.out|]
  }

  ghost predicate Queue(s: State) {
    && s.nr > 1 && 0 <= s.done <= |s.log| && |s.log| - s.done <= s.completed
    && s.head == s.done % s.nr && s.tail == |s.log| % s.nr
    && s.delivered == s.log[..s.done] && Stored(s)
  }

  ghost predicate Fifo(s: State) {
    Conserves(s) && Queue(s) && ReaderRight(s) && forall c :: 0 <= c < |s.pc| ==> LoadedRight(s, c)
  }

  // ---------------------------------------------------------------- steps

  lemma {:induction false} StoredNext(s: State, ev: Event, s': State)
    requires Stored(s) && 0 <= s.done <= |s.log| && s.nr > 1 && |s.log| - s.done < s.nr && s.tail == |s.log| % s.nr
    requires s'.nr == s.nr && s'.slots == s.slots[s.tail := ev] && s'.log == s.log + [ev] && s'.done == s.done
    ensures Stored(s')
  {
    forall i | s'.done <= i < |s'.log| ensures s'.slots[i % s'.nr] == s'.log[i] {
      if i < |s.log| { ModDistance(i, |s.log|, s.nr); }
    }
  }

  lemma {:induction false} CompleteFifo(s: State, c: int, ev: Event)
    requires Fifo(s) && Enabled(s, Complete(c, ev))
    ensures Queue(Apply(s, Complete(c, ev))) && ReaderRight(Apply(s, Complete(c, ev)))
  {
    RoomLeft(s);
    var s' := Apply(s, Complete(c, ev));
    ModNext(|s.log|, s.nr);
    StoredNext(s, ev, s');
    assert s'.log[..s.done] == s.log[..s.done];
    if s.reader.Copying? {
      assert s'.log[s.done..s.done + |s.reader.out|] == s.log[s.done..s.done + |s.reader.out|];
    }
  }

  lemma {:induction false} CompleteLoaded(s: State, c: int, ev: Event, b: int)
    requires Fifo(s) && Enabled(s, Complete(c, ev)) && 0 <= b < |s.pc|
    ensures LoadedRight(Apply(s, Complete(c, ev)), b)
  {
    assert LoadedRight(s, b);
  }

  lemma {:induction false} RefillFifo(s: State, c: int)
    requires Fifo(s) && Enabled(s, Refill(c))
    ensures Fifo(Apply(s, Refill(c)))
  {
    StepConserves(s, Refill(c));
    RoomLeft(s);
    assert LoadedRight(s, c);
    ModDistance(s.pc[c].seen, |s.log|, s.nr);
    assert s.pc[c].head % s.nr == s.pc[c].head by { ModSplit(s.pc[c].head, 0, s.pc[c].head, s.nr); }
    var s' := Apply(s, Refill(c));
    forall b | 0 <= b < |s'.pc| ensures LoadedRight(s', b) { assert LoadedRight(s, b); }
  }

  /** A step that touches neither the ring nor the reader's place in it. */
  lemma {:induction false} FifoKept(s: State, s': State)
    requires Fifo(s) && Conserves(s')
    requires s' == s.(available := s'.available, cpu := s'.cpu, pc := s'.pc, lock := s'.lock, outstanding := s'.outstanding)
    requires forall b :: 0 <= b < |s'.pc| ==> LoadedRight(s', b)
    ensures Fifo(s')
  {}

  lemma {:induction false} LocalFifo(s: State, step: Step)
    requires Fifo(s) && Enabled(s, step) && Local(step)
    ensures Fifo(Apply(s, step))
  {
    StepConserves(s, step);
    LocalSame(s, step);
    LocalAllLoaded(s, step);
    FifoKept(s, Apply(s, step));
  }

  lemma {:induction false} LocalAllLoaded(s: State, step: Step)
    requires Fifo(s) && Enabled(s, step) && Local(step)
    ensures forall b :: 0 <= b < |Apply(s, step).pc| ==> LoadedRight(Apply(s, step), b)
  {
    forall b | 0 <= b < |Apply(s, step).pc| ensures LoadedRight(Apply(s, step), b) { LocalLoaded(s, step, b); }
  }

  lemma {:induction false} LocalSame(s: State, step: Step)
    requires Sized(s) && Enabled(s, step) && Local(step)
    ensures var s' := Apply(s, step);
            s' == s.(available := s'.available, cpu := s'.cpu, pc := s'.pc, lock := s'.lock, outstanding := s'.outstanding)
  {}

  lemma {:induction false} LocalLoaded(s: State, step: Step, b: int)
    requires Fifo(s) && Enabled(s, step) && Local(step) && 0 <= b < |Apply(s, step).pc|
    ensures LoadedRight(Apply(s, step), b)
  {
    assert LoadedRight(s, b);
  }

  lemma {:induction false} ModShift(a: int, n: int, nr: int)
    requires nr > 0 && 0 <= n && a % nr + n <= nr
    ensures (a % nr + n) % nr == (a + n) % nr
  {
    if a % nr + n < nr {
      ModAdd(a, n, nr);
      ModSplit(a % nr + n, 0, a % nr + n, nr);
    } else {
      ModWrap(a, n, nr);
      ModSplit(nr, 1, 0, nr);
    }
  }

  /** The two indices agree exactly when everything has been read. */
  lemma {:induction false} EmptyIff(s: State)
    requires Fifo(s)
    ensures s.head == s.tail <==> s.done == |s.log|
  {
    RoomLeft(s);
    ModDistance(s.done, |s.log|, s.nr);
  }

  lemma {:induction false} ChunkWithin(a: int, upto: int, nr: int, wanted: int)
    requires nr > 1 && 0 <= a < upto < a + nr && wanted > 0
    ensures var n := Chunk(a % nr, upto % nr, nr, wanted); 0 < n <= wanted && a % nr + n <= nr && a + n <= upto
  {
    ModDistance(a, upto, nr);
    ChunkFits(a % nr, upto % nr, nr, wanted);
    assert (a % nr) % nr == a % nr by { ModSplit(a % nr, 0, a % nr, nr); }
  }

  lemma {:induction false} ChunkSame(slots: seq<Event>, log: seq<Event>, done: int, a: int, n: int, nr: int)
    requires |slots| == nr > 0 && 0 <= done <= a && 0 <= n && a + n <= |log| && a % nr + n <= nr
    requires forall i :: done <= i < |log| ==> slots[i % nr] == log[i]
    ensures slots[a % nr..a % nr + n] == log[a..a + n]
  {
    var x, y := slots[a % nr..a % nr + n], log[a..a + n];
    forall j | 0 <= j < n ensures x[j] == y[j] { ModAdd(a, j, nr); }
  }

  lemma {:induction false} ChunkOf(slots: seq<Event>, log: seq<Event>, done: int, a: int, upto: int, nr: int, wanted: int)
    requires |slots| == nr > 1 && 0 <= done <= a <= upto <= |log| && upto < a + nr && wanted > 0 && a % nr != upto % nr
    requires forall i :: done <= i < |log| ==> slots[i % nr] == log[i]
    ensures var n := Chunk(a % nr, upto % nr, nr, wanted);
            0 < n <= wanted && a % nr + n <= nr && a + n <= upto && slots[a % nr..a % nr + n] == log[a..a + n]
  {
    var n := Chunk(a % nr, upto % nr, nr, wanted);
    ChunkWithin(a, upto, nr, wanted);
    ChunkSame(slots, log, done, a, n, nr);
  }

  /** A chunk holds the next unread events and does not reach past what the snapshot saw. */
  lemma {:induction false} ChunkIsNext(s: State, n: int)
    requires Fifo(s) && Enabled(s, CopyChunk) && n == Chunk(s.reader.at, s.reader.end, s.nr, s.reader.want - |s.reader.out|)
    ensures var a := s.done + |s.reader.out|;
            && 0 < n <= s.reader.want - |s.reader.out| && s.reader.at + n <= s.nr && a + n <= s.reader.upto
            && s.slots[s.reader.at..s.reader.at + n] == s.log[a..a + n]
  {
    RoomLeft(s);
    ChunkOf(s.slots, s.log, s.done, s.done + |s.reader.out|, s.reader.upto, s.nr, s.reader.want - |s.reader.out|);
  }

  lemma {:induction false} CopyIs(s: State, n: int)
    requires Sized(s) && Enabled(s, CopyChunk) && n == Chunk(s.reader.at, s.reader.end, s.nr, s.reader.want - |s.reader.out|)
    requires 0 <= n && s.reader.at + n <= s.nr
    ensures Apply(s, CopyChunk)
         == s.(reader := s.reader.(out := s.reader.out + s.slots[s.reader.at..s.reader.at + n], at := (s.reader.at + n) % s.nr))
  {}

  lemma {:induction false} CopyReader(s: State)
    requires Fifo(s) && Enabled(s, CopyChunk)
    ensures ReaderRight(Apply(s, CopyChunk))
  {
    var n := Chunk(s.reader.at, s.reader.end, s.nr, s.reader.want - |s.reader.out|);
    ChunkIsNext(s, n);
    ReaderMoves(s, n);
    CopyIs(s, n);
  }

  /** The reader after the next `n` events. */
  lemma {:induction false} ReaderMoves(s: State, n: nat)
    requires s.nr > 0 && 0 <= s.done && ReaderRight(s) && s.reader.Copying? && s.reader.at + n <= s.nr == |s.slots|
    requires |s.reader.out| + n <= s.reader.want
    requires var a := s.done + |s.reader.out|; a + n <= s.reader.upto && s.slots[s.reader.at..s.reader.at + n] == s.log[a..a + n]
    ensures ReaderRight(s.(reader := s.reader.(out := s.reader.out + s.slots[s.reader.at..s.reader.at + n], at := (s.reader.at + n) % s.nr)))
  {
    var a := s.done + |s.reader.out|;
    ModShift(a, n, s.nr);
    Joined(s.log, s.done, a, a + n);
  }

  lemma {:induction false} Joined(log: seq<Event>, i: nat, j: nat, k: nat)
    requires i <= j <= k <= |log|
    ensures log[i..j] + log[j..k] == log[i..k]
  {}

  lemma {:induction false} CopyFifo(s: State)
    requires Fifo(s) && Enabled(s, CopyChunk)
    ensures Fifo(Apply(s, CopyChunk))
  {
    var s' := Apply(s, CopyChunk);
    assert ReaderRight(s') by { CopyReader(s); }
    assert s' == s.(reader := s'.reader);
    forall b | 0 <= b < |s'.pc| ensures LoadedRight(s', b) { assert LoadedRight(s, b); }
  }

  lemma {:induction false} ReaderFifo(s: State, step: Step)
    requires Fifo(s) && Enabled(s, step) && (step.StartRead? || step.Fault? || step.FinishRead?)
    ensures Fifo(Apply(s, step))
  {
    var s' := Apply(s, step);
    assert s.head % s.nr == s.head by { ModSplit(s.head, 0, s.head, s.nr); }
    assert s.tail % s.nr == s.tail by { ModSplit(s.tail, 0, s.tail, s.nr); }
    if step.FinishRead? {
      assert s.log[..s.done] + s.log[s.done..s'.done] == s.log[..s'.done];
    }
    forall b | 0 <= b < |s'.pc| ensures LoadedRight(s', b) { assert LoadedRight(s, b); }
  }

  /**
   In a queue a refill makes the completed events those that were unread when it loaded
   the head, and frees every slot read before.
   */
  lemma {:induction false} RefillFrees(s: State, c: int)
    requires Fifo(s) && Enabled(s, Refill(c))
    ensures var s' := Apply(s, Refill(c));
            s'.completed == |s.log| - s.pc[c].seen && Held(s'.pc[c], s.batch) == s.completed - s'.completed
  {
    RefillExact(s, c);
    RoomLeft(s);
    assert LoadedRight(s, c);
    ModDistance(s.pc[c].seen, |s.log|, s.nr);
  }

  /** A read begins exactly if there are unread events, and sees all of them. */
  lemma {:induction false} ReadStarts(s: State, want: int)
    requires Fifo(s) && Enabled(s, StartRead(want))
    ensures var s' := Apply(s, StartRead(want));
            && s' == s.(reader := s'.reader) && (s'.reader.Copying? <==> s.done < |s.log|)
            && (s'.reader.Copying? ==> s'.reader.upto == |s.log| && s'.reader.want == want && s'.reader.out == [])
  {
    EmptyIff(s);
  }

  /** It goes on until it has as many as were wanted or all it saw, and hands out exactly those. */
  lemma {:induction false} ReadTakes(s: State)
    requires Fifo(s) && s.reader.Copying?
    ensures !Enabled(s, FinishRead) ==> Enabled(s, CopyChunk) && |Apply(s, CopyChunk).reader.out| > |s.reader.out|
    ensures Enabled(s, FinishRead) && s.reader.want >= 0 ==>
              var s', n := Apply(s, FinishRead), Min(s.reader.want, s.reader.upto - s.done);
              s'.done == s.done + n && s'.delivered == s.delivered + s.log[s.done..s.done + n] && s'.reader == Resting
  {
    RoomLeft(s);
    ModDistance(s.done + |s.reader.out|, s.reader.upto, s.nr);
    if !Enabled(s, FinishRead) {
      ChunkIsNext(s, Chunk(s.reader.at, s.reader.end, s.nr, s.reader.want - |s.reader.out|));
    }
  }

  /** Every step but a store to the head by userland keeps the ring a queue. */
  lemma {:induction false} StepFifo(s: State, step: Step)
    requires Fifo(s) && Enabled(s, step) && !step.UserWritesHead?
    ensures Fifo(Apply(s, step))
  {
    if Local(step) {
      LocalFifo(s, step);
    } else if step.Complete? {
      StepConserves(s, step);
      CompleteFifo(s, step.c, step.ev);
      forall b | 0 <= b < |Apply(s, step).pc| ensures LoadedRight(Apply(s, step), b) { CompleteLoaded(s, step.c, step.ev, b); }
    } else if step.Refill? {
      RefillFifo(s, step.c);
    } else if step.CopyChunk? {
      CopyFifo(s);
    } else {
      ReaderFifo(s, step);
    }
  }

  /** A store to the head by userland leaves the ring a queue if and only if it changes nothing. */
  lemma {:induction false} StoreFifo(s: State, h: int)
    requires Fifo(s) && Enabled(s, UserWritesHead(h))
    ensures Fifo(Apply(s, UserWritesHead(h))) <==> h == s.head
  {
    var s' := Apply(s, UserWritesHead(h));
    if h == s.head { assert s' == s; }
  }

  /** A read that faults gives up with nothing handed out and nothing lost. */
  lemma {:induction false} FaultKeeps(s: State)
    requires Fifo(s) && Enabled(s, Fault)
    ensures var s' := Apply(s, Fault);
            s'.reader == Resting && s'.done == s.done && s'.head == s.head && s'.delivered == s.delivered && s'.log == s.log
  {}

  // ----------------------------------------------------------- whole runs

  datatype History = Start(first: State) | Then(before: History, step: Step)

  /** The state a history leads to, if each of its steps was possible. */
  ghost predicate Leads(h: History, s: State) {
    match h
    case Start(first) => s == first
    case Then(before, step) => exists b :: Leads(before, b) && Sized(b) && Enabled(b, step) && s == Apply(b, step)
  }

  ghost function First(h: History): State {
    if h.Start? then h.first else First(h.before)
  }

  ghost predicate UserStores(h: History) {
    h.Then? && (h.step.UserWritesHead? || UserStores(h.before))
  }

  /** A context as it is set up for `nr` events and any number of CPUs. */
  ghost predicate Fresh(s: State) {
    && Sized(s) && s.available == s.nr - 1 && s.outstanding == 0 && s.completed == 0 && s.lock == UNLOCKED
    && s.head == 0 && s.tail == 0 && s.reader == Resting && s.log == [] && s.done == 0 && s.delivered == []
    && forall c :: 0 <= c < |s.cpu| ==> s.cpu[c] == 0 && s.pc[c] == Idle
  }

  lemma {:induction false} SumZero(xs: seq<int>)
    requires forall i :: 0 <= i < |xs| ==> xs[i] == 0
    ensures Sum(xs) == 0
  {
    if xs != [] { SumZero(xs[1..]); }
  }

  lemma {:induction false} HeldZero(ps: seq<Pc>, batch: int)
    requires forall i :: 0 <= i < |ps| ==> ps[i] == Idle
    ensures HeldAll(ps, batch) == 0
  {
    if ps != [] { HeldZero(ps[1..], batch); }
  }

  lemma {:induction false} FreshFifo(s: State)
    requires Fresh(s)
    ensures Fifo(s)
  {
    SumZero(s.cpu);
    HeldZero(s.pc, s.batch);
    ModSplit(0, 0, 0, s.nr);
  }

  /** Over any interleaving, and whatever userland stores in the head, all credits stay accounted for. */
  lemma {:induction false} RunConserves(h: History, s: State)
    requires Fresh(First(h)) && Leads(h, s)
    ensures Conserves(s)
  {
    match h
    case Start(first) => FreshFifo(first);
    case Then(before, step) =>
      var b :| Leads(before, b) && Sized(b) && Enabled(b, step) && s == Apply(b, step);
      RunConserves(before, b);
      StepConserves(b, step);
  }

  /** Over any interleaving in which only the reader moves the head, the ring is an exactly-once queue. */
  lemma {:induction false} RunFifo(h: History, s: State)
    requires Fresh(First(h)) && Leads(h, s) && !UserStores(h)
    ensures Fifo(s)
  {
    match h
    case Start(first) => FreshFifo(first);
    case Then(before, step) =>
      var b :| Leads(before, b) && Sized(b) && Enabled(b, step) && s == Apply(b, step);
      RunFifo(before, b);
      StepFifo(b, step);
  }

  /** The events that completed, in order. */
  function Completed(h: History): seq<Event> {
    match h
    case Start(_) => []
    case Then(before, step) => if step.Complete? then Completed(before) + [step.ev] else Completed(before)
  }

  lemma {:induction false} RunLogs(h: History, s: State)
    requires Fresh(First(h)) && Leads(h, s)
    ensures s.log == Completed(h)
  {
    if h.Then? {
      var b :| Leads(h.before, b) && Sized(b) && Enabled(b, h.step) && s == Apply(b, h.step);
      RunLogs(h.before, b);
    }
  }

  /** What that means for the two ends of the ring. */
  lemma {:induction false} RunDelivers(h: History, s: State)
    requires Fresh(First(h)) && Leads(h, s) && !UserStores(h)
    ensures s.log == Completed(h)
    ensures 0 <= s.done <= |s.log| && s.delivered == s.log[..s.done]
    ensures |s.slots| == s.nr > 1 && |s.log| - s.done <= s.nr - 1 && (s.head == s.tail <==> s.done == |s.log|)
    ensures forall i :: s.done <= i < |s.log| ==> s.slots[i % s.nr] == s.log[i]
  {
    RunFifo(h, s);
    RunLogs(h, s);
    RoomLeft(s);
    EmptyIff(s);
  }
}
