/**
 The completion ring of an asynchronous I/O context: slot credits spread over a
 global counter and per-CPU counters, the ring itself, and a reader that copies
 events out while completions go on.  Every access to shared memory is a step of
 its own, so that steps of different CPUs interleave freely.
 */
module AioContext {

  /** The `io_event` delivered for a completed request. */
  type Event = int

  /**
   Where a CPU stands inside the credit code.  `Taking` has read the global
   counter and is about to compare-and-swap; `Loaded` holds the completion lock
   and has read the ring's head, when `seen` events had been read; `Adding`, `Spilling` and `Carrying` are the
   stages of giving credits back.
   */
  datatype Pc =
    | Idle
    | Taking(avail: int)
    | Loaded(head: int, seen: int)
    | Adding(n: int)
    | Spilling
    | Carrying

  /** `at` and `end` are ring indices, `upto` the number of events completed when `end` was read. */
  datatype Reader = Resting | Copying(at: int, end: int, want: int, out: seq<Event>, upto: int)

  const UNLOCKED := -1

  /**
   `log` lists all completed events, `done` says how many of them the reader has
   moved past, `delivered` what it has handed out.
   */
  datatype State = State(
    nr: int, batch: int,
    available: int, cpu: seq<int>, pc: seq<Pc>, lock: int,
    outstanding: int, completed: int,
    head: int, tail: int, slots: seq<Event>,
    reader: Reader,
    log: seq<Event>, done: int, delivered: seq<Event>)

  datatype Step =
    | TakeLocal(c: int)
    | ReadAvailable(c: int)
    | CompareAndSwap(c: int)
    | LockToRefill(c: int)
    | Complete(c: int, ev: Event)
    | Refill(c: int)
    | AddLocal(c: int)
    | Spill(c: int)
    | Deliver(c: int)
    | FailSubmit(c: int)
    | StartRead(want: int)
    | CopyChunk
    | Fault
    | FinishRead
    | UserWritesHead(h: int)

  // ----------------------------------------------------------- arithmetic

  /** How many events lie between a head, taken modulo the ring size, and the tail. */
  function InRing(head: int, tail: int, nr: int): int
    requires nr > 0
  {
    var h := head % nr;
    if h <= tail then tail - h else nr - (h - tail)
  }

  /** How many completed events the head says have been read. */
  function Excess(completed: int, inRing: int): int {
    if inRing < completed then completed - inRing else 0
  }

  function Next(i: int, nr: int): int {
    if i + 1 >= nr then 0 else i + 1
  }

  /** Contiguous unread events from `at` on, within the ring. */
  function Run(at: int, end: int, nr: int): int {
    (if at <= end then end else nr) - at
  }

  const EVENTS_PER_PAGE := 128
  const EVENTS_OFFSET := 1

  function Min(a: int, b: int): int {
    if a <= b then a else b
  }

  /** One `copy_to_user`: as far as the ring, the request and the page go. */
  function Chunk(at: int, end: int, nr: int, wanted: int): int {
    Min(Min(Run(at, end, nr), wanted), EVENTS_PER_PAGE - (at + EVENTS_OFFSET) % EVENTS_PER_PAGE)
  }

  // ---------------------------------------------------------------- steps

  predicate Ready(s: State, c: int) {
    0 <= c < |s.cpu| && |s.pc| == |s.cpu| && s.pc[c] == Idle
  }

  predicate At(s: State, c: int) {
    0 <= c < |s.cpu| && |s.pc| == |s.cpu|
  }

  /** Every context the kernel sets up. */
  predicate Sized(s: State) {
    s.nr > 1 && s.batch >= 1 && |s.slots| == s.nr && |s.pc| == |s.cpu|
  }

  predicate Enabled(s: State, step: Step)
    requires Sized(s)
  {
    match step
    case TakeLocal(c) => Ready(s, c) && s.cpu[c] > 0
    case ReadAvailable(c) => Ready(s, c) && s.cpu[c] == 0
    case CompareAndSwap(c) => At(s, c) && s.pc[c].Taking?
    case LockToRefill(c) => Ready(s, c) && s.lock == UNLOCKED && s.completed > 0
    case Complete(c, _) => Ready(s, c) && s.lock == UNLOCKED && s.outstanding > 0 && 0 <= s.tail < s.nr
    case Refill(c) => At(s, c) && s.pc[c].Loaded?
    case AddLocal(c) => At(s, c) && s.pc[c].Adding?
    case Spill(c) => At(s, c) && s.pc[c].Spilling?
    case Deliver(c) => At(s, c) && s.pc[c].Carrying?
    case FailSubmit(c) => Ready(s, c) && s.outstanding > 0
    case StartRead(_) => s.reader == Resting
    case CopyChunk =>
      && s.reader.Copying? && |s.reader.out| < s.reader.want
      && s.reader.at != s.reader.end && 0 <= s.reader.at < s.nr && 0 <= s.reader.end < s.nr
    case Fault => s.reader.Copying?
    case FinishRead => s.reader.Copying? && (|s.reader.out| >= s.reader.want || s.reader.at == s.reader.end)
    case UserWritesHead(h) => h >= 0
  }

  function Unlock(lock: int, c: int): int {
    if lock == c then UNLOCKED else lock
  }

  lemma {:induction false} ChunkFits(at: int, end: int, nr: int, wanted: int)
    requires 0 <= at < nr && 0 <= end < nr && at != end && wanted > 0
    ensures 0 < Chunk(at, end, nr, wanted) <= wanted && at + Chunk(at, end, nr, wanted) <= nr
  {}

  function Apply(s: State, step: Step): State
    requires Sized(s) && Enabled(s, step)
  {
    match step
    case TakeLocal(c) => s.(cpu := s.cpu[c := s.cpu[c] - 1], outstanding := s.outstanding + 1)
    case ReadAvailable(c) => s.(pc := s.pc[c := Taking(s.available)])
    case CompareAndSwap(c) =>
      var avail := s.pc[c].avail;
      if avail < s.batch then s.(pc := s.pc[c := Idle])
      else if s.available == avail then
        s.(available := avail - s.batch, cpu := s.cpu[c := s.cpu[c] + s.batch - 1], outstanding := s.outstanding + 1, pc := s.pc[c := Idle])
      else s.(pc := s.pc[c := Taking(s.available)])
    case LockToRefill(c) => s.(lock := c, pc := s.pc[c := Loaded(s.head, s.done)])
    case Complete(c, ev) =>
      var s1 := s.(slots := s.slots[s.tail := ev], tail := Next(s.tail, s.nr), outstanding := s.outstanding - 1,
                   completed := s.completed + 1, log := s.log + [ev]);
      if s1.completed > 1 then s1.(lock := c, pc := s.pc[c := Loaded(s.head, s.done)]) else s1
    case Refill(c) =>
      var k := Excess(s.completed, InRing(s.pc[c].head, s.tail, s.nr));
      if k == 0 then s.(pc := s.pc[c := Idle], lock := Unlock(s.lock, c))
      else s.(completed := s.completed - k, pc := s.pc[c := Adding(k)])
    case AddLocal(c) => s.(cpu := s.cpu[c := s.cpu[c] + s.pc[c].n], pc := s.pc[c := Spilling])
    case Spill(c) =>
      if s.cpu[c] >= s.batch * 2 then s.(cpu := s.cpu[c := s.cpu[c] - s.batch], pc := s.pc[c := Carrying])
      else s.(pc := s.pc[c := Idle], lock := Unlock(s.lock, c))
    case Deliver(c) => s.(available := s.available + s.batch, pc := s.pc[c := Spilling])
    case FailSubmit(c) => s.(outstanding := s.outstanding - 1, pc := s.pc[c := Adding(1)])
    case StartRead(want) =>
      if s.head == s.tail then s else s.(reader := Copying(s.head % s.nr, s.tail % s.nr, want, [], |s.log|))
    case CopyChunk =>
      var r := s.reader;
      var n := Chunk(r.at, r.end, s.nr, r.want - |r.out|);
      ChunkFits(r.at, r.end, s.nr, r.want - |r.out|);
      s.(reader := r.(out := r.out + s.slots[r.at..r.at + n], at := (r.at + n) % s.nr))
    case Fault => s.(reader := Resting)
    case FinishRead =>
      s.(head := s.reader.at, reader := Resting, done := s.done + |s.reader.out|, delivered := s.delivered + s.reader.out)
    case UserWritesHead(h) => s.(head := h)
  }

  // ---------------------------------------------------------- conservation

  function Sum(xs: seq<int>): int {
    if xs == [] then 0 else xs[0] + Sum(xs[1..])
  }

  /** Credits on their way between two counters. */
  function Held(p: Pc, batch: int): int {
    match p
    case Adding(n) => n
    case Carrying => batch
    case _ => 0
  }

  function HeldAll(ps: seq<Pc>, batch: int): int {
    if ps == [] then 0 else Held(ps[0], batch) + HeldAll(ps[1..], batch)
  }

  lemma {:induction false} SumUpdate(xs: seq<int>, i: int, v: int)
    requires 0 <= i < |xs|
    ensures Sum(xs[i := v]) == Sum(xs) - xs[i] + v
  {
    if i == 0 {
      assert xs[i := v][1..] == xs[1..];
    } else {
      SumUpdate(xs[1..], i - 1, v);
      assert xs[i := v][1..] == xs[1..][i - 1 := v];
    }
  }

  lemma {:induction false} HeldUpdate(ps: seq<Pc>, i: int, p: Pc, batch: int)
    requires 0 <= i < |ps|
    ensures HeldAll(ps[i := p], batch) == HeldAll(ps, batch) - Held(ps[i], batch) + Held(p, batch)
  {
    if i == 0 {
      assert ps[i := p][1..] == ps[1..];
    } else {
      HeldUpdate(ps[1..], i - 1, p, batch);
      assert ps[i := p][1..] == ps[1..][i - 1 := p];
    }
  }

  /** All credits, wherever they are. */
  function Credits(s: State): int {
    s.available + Sum(s.cpu) + HeldAll(s.pc, s.batch) + s.outstanding + s.completed
  }

  ghost predicate NoneNegative(s: State) {
    && s.available >= 0 && s.outstanding >= 0 && s.completed >= 0
    && (forall c :: 0 <= c < |s.cpu| ==> s.cpu[c] >= 0)
    && (forall c :: 0 <= c < |s.pc| ==> Held(s.pc[c], s.batch) >= 0)
  }

  /** Every slot but one is accounted for exactly once. */
  ghost predicate Conserves(s: State) {
    Sized(s) && 0 <= s.tail < s.nr && NoneNegative(s) && Credits(s) == s.nr - 1
  }

  /** A step of CPU `c` that balances its own books keeps everybody's. */
  lemma {:induction false} Balanced(s: State, s': State, c: int, v: int, p: Pc)
    requires Conserves(s) && 0 <= c < |s.cpu| && Sized(s') && s'.nr == s.nr && s'.batch == s.batch && 0 <= s'.tail < s'.nr
    requires s'.cpu == s.cpu[c := v] && s'.pc == s.pc[c := p] && v >= 0 && Held(p, s.batch) >= 0
    requires s'.available >= 0 && s'.outstanding >= 0 && s'.completed >= 0
    requires s'.available + v + Held(p, s.batch) + s'.outstanding + s'.completed
             == s.available + s.cpu[c] + Held(s.pc[c], s.batch) + s.outstanding + s.completed
    ensures Conserves(s')
  {
    SumUpdate(s.cpu, c, v);
    HeldUpdate(s.pc, c, p, s.batch);
  }

  /** No step creates or loses a credit, whatever value userland left in the head. */
  lemma {:induction false} StepConserves(s: State, step: Step)
    requires Conserves(s) && Enabled(s, step)
    ensures Conserves(Apply(s, step))
  {
    if step.StartRead? || step.CopyChunk? || step.Fault? || step.FinishRead? || step.UserWritesHead? {
    } else if step.Complete? || step.Refill? {
      RingStepConserves(s, step);
    } else {
      CreditStepConserves(s, step);
    }
  }

  /** Steps that only move credits about. */
  predicate Local(step: Step) {
    || step.TakeLocal? || step.ReadAvailable? || step.CompareAndSwap? || step.LockToRefill?
    || step.AddLocal? || step.Spill? || step.Deliver? || step.FailSubmit?
  }

  lemma {:induction false} CreditStepConserves(s: State, step: Step)
    requires Conserves(s) && Enabled(s, step) && Local(step)
    ensures Conserves(Apply(s, step))
  {
    var s' := Apply(s, step);
    Balanced(s, s', step.c, s'.cpu[step.c], s'.pc[step.c]);
  }

  lemma {:induction false} RingStepConserves(s: State, step: Step)
    requires Conserves(s) && Enabled(s, step) && (step.Complete? || step.Refill?)
    ensures Conserves(Apply(s, step))
  {
    var s' := Apply(s, step);
    Balanced(s, s', step.c, s'.cpu[step.c], s'.pc[step.c]);
  }

  // ------------------------------------------------------- what a step does

  /** A step of one CPU leaves the others alone. */
  lemma {:induction false} OthersKept(s: State, step: Step, b: int)
    requires Sized(s) && Enabled(s, step) && 0 <= b < |s.cpu| && (Local(step) || step.Complete? || step.Refill? ==> b != step.c)
    ensures Sized(Apply(s, step)) && |Apply(s, step).cpu| == |s.cpu|
    ensures Apply(s, step).cpu[b] == s.cpu[b] && Apply(s, step).pc[b] == s.pc[b]
  {}

  /**
   A refill leaves as completed no more than the events between the head it read and the
   tail, and carries exactly the difference.
   */
  lemma {:induction false} RefillExact(s: State, c: int)
    requires Conserves(s) && Enabled(s, Refill(c))
    ensures var s' := Apply(s, Refill(c));
            && s'.completed == Min(s.completed, InRing(s.pc[c].head, s.tail, s.nr))
            && Held(s'.pc[c], s.batch) == s.completed - s'.completed
            && (s'.pc[c] == Idle <==> s'.completed == s.completed)
            && s' == s.(completed := s'.completed, pc := s'.pc, lock := s'.lock)
  {
    var h := s.pc[c].head % s.nr;
    assert 0 <= h < s.nr;
    assert InRing(s.pc[c].head, s.tail, s.nr) >= 0;
  }

  /**
   The swap gives the CPU a batch, less the credit for the request, exactly if the counter
   still has the value that was read and that is enough; if the value has changed it is
   read again, and if it was too little there is no request.
   */
  lemma {:induction false} SwapExact(s: State, c: int)
    requires Sized(s) && Enabled(s, CompareAndSwap(c))
    ensures var s', avail := Apply(s, CompareAndSwap(c)), s.pc[c].avail;
            && s' == s.(available := s'.available, cpu := s'.cpu, pc := s'.pc, outstanding := s'.outstanding)
            && (s'.outstanding == s.outstanding + 1 <==> s.available == avail >= s.batch)
            && (if s.available == avail >= s.batch then
                  s'.available == s.available - s.batch && s'.cpu[c] == s.cpu[c] + s.batch - 1 && s'.pc[c] == Idle
                else
                  s'.available == s.available && s'.cpu == s.cpu && s'.outstanding == s.outstanding
                  && s'.pc[c] == if avail < s.batch then Idle else Taking(s.available))
  {}

  /** Getting a credit with nobody interfering: it fails exactly if neither counter has enough. */
  lemma {:induction false} GetUndisturbed(s: State, c: int)
    requires Conserves(s) && Ready(s, c)
    ensures s.cpu[c] > 0 ==> Apply(s, TakeLocal(c)) == s.(cpu := s.cpu[c := s.cpu[c] - 1], outstanding := s.outstanding + 1)
    ensures s.cpu[c] == 0 ==>
              var s1 := Apply(s, ReadAvailable(c));
              && Sized(s1) && Enabled(s1, CompareAndSwap(c))
              && Apply(s1, CompareAndSwap(c)) ==
                 if s.available < s.batch then s
                 else s.(available := s.available - s.batch, cpu := s.cpu[c := s.batch - 1], outstanding := s.outstanding + 1)
  {
    if s.cpu[c] == 0 {
      var s1 := Apply(s, ReadAvailable(c));
      var s2 := Apply(s1, CompareAndSwap(c));
      assert s2.pc == s.pc;
    }
  }

  predicate Gives(s: State, c: int) {
    At(s, c) && (s.pc[c].Adding? || s.pc[c].Spilling? || s.pc[c].Carrying?)
  }

  function GivingStep(s: State, c: int): Step
    requires Gives(s, c)
  {
    match s.pc[c] case Adding(_) => AddLocal(c) case Spilling => Spill(c) case Carrying => Deliver(c)
  }

  function Place(p: Pc): nat {
    if p.Adding? then 2 else if p.Spilling? then 1 else 0
  }

  /** Giving credits back with nobody interfering: the CPU takes its own steps until it is idle. */
  ghost function GiveBack(s: State, c: int): State
    requires Conserves(s) && Gives(s, c)
    decreases s.cpu[c] + Held(s.pc[c], s.batch), Place(s.pc[c])
  {
    var s' := Apply(s, GivingStep(s, c));
    StepConserves(s, GivingStep(s, c));
    if s'.pc[c] == Idle then s' else GiveBack(s', c)
  }

  /**
   All credits of the CPU are in the two counters, `k` batches of them in the global one,
   and it keeps fewer than two batches, but one at least if it gave one away.
   */
  ghost predicate GivenBack(s: State, s': State, c: int, k: nat)
    requires Gives(s, c)
  {
    && |s'.cpu| == |s.cpu| && 0 <= s'.cpu[c] < 2 * s.batch && s'.available == s.available + s.batch * k
    && s'.cpu[c] + s.batch * k == s.cpu[c] + Held(s.pc[c], s.batch)
    && (k > 0 && !s.pc[c].Carrying? ==> s'.cpu[c] >= s.batch)
    && s' == s.(available := s'.available, cpu := s.cpu[c := s'.cpu[c]], pc := s.pc[c := Idle], lock := Unlock(s.lock, c))
  }

  lemma {:induction false} GivenBackStep(s: State, s': State, c: int, k: nat)
    requires Conserves(s) && Gives(s, c) && !s.pc[c].Carrying?
    requires Gives(Apply(s, GivingStep(s, c)), c) && GivenBack(Apply(s, GivingStep(s, c)), s', c, k)
    requires s.pc[c].Spilling? ==> s'.cpu[c] >= s.batch
    ensures GivenBack(s, s', c, k)
  {}

  lemma {:induction false} GivenBackLast(s: State, c: int)
    requires Conserves(s) && Gives(s, c) && Apply(s, GivingStep(s, c)).pc[c] == Idle
    ensures GivenBack(s, Apply(s, GivingStep(s, c)), c, 0) && !s.pc[c].Carrying?
  {}

  lemma {:induction false} GivenBackDeliver(s: State, s': State, c: int, k: nat)
    requires Conserves(s) && Gives(s, c) && s.pc[c].Carrying?
    requires Gives(Apply(s, Deliver(c)), c) && GivenBack(Apply(s, Deliver(c)), s', c, k)
    ensures GivenBack(s, s', c, k + 1)
  {
    assert s.batch * (k + 1) == s.batch * k + s.batch;
  }

  lemma {:induction false} GiveBackExact(s: State, c: int) returns (k: nat)
    requires Conserves(s) && Gives(s, c)
    ensures GivenBack(s, GiveBack(s, c), c, k)
    ensures s.pc[c].Carrying? && s.cpu[c] >= s.batch ==> GiveBack(s, c).cpu[c] >= s.batch
    decreases s.cpu[c] + Held(s.pc[c], s.batch), Place(s.pc[c])
  {
    var s1 := Apply(s, GivingStep(s, c));
    StepConserves(s, GivingStep(s, c));
    k := 0;
    if s1.pc[c] == Idle {
      GivenBackLast(s, c);
    } else {
      k := GiveBackExact(s1, c);
      if s.pc[c].Carrying? {
        GivenBackDeliver(s, GiveBack(s, c), c, k);
        k := k + 1;
      } else {
        GivenBackStep(s, GiveBack(s, c), c, k);
      }
    }
  }

  /**
   A completion puts its event in the slot at the tail, turns the request into a
   completed event, and goes on to refill exactly if that is not the only one.
   */
  lemma {:induction false} CompleteExact(s: State, c: int, ev: Event)
    requires Conserves(s) && Enabled(s, Complete(c, ev))
    ensures var s' := Apply(s, Complete(c, ev));
            && s'.slots == s.slots[s.tail := ev] && s'.log == s.log + [ev] && s'.tail == (s.tail + 1) % s.nr
            && s'.outstanding == s.outstanding - 1 && s'.completed == s.completed + 1
            && s'.pc == s.pc[c := if s.completed > 0 then Loaded(s.head, s.done) else Idle]
            && (s'.lock == c || s'.lock == UNLOCKED) && (s.completed > 0 ==> s'.lock == c)
            && s' == s.(slots := s'.slots, log := s'.log, tail := s'.tail, outstanding := s'.outstanding,
                        completed := s'.completed, pc := s'.pc, lock := s'.lock)
  {
    assert s.pc[c := Idle] == s.pc;
  }

  /** `user_refill_reqs_available` with nobody interfering. */
  ghost function UserRefill(s: State, c: int): State
    requires Conserves(s) && Enabled(s, LockToRefill(c))
  {
    var s1 := Apply(s, LockToRefill(c));
    StepConserves(s, LockToRefill(c));
    var s2 := Apply(s1, Refill(c));
    StepConserves(s1, Refill(c));
    if s2.pc[c] == Idle then s2 else GiveBack(s2, c)
  }

  /** It frees the slots that the head says are read, into the counters, and leaves all else as it was. */
  lemma {:induction false} UserRefillExact(s: State, c: int)
    requires Conserves(s) && Enabled(s, LockToRefill(c))
    ensures var r := UserRefill(s, c);
            && |r.cpu| == |s.cpu| && r == s.(completed := r.completed, available := r.available, cpu := s.cpu[c := r.cpu[c]])
            && r.completed == Min(s.completed, InRing(s.head, s.tail, s.nr))
            && r.cpu[c] + r.available == s.cpu[c] + s.available + (s.completed - r.completed)
  {
    var s1 := Apply(s, LockToRefill(c));
    StepConserves(s, LockToRefill(c));
    var s2 := Apply(s1, Refill(c));
    StepConserves(s1, Refill(c));
    RefillExact(s1, c);
    assert s.pc == s1.pc[c := Idle] && s.cpu == s.cpu[c := s.cpu[c]];
    if s2.pc[c] == Idle {
      assert s2.pc == s.pc;
    } else {
      var k := GiveBackExact(s2, c);
      assert GiveBack(s2, c).pc == s.pc;
    }
  }

  /** A submission that fails gives its credit back. */
  lemma {:induction false} FailGivesBack(s: State, c: int)
    requires Conserves(s) && Enabled(s, FailSubmit(c))
    ensures var s1 := Apply(s, FailSubmit(c));
            && Conserves(s1) && Gives(s1, c)
            && var r := GiveBack(s1, c);
            && |r.cpu| == |s.cpu| && r.outstanding == s.outstanding - 1 && r.pc == s.pc
            && r.cpu[c] + r.available == s.cpu[c] + s.available + 1
  {
    StepConserves(s, FailSubmit(c));
    var k := GiveBackExact(Apply(s, FailSubmit(c)), c);
  }
}
