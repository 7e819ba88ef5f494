/**
 A poll request.  Its asynchronous reference wanders between the submitter, the
 wait queue of the polled file, a work item and a waker that completes inline.
 Each critical section, and each access outside of one, is a step of its own.
 */
module AioPoll {
  import opened Common

  /** How far the submitter is; `mask` and `failed` are its local result and error. */
  datatype Submitter =
    | Polling(failed: bool)
    | Polled(mask: bool, failed: bool)
    | Locked(mask: bool, failed: bool)
    | Decided(mask: bool, failed: bool)
    | Unlocked(mask: bool, failed: bool)
    | Returning(failed: bool)
    | Released(failed: bool)
    | Finished(failed: bool)

  datatype Kind = CompleteWork | PutWork

  datatype Work = NoWork | Pending(kind: Kind) | Running(kind: Kind) | Checked(mask: bool) | Putting

  /**
   `own` says that the submitter holds the asynchronous reference, `waker` that a
   waker does.
   */
  datatype Request = Request(
    sub: Submitter, own: bool,
    head: bool, queued: bool, done: bool, cancelled: bool, active: bool,
    work: Work, waker: bool,
    refs: int, completions: int, frees: int)

  const SUBMITTED := Request(Polling(true), true, false, false, false, false, false, NoWork, false, 2, 0, 0)

  datatype Step =
    | QueueProc
    | PollReturns(mask: bool)
    | LockContext
    | Decide
    | UnlockContext
    | PutStolen
    | PutSync
    | Conclude
    | Wake(mask: bool, gotLock: bool, busyEventfd: bool)
    | InlinePut
    | RunWork
    | PutWorkPuts
    | WorkPolls(mask: bool)
    | WorkDecides
    | WorkPuts
    | Cancel

  predicate ContextLocked(r: Request) {
    r.sub.Locked? || r.sub.Decided?
  }

  predicate Enabled(r: Request, step: Step) {
    match step
    case QueueProc => r.sub.Polling?
    case PollReturns(_) => r.sub.Polling?
    case LockContext => r.sub.Polled?
    case Decide => r.sub.Locked?
    case UnlockContext => r.sub.Decided?
    case PutStolen => r.sub.Unlocked?
    case PutSync => r.sub.Returning?
    case Conclude => r.sub.Released?
    case Wake(_, gotLock, _) => r.queued && (gotLock ==> !ContextLocked(r))
    case InlinePut => r.waker
    case RunWork => r.work.Pending?
    case PutWorkPuts => r.work == Running(PutWork)
    case WorkPolls(_) => r.work == Running(CompleteWork)
    case WorkDecides => r.work.Checked? && !ContextLocked(r)
    case WorkPuts => r.work == Putting
    case Cancel => r.active && !ContextLocked(r)
  }

  /** Drops one reference; the last one delivers the event and frees the request. */
  function Put(r: Request): Request {
    if r.refs == 1 then r.(refs := 0, completions := r.completions + 1, frees := r.frees + 1) else r.(refs := r.refs - 1)
  }

  function Schedule(r: Request, kind: Kind): Request {
    r.(work := Pending(kind))
  }

  /** The submitter's decision under both locks. */
  function Decision(r: Request): Request
    requires r.sub.Locked?
  {
    var mask, failed := r.sub.mask, r.sub.failed;
    if !r.head then r.(sub := Decided(mask, failed && !mask))
    else
      var cancel := !r.queued && failed;
      var mask' := r.queued && mask;
      var failed' := r.queued && failed;
      var r1 := if mask' || failed' then r.(queued := false, own := true)
                else if cancel then r.(cancelled := true)
                else if !r.done then r.(active := true)
                else r;
      r1.(sub := Decided(mask', failed' && !mask'))
  }

  function Apply(r: Request, step: Step): Request
    requires Enabled(r, step)
  {
    match step
    case QueueProc =>
      if r.head then r.(sub := Polling(true)) else r.(sub := Polling(false), head := true, queued := true, own := false)
    case PollReturns(mask) => r.(sub := Polled(mask, r.sub.failed))
    case LockContext => r.(sub := Locked(r.sub.mask, r.sub.failed))
    case Decide => Decision(r)
    case UnlockContext => r.(sub := Unlocked(r.sub.mask, r.sub.failed))
    case PutStolen =>
      if r.sub.mask then Put(r.(sub := Returning(r.sub.failed), own := false)) else r.(sub := Returning(r.sub.failed))
    case PutSync => Put(r.(sub := Released(r.sub.failed)))
    case Conclude =>
      if r.sub.failed then r.(sub := Finished(true), own := false, refs := 0, frees := r.frees + 1) else r.(sub := Finished(false))
    case Wake(mask, gotLock, busyEventfd) =>
      var r1 := r.(queued := false);
      if mask && gotLock then
        var r2 := r1.(active := false, done := true);
        if busyEventfd then Schedule(r2, PutWork) else r2.(waker := true)
      else Schedule(r1, CompleteWork)
    case InlinePut => Put(r.(waker := false))
    case RunWork => r.(work := Running(r.work.kind))
    case PutWorkPuts => Put(r.(work := NoWork))
    case WorkPolls(mask) => r.(work := Checked(!r.cancelled && mask))
    case WorkDecides =>
      if !r.work.mask && !r.cancelled then r.(queued := true, work := NoWork)
      else r.(active := false, done := true, work := Putting)
    case WorkPuts => Put(r.(work := NoWork))
    case Cancel =>
      var r1 := r.(cancelled := true, active := false);
      if r.queued then Schedule(r1.(queued := false), CompleteWork) else r1
  }

  // ------------------------------------------------------------ ownership

  /** How many places hold the asynchronous reference. */
  function Owners(r: Request): int {
    One(r.own) + One(r.queued) + One(!r.work.NoWork?) + One(r.waker)
  }

  /** The submitter still holds its own reference. */
  predicate SyncHeld(r: Request) {
    !r.sub.Released? && !r.sub.Finished?
  }

  /** What the submitter's progress says about who owns the request. */
  ghost predicate SubmitterKnows(r: Request) {
    match r.sub
    case Polling(failed) => (r.own <==> !r.head) && (!r.head ==> failed) && !r.active
    case Polled(_, failed) => (r.own <==> !r.head) && (!r.head ==> failed) && !r.active
    case Locked(_, failed) => (r.own <==> !r.head) && (!r.head ==> failed) && !r.active
    case Decided(mask, failed) => (r.own <==> mask || failed) && !(mask && failed)
    case Unlocked(mask, failed) => (r.own <==> mask || failed) && !(mask && failed)
    case Returning(failed) => r.own <==> failed
    case Released(failed) => r.own <==> failed
    case Finished(failed) => !r.own && (failed ==> r.completions == 0 && r.refs == 0)
  }

  /** The submitter has decided. */
  predicate Settled(r: Request) {
    !r.sub.Polling? && !r.sub.Polled? && !r.sub.Locked?
  }

  /** The work item has nothing left to do but drop the request. */
  predicate Dropping(w: Work) {
    match w
    case Pending(kind) => kind.PutWork?
    case Running(kind) => kind.PutWork?
    case Putting => true
    case _ => false
  }

  /** Once the result is decided, whoever has the request only has to drop it. */
  ghost predicate DoneRight(r: Request) {
    && (r.done ==> !r.queued && !r.active && !r.own && (r.work.NoWork? || Dropping(r.work)))
    && (r.waker || Dropping(r.work) ==> r.done)
    && (r.own ==> !r.active) && (r.cancelled ==> Settled(r) && !r.queued && !r.own)
    && (r.active <==> Settled(r) && AsyncHeld(r) && !r.own && !r.done && !r.cancelled)
  }

  /** Some place holds the asynchronous reference. */
  predicate AsyncHeld(r: Request) {
    r.own || r.queued || !r.work.NoWork? || r.waker
  }

  /** No two places do. */
  ghost predicate Exclusive(r: Request) {
    && (r.own ==> !r.queued && r.work.NoWork? && !r.waker)
    && (r.queued ==> r.work.NoWork? && !r.waker)
    && (r.waker ==> r.work.NoWork?)
  }

  /** The reference count is the number of holders, and freeing happens when it reaches zero. */
  ghost predicate Counted(r: Request) {
    && r.refs == (if SyncHeld(r) then 1 else 0) + (if AsyncHeld(r) then 1 else 0)
    && r.frees == (if SyncHeld(r) || AsyncHeld(r) then 0 else 1)
    && r.completions == (if r.frees == 1 && r.sub != Finished(true) then 1 else 0)
    && (!AsyncHeld(r) ==> r.done || r.sub.Returning? || r.sub.Released? || r.sub.Finished?)
  }

  ghost predicate Owned(r: Request) {
    SubmitterKnows(r) && DoneRight(r) && Exclusive(r) && Counted(r)
  }

  lemma {:induction false} SubmitterOwned(r: Request, step: Step)
    requires Owned(r) && Enabled(r, step) && (step.QueueProc? || step.LockContext? || step.UnlockContext? || step.PollReturns?)
    ensures Owned(Apply(r, step))
  {}

  lemma {:induction false} StolenOwned(r: Request)
    requires Owned(r) && Enabled(r, PutStolen)
    ensures Owned(Apply(r, PutStolen))
  {}

  lemma {:induction false} SyncOwned(r: Request)
    requires Owned(r) && Enabled(r, PutSync)
    ensures Owned(Apply(r, PutSync))
  {}

  lemma {:induction false} ConcludeOwned(r: Request)
    requires Owned(r) && Enabled(r, Conclude)
    ensures Owned(Apply(r, Conclude))
  {}

  lemma {:induction false} DecideOwned(r: Request)
    requires Owned(r) && Enabled(r, Decide)
    ensures Owned(Apply(r, Decide))
  {}

  lemma {:induction false} WakeOwned(r: Request, step: Step)
    requires Owned(r) && Enabled(r, step) && step.Wake?
    ensures Owned(Apply(r, step))
  {}

  lemma {:induction false} InlineOwned(r: Request, step: Step)
    requires Owned(r) && Enabled(r, step) && (step.InlinePut? || step.Cancel?)
    ensures Owned(Apply(r, step))
  {}

  lemma {:induction false} WorkOwned(r: Request, step: Step)
    requires Owned(r) && Enabled(r, step) && (step.RunWork? || step.WorkDecides? || step.WorkPolls?)
    ensures Owned(Apply(r, step))
  {}

  lemma {:induction false} WorkPutOwned(r: Request, step: Step)
    requires Owned(r) && Enabled(r, step) && (step.PutWorkPuts? || step.WorkPuts?)
    ensures Owned(Apply(r, step))
  {}

  /** Every step hands the asynchronous reference on, keeps it, or drops it for good. */
  lemma {:induction false} StepOwned(r: Request, step: Step)
    requires Owned(r) && Enabled(r, step)
    ensures Owned(Apply(r, step))
  {
    match step
    case Decide => DecideOwned(r);
    case Wake(_, _, _) => WakeOwned(r, step);
    case InlinePut => InlineOwned(r, step);
    case Cancel => InlineOwned(r, step);
    case RunWork => WorkOwned(r, step);
    case PutWorkPuts => WorkPutOwned(r, step);
    case WorkPolls(_) => WorkOwned(r, step);
    case WorkDecides => WorkOwned(r, step);
    case WorkPuts => WorkPutOwned(r, step);
    case PutStolen => StolenOwned(r);
    case PutSync => SyncOwned(r);
    case Conclude => ConcludeOwned(r);
    case _ => SubmitterOwned(r, step);
  }

  // ----------------------------------------------------------- whole runs

  datatype History = Start | Then(before: History, step: Step)

  ghost predicate Leads(h: History, r: Request) {
    match h
    case Start => r == SUBMITTED
    case Then(before, step) => exists b :: Leads(before, b) && Enabled(b, step) && r == Apply(b, step)
  }

  lemma {:induction false} RunOwned(h: History, r: Request)
    requires Leads(h, r)
    ensures Owned(r)
  {
    if h.Then? {
      var b :| Leads(h.before, b) && Enabled(b, h.step) && r == Apply(b, h.step);
      RunOwned(h.before, b);
      StepOwned(b, h.step);
    }
  }

  /** The step schedules the work item. */
  predicate Schedules(r: Request, step: Step) {
    (step.Wake? && !(step.mask && step.gotLock && !step.busyEventfd)) || (step.Cancel? && r.queued)
  }

  /**
   In every reachable state at most one place holds the asynchronous reference,
   the work item was never scheduled while in use, the event was delivered and the
   request freed at most once, a failed submission delivered nothing, and a freed
   request can no longer be reached from anywhere.
   */
  lemma {:induction false} RunSafe(h: History, r: Request)
    requires Leads(h, r)
    ensures Owners(r) <= 1 && r.refs == One(SyncHeld(r)) + Owners(r) && r.completions <= 1 && r.frees <= 1
    ensures forall step :: Enabled(r, step) && Schedules(r, step) ==> r.work.NoWork?
    ensures r.sub == Finished(true) ==> r.completions == 0
    ensures r.frees == 1 ==> Owners(r) == 0 && !SyncHeld(r) && !r.active
    ensures r.completions == 1 ==> r.sub == Released(false) || r.sub == Finished(false)
    ensures r.frees == 1 && r.sub != Finished(true) ==> r.completions == 1
  {
    RunOwned(h, r);
  }

  /** Nobody has anything left to do with the request. */
  predicate Over(r: Request) {
    r.sub.Finished? && !r.queued && !r.waker && r.work.NoWork?
  }

  /** The step that the submitter takes next, or whoever else has the request once the submitter is through. */
  function NextStep(r: Request): (step: Step)
    requires !Over(r)
    ensures Enabled(r, step)
  {
    match r.sub
    case Polling(_) => PollReturns(false)
    case Polled(_, _) => LockContext
    case Locked(_, _) => Decide
    case Decided(_, _) => UnlockContext
    case Unlocked(_, _) => PutStolen
    case Returning(_) => PutSync
    case Released(_) => Conclude
    case Finished(_) =>
      if r.queued then Wake(false, false, false)
      else if r.waker then InlinePut
      else match r.work
           case Pending(_) => RunWork
           case Running(kind) => if kind.PutWork? then PutWorkPuts else WorkPolls(false)
           case Checked(_) => WorkDecides
           case Putting => WorkPuts
  }

  lemma {:induction false} OverFreed(r: Request)
    requires Owned(r)
    ensures Over(r) ==> r.frees == 1 && r.completions == One(!r.sub.failed)
    ensures r.frees == 1 ==> Over(r) || r.sub == Released(false)
  {}

  lemma {:induction false} OverStill(r: Request, step: Step)
    requires Owned(r) && Over(r)
    ensures !Enabled(r, step)
  {}

  /**
   A request is never left behind: until nobody has anything to do with it some step is
   possible, and then it is freed, its event delivered unless the submission failed.
   */
  lemma {:induction false} RunEnds(h: History, r: Request)
    requires Leads(h, r)
    ensures if Over(r) then r.frees == 1 && r.completions == One(!r.sub.failed) && forall step :: !Enabled(r, step)
            else (r.frees == 1 ==> r.sub == Released(false)) && exists step :: Enabled(r, step)
  {
    RunOwned(h, r);
    OverFreed(r);
    if Over(r) {
      forall step ensures !Enabled(r, step) { OverStill(r, step); }
    } else {
      assert Enabled(r, NextStep(r));
    }
  }

  // ---------------------------------------------------------------- progress

  function SubmitterLeft(s: Submitter): nat {
    match s
    case Polling(_) => 7
    case Polled(_, _) => 6
    case Locked(_, _) => 5
    case Decided(_, _) => 4
    case Unlocked(_, _) => 3
    case Returning(_) => 2
    case Released(_) => 1
    case Finished(_) => 0
  }

  function WorkLeft(w: Work): nat {
    match w
    case NoWork => 0
    case Pending(kind) => if kind.PutWork? then 2 else 4
    case Running(kind) => if kind.PutWork? then 1 else 3
    case Checked(_) => 2
    case Putting => 1
  }

  /** How much is left to be done with the request, if nothing polls in vain. */
  function Left(r: Request): nat {
    SubmitterLeft(r.sub) + WorkLeft(r.work) + (if r.queued then 5 else 0) + One(r.waker) + One(!r.cancelled)
  }

  /** The work item polls in vain and puts the request back on the wait queue. */
  predicate InVain(r: Request, step: Step) {
    step.WorkDecides? && r.work.Checked? && !r.work.mask && !r.cancelled
  }

  predicate BySubmitter(step: Step) {
    || step.PollReturns? || step.LockContext? || step.UnlockContext? || step.PutStolen? || step.PutSync? || step.Conclude?
  }

  lemma {:induction false} SubmitterKeeps(r: Request, step: Step)
    requires Owned(r) && Enabled(r, step) && BySubmitter(step)
    ensures var q := Apply(r, step);
            q.work == r.work && q.queued == r.queued && q.waker == r.waker && q.cancelled == r.cancelled
  {
    match step
    case PollReturns(_) =>
    case LockContext =>
    case UnlockContext =>
    case PutStolen =>
    case PutSync =>
    case Conclude =>
  }

  lemma {:induction false} SubmitterMoves(r: Request, step: Step)
    requires Owned(r) && Enabled(r, step) && BySubmitter(step)
    ensures SubmitterLeft(Apply(r, step).sub) < SubmitterLeft(r.sub)
  {
    match step
    case PollReturns(_) =>
    case LockContext =>
    case UnlockContext =>
    case PutStolen =>
    case PutSync =>
    case Conclude =>
  }

  lemma {:induction false} OtherAdvances(r: Request, step: Step)
    requires Exclusive(r) && DoneRight(r) && Enabled(r, step) && !BySubmitter(step)
    requires !step.QueueProc? && !step.Decide? && !InVain(r, step)
    ensures Left(Apply(r, step)) < Left(r)
  {}

  lemma {:induction false} DecideAdvances(r: Request)
    requires Owned(r) && Enabled(r, Decide)
    ensures Left(Apply(r, Decide)) < Left(r)
  {}

  /** Every step brings the request nearer to its end, but putting it on a wait queue and polling in vain. */
  lemma {:induction false} StepAdvances(h: History, r: Request, step: Step)
    requires Leads(h, r) && Enabled(r, step) && !step.QueueProc? && !InVain(r, step)
    ensures Left(Apply(r, step)) < Left(r)
  {
    RunOwned(h, r);
    if step.Decide? {
      DecideAdvances(r);
    } else if BySubmitter(step) {
      SubmitterKeeps(r, step);
      SubmitterMoves(r, step);
    } else {
      OtherAdvances(r, step);
    }
  }

  // --------------------------------------------------- why an event is delivered

  /** The step found the polled event and was in a position to say so. */
  predicate Finds(step: Step) {
    match step
    case PollReturns(mask) => mask
    case Wake(mask, gotLock, _) => mask && gotLock
    case WorkPolls(mask) => mask
    case _ => false
  }

  predicate Found(h: History) {
    h.Then? && (Finds(h.step) || Found(h.before))
  }

  predicate Cancelled(h: History) {
    h.Then? && (h.step.Cancel? || Cancelled(h.before))
  }

  /** On how many wait queues the file asked to be put. */
  function Queues(h: History): nat {
    match h
    case Start => 0
    case Then(before, step) => Queues(before) + One(step.QueueProc?)
  }

  /** What a history tells about why an event is delivered. */
  datatype Why = Why(found: bool, cancelled: bool, queues: nat)

  function Noted(w: Why, step: Step): Why {
    Why(w.found || Finds(step), w.cancelled || step.Cancel?, w.queues + One(step.QueueProc?))
  }

  /** The submitter's own finding is one of the history, and it fails unless there was one wait queue. */
  ghost predicate SubmitterEarned(w: Why, s: Submitter) {
    && (s.Polled? || s.Locked? || s.Decided? || s.Unlocked? ==> (s.mask ==> w.found))
    && (s.failed ==> w.queues != 1)
    && (s.Polling? || s.Polled? || s.Locked? ==> (w.queues != 1 ==> s.failed))
  }

  ghost predicate Earned(w: Why, r: Request) {
    && SubmitterEarned(w, r.sub) && (r.head <==> w.queues > 0)
    && (r.work.Checked? && r.work.mask ==> w.found)
    && (r.done ==> w.found || r.cancelled)
    && (!AsyncHeld(r) && r.sub != Finished(true) ==> w.found || r.cancelled)
    && (r.cancelled ==> w.cancelled || w.queues > 1) && (w.cancelled ==> r.cancelled)
  }

  lemma {:induction false} DecideEarned(w: Why, b: Request, step: Step)
    requires Owned(b) && Enabled(b, step) && Earned(w, b) && step.Decide?
    ensures Earned(Noted(w, step), Apply(b, step))
  {}

  lemma {:induction false} QueueEarned(w: Why, b: Request, step: Step)
    requires Owned(b) && Enabled(b, step) && Earned(w, b) && step.QueueProc?
    ensures Earned(Noted(w, step), Apply(b, step))
  {}

  lemma {:induction false} PollEarned(w: Why, b: Request, step: Step)
    requires Owned(b) && Enabled(b, step) && Earned(w, b) && (step.PollReturns? || step.LockContext? || step.UnlockContext?)
    ensures Earned(Noted(w, step), Apply(b, step))
  {}

  lemma {:induction false} StolenEarned(w: Why, b: Request, step: Step)
    requires Owned(b) && Enabled(b, step) && Earned(w, b) && step.PutStolen?
    ensures Earned(Noted(w, step), Apply(b, step))
  {}

  lemma {:induction false} SyncEarned(w: Why, b: Request, step: Step)
    requires Owned(b) && Enabled(b, step) && Earned(w, b) && step.PutSync?
    ensures Earned(Noted(w, step), Apply(b, step))
  {}

  lemma {:induction false} ConcludeEarned(w: Why, b: Request, step: Step)
    requires Owned(b) && Enabled(b, step) && Earned(w, b) && step.Conclude?
    ensures Earned(Noted(w, step), Apply(b, step))
  {
    var r := Apply(b, step);
    if b.sub.failed {
      assert r.sub == Finished(true);
    } else {
      assert AsyncHeld(r) == AsyncHeld(b);
    }
  }

  lemma {:induction false} WakeEarned(w: Why, b: Request, step: Step)
    requires Owned(b) && Enabled(b, step) && Earned(w, b) && step.Wake?
    ensures Earned(Noted(w, step), Apply(b, step))
  {}

  lemma {:induction false} CancelEarned(w: Why, b: Request, step: Step)
    requires Owned(b) && Enabled(b, step) && Earned(w, b) && step.Cancel?
    ensures Earned(Noted(w, step), Apply(b, step))
  {}

  lemma {:induction false} InlineEarned(w: Why, b: Request, step: Step)
    requires Owned(b) && Enabled(b, step) && Earned(w, b) && step.InlinePut?
    ensures Earned(Noted(w, step), Apply(b, step))
  {}

  lemma {:induction false} WorkPutEarned(w: Why, b: Request, step: Step)
    requires Owned(b) && Enabled(b, step) && Earned(w, b) && (step.PutWorkPuts? || step.WorkPuts?)
    ensures Earned(Noted(w, step), Apply(b, step))
  {}

  lemma {:induction false} WorkEarned(w: Why, b: Request, step: Step)
    requires Owned(b) && Enabled(b, step) && Earned(w, b) && (step.RunWork? || step.WorkPolls? || step.WorkDecides?)
    ensures Earned(Noted(w, step), Apply(b, step))
  {}

  lemma {:induction false} StepEarned(w: Why, b: Request, step: Step)
    requires Owned(b) && Enabled(b, step) && Earned(w, b)
    ensures Earned(Noted(w, step), Apply(b, step))
  {
    match step
    case QueueProc => QueueEarned(w, b, step);
    case Decide => DecideEarned(w, b, step);
    case PutStolen => StolenEarned(w, b, step);
    case PutSync => SyncEarned(w, b, step);
    case Conclude => ConcludeEarned(w, b, step);
    case Wake(_, _, _) => WakeEarned(w, b, step);
    case Cancel => CancelEarned(w, b, step);
    case InlinePut => InlineEarned(w, b, step);
    case PutWorkPuts => WorkPutEarned(w, b, step);
    case WorkPuts => WorkPutEarned(w, b, step);
    case RunWork => WorkEarned(w, b, step);
    case WorkPolls(_) => WorkEarned(w, b, step);
    case WorkDecides => WorkEarned(w, b, step);
    case _ => PollEarned(w, b, step);
  }

  function WhyOf(h: History): Why {
    Why(Found(h), Cancelled(h), Queues(h))
  }

  lemma {:induction false} HistoryEarned(h: History, r: Request)
    requires Leads(h, r)
    ensures Earned(WhyOf(h), r)
  {
    if h.Then? {
      var b :| Leads(h.before, b) && Enabled(b, h.step) && r == Apply(b, h.step);
      RunOwned(h.before, b);
      HistoryEarned(h.before, b);
      StepEarned(WhyOf(h.before), b, h.step);
    }
  }

  /**
   A request is done, or its event delivered, only if some poll or wake-up of its
   history found the event, or it was cancelled: by a canceller, or by its submitter
   because the file has more than one wait queue.  A submission fails only if the file
   has no wait queue or more than one.
   */
  lemma {:induction false} RunEarned(h: History, r: Request)
    requires Leads(h, r)
    ensures r.done || r.completions > 0 ==> Found(h) || Cancelled(h) || Queues(h) > 1
    ensures r.sub == Finished(true) ==> Queues(h) != 1
    ensures Cancelled(h) ==> r.cancelled && !r.queued && !r.active
  {
    RunOwned(h, r);
    HistoryEarned(h, r);
  }

  /**
   A work item that found nothing puts the request back on the wait queue, neither done
   nor delivered and still to be cancelled; one that found the event, or the request
   cancelled, makes it done.
   */
  lemma {:induction false} WorkConcludes(h: History, r: Request)
    requires Leads(h, r) && Enabled(r, WorkDecides)
    ensures var q := Apply(r, WorkDecides);
            && q.completions == 0 && q.sub == r.sub
            && (if r.work.mask || r.cancelled then q.done && !q.queued && !q.active && q.work == Putting
                else !q.done && q.queued && q.active == Settled(q) && q.work == NoWork)
  {
    RunOwned(h, r);
    StepOwned(r, WorkDecides);
  }

  /**
   A waker that finds the event and gets the lock makes the request done, and leaves
   dropping it to a work item exactly if it may not signal; otherwise the work item
   polls again.
   */
  lemma {:induction false} WakeConcludes(h: History, r: Request, step: Step)
    requires Leads(h, r) && step.Wake? && Enabled(r, step)
    ensures var q := Apply(r, step);
            && !q.queued && q.completions == 0 && q.done == Finds(step) && q.waker == (Finds(step) && !step.busyEventfd)
            && (!q.waker ==> q.work == Pending(if Finds(step) then PutWork else CompleteWork))
  {
    RunOwned(h, r);
    StepOwned(r, step);
  }

  /**
   What the submitter decides.  With no wait queue it has the result or fails.  If the
   request still waits, it takes it back with the event or the failure, and otherwise
   lets it wait.  If somebody else has it, it is theirs, and is cancelled exactly if the
   file asked for a second queue.
   */
  lemma {:induction false} DecideConcludes(h: History, r: Request)
    requires Leads(h, r) && Enabled(r, Decide)
    ensures var q, failed := Apply(r, Decide), Queues(h) != 1;
            if Queues(h) == 0 then q == r.(sub := Decided(r.sub.mask, !r.sub.mask)) && q.own
            else if r.queued && (r.sub.mask || failed) then
              q == r.(sub := Decided(r.sub.mask, !r.sub.mask), queued := false, own := true)
            else if r.queued then q == r.(sub := Decided(false, false), active := true) && !q.own
            else q == r.(sub := Decided(false, false), cancelled := failed, active := !failed && !r.done) && !q.own
  {
    RunOwned(h, r);
    HistoryEarned(h, r);
  }
}
