/**
 The timer of a neighbour entry over whole histories.  Two things can go wrong with
 it.  A handler that waited for the lock may find the timer armed anew, and leave it
 armed in a state that does not know of it; a timer added then is added twice.  And an
 update can put an entry into a state that waits for a timer without arming one.
 Both are characterised exactly, step by step and over every history.
 */
module NeighTimers {
  import opened Common
  import opened NeighEntry
  import opened NeighRuns

  // -------------------------------------------------- timers that come loose

  /** The handler will give the entry up or let it go stale. */
  predicate Quits(e: Entry, now: int) {
    match e.state
    case Reachable => now > e.confirmed + e.parms.reachable && now > e.used + e.parms.delay
    case Delay => now > e.confirmed + e.parms.delay && MaxProbes(e.parms, Probe) == 0
    case Incomplete => e.probes >= MaxProbes(e.parms, Incomplete)
    case Probe => e.probes >= MaxProbes(e.parms, Probe)
    case _ => false
  }

  /** A handler that quits although the timer has been armed anew since it expired. */
  predicate Loosens(e: Entry, s: Step) {
    s.Handle? && e.refs.pending && Quits(e, s.now)
  }

  /** The step arms the timer of the live entry. */
  predicate Arms(e: Entry, s: Step) {
    e.use.linked &&
    match s
    case DoSend(_) => e.state.Stale? || ((e.state.NoneYet? || e.state.Failed?) && e.parms.mcast + e.parms.app > 0)
    case DoProbeOnce => e.state.Failed?
    case DoUpdate(lladdr, goal, flags, _) => AnswerTo(e, lladdr, goal, flags).Success? && Usable(goal) && Rearms(e, lladdr, goal, flags)
    case _ => false
  }

  /** A successful update to the incomplete state, with no handler on its way. */
  predicate Strands(e: Entry, s: Step) {
    s.DoUpdate? && s.state.Incomplete? && AnswerTo(e, s.lladdr, s.state, s.flags).Success? && !e.refs.firing && !Loose(e)
  }

  lemma {:induction false} QuitsIs(e: Entry, now: int)
    requires InTimer(e.state)
    ensures InTimer(Handled(e, now).state) <==> !Quits(e, now)
  {}

  /** What becomes of the timer by step `s`. */
  ghost predicate TimerRight(e: Entry, s: Step, r: Entry) {
    && r.refs.firing == e.refs.firing && (!Loose(e) ==> !Loose(r))
    && (r.refs.bugs != e.refs.bugs <==> Loose(e) && Arms(e, s))
    && (Attended(e) ==> (Attended(r) <==> !Strands(e, s)))
  }

  lemma {:induction false} AmendedTimer(e: Entry, s: Step)
    requires Sound(e) && e.use.linked && s.DoUpdate? && Usable(s.state) && (s.flags.admin || !(e.state.NoArp? || e.state.Permanent?))
    ensures TimerRight(e, s, Amended(e, s.lladdr, s.state, s.flags, s.now))
  {
    AmendedSound(e, s.lladdr, s.state, s.flags, s.now);
  }

  lemma {:induction false} InvalidatedTimer(e: Entry, s: Step)
    requires Sound(e) && e.use.linked && s.DoUpdate? && !Usable(s.state) && (s.flags.admin || !(e.state.NoArp? || e.state.Permanent?))
    ensures TimerRight(e, s, Invalidated(e, s.state))
  {
    InvalidatedSound(e, s.state);
  }

  lemma {:induction false} UpdateTimer(e: Entry, s: Step)
    requires Sound(e) && s.DoUpdate? && Enabled(e, s)
    ensures TimerRight(e, s, Apply(e, s))
  {
    if e.use.linked && (s.flags.admin || !(e.state.NoArp? || e.state.Permanent?)) {
      if Usable(s.state) { AmendedTimer(e, s); } else { InvalidatedTimer(e, s); }
    }
  }

  /** A timer comes loose by such a handler and by nothing else. */
  lemma {:induction false} LooseStep(e: Entry, s: Step)
    requires Sound(e) && Enabled(e, s) && !Loose(e)
    ensures Loose(Apply(e, s)) <==> Loosens(e, s)
  {
    match s
    case Handle(now) =>
      HandleSound(e, now);
      if InTimer(e.state) { QuitsIs(e, now); }
    case DoSend(now) => SendSound(e, now);
    case DoUpdate(_, _, _, _) => UpdateTimer(e, s);
    case DoFlush => FlushSound(e);
    case _ =>
  }

  /** A step reports a bug exactly if it arms the timer of an entry whose timer is loose. */
  lemma {:induction false} ReportStep(e: Entry, s: Step)
    requires Sound(e) && Enabled(e, s)
    ensures Apply(e, s).refs.bugs != e.refs.bugs <==> Loose(e) && Arms(e, s)
  {
    match s
    case Handle(now) => HandleSound(e, now);
    case DoSend(now) => ReportSend(e, now);
    case DoProbeOnce => if e.use.linked { LiveSound(e); AddTimerLive(e.refs, e.use); }
    case DoUpdate(_, _, _, _) => UpdateTimer(e, s);
    case DoFlush => FlushSound(e);
    case Confirm(_) =>
    case _ => LifeSound(e, s);
  }

  lemma {:induction false} ReportSend(e: Entry, now: int)
    requires Sound(e) && !e.use.isNew
    ensures Send(e, now).refs.bugs != e.refs.bugs <==> Loose(e) && Arms(e, DoSend(now))
  {
    if e.use.linked {
      LiveSound(e);
      DelTimerLive(e.refs, e.use, e.state);
      AddTimerLive(DelTimer(e.refs, e.state), e.use);
    }
  }

  /** No handler of the history quit with its timer armed anew. */
  ghost predicate NeverLoosened(h: History) {
    h.Then? ==> NeverLoosened(h.before) && forall b :: Leads(h.before, b) && Enabled(b, h.step) ==> !Loosens(b, h.step)
  }

  /** In no state of the history was the timer loose. */
  ghost predicate NeverLoose(h: History) {
    && (forall e :: Leads(h, e) ==> !Loose(e))
    && (h.Then? ==> NeverLoose(h.before))
  }

  /** Timers belong to states that use them throughout a history exactly if no such handler ran in it. */
  lemma {:induction false} LooseExactly(h: History)
    ensures NeverLoose(h) <==> NeverLoosened(h)
  {
    match h
    case Start(dev, kind, parms, now) => ConstructIs(dev, kind, parms, now);
    case Then(before, step) =>
      LooseExactly(before);
      if NeverLoose(before) {
        forall b | Leads(before, b) && Enabled(b, step) ensures Loose(Apply(b, step)) <==> Loosens(b, step) {
          RunSound(before, b);
          LooseStep(b, step);
        }
        NeverLooseThen(before, step);
      }
  }

  lemma {:induction false} NeverLooseThen(h: History, step: Step)
    requires NeverLoose(h) && NeverLoosened(h)
    requires forall b :: Leads(h, b) && Enabled(b, step) ==> (Loose(Apply(b, step)) <==> Loosens(b, step))
    ensures NeverLoose(Then(h, step)) <==> NeverLoosened(Then(h, step))
  {
    if NeverLoose(Then(h, step)) {
      forall b | Leads(h, b) && Enabled(b, step) ensures !Loosens(b, step) {
        assert Leads(Then(h, step), Apply(b, step));
      }
    }
    if NeverLoosened(Then(h, step)) {
      forall e | Leads(Then(h, step), e) ensures !Loose(e) {
        var b :| Leads(h, b) && Enabled(b, step) && e == Apply(b, step);
      }
    }
  }

  /** Then nothing is ever reported, and all references are accounted for. */
  lemma {:induction false} NothingReported(h: History, e: Entry)
    requires Leads(h, e) && NeverLoosened(h)
    ensures e.refs.bugs == [] && (e.refs.pending ==> InTimer(e.state) && e.use.linked)
    ensures e.refs.refcnt == One(e.use.linked) + One(e.refs.pending) + One(e.refs.firing) + e.use.holders
  {
    RunSound(h, e);
    LooseExactly(h);
    match h
    case Start(dev, kind, parms, now) => ConstructIs(dev, kind, parms, now);
    case Then(before, step) =>
      var b :| Leads(before, b) && Enabled(b, step) && e == Apply(b, step);
      NothingReported(before, b);
      RunSound(before, b);
      LooseExactly(before);
      ReportStep(b, step);
  }

  // ------------------------------------------------------- a single processor

  /** Every expiry is directly followed by its handler, as it is where nothing runs beside them. */
  predicate AtOnce(h: History) {
    h.Then? ==> AtOnce(h.before) && (h.before.Then? && h.before.step.Expire? ==> h.step.Handle?)
  }

  lemma {:induction false} AtOnceIdle(h: History, e: Entry)
    requires Leads(h, e) && AtOnce(h)
    ensures e.refs.firing ==> h.Then? && h.step.Expire? && !e.refs.pending
  {
    match h
    case Start(dev, kind, parms, now) => ConstructIs(dev, kind, parms, now);
    case Then(before, step) =>
      var b :| Leads(before, b) && Enabled(b, step) && e == Apply(b, step);
      AtOnceIdle(before, b);
      RunSound(before, b);
      FiringStep(b, step);
  }

  lemma {:induction false} FiringStep(e: Entry, s: Step)
    requires Sound(e) && Enabled(e, s) && (e.refs.firing ==> s.Handle?)
    ensures Apply(e, s).refs.firing ==> s.Expire?
  {
    match s
    case Handle(now) => HandleSound(e, now);
    case DoUpdate(_, _, _, _) => UpdateTimer(e, s);
    case _ =>
  }

  /** On a single processor no timer comes loose and nothing is reported. */
  lemma {:induction false} AtOnceSafe(h: History)
    requires AtOnce(h)
    ensures NeverLoosened(h)
  {
    if h.Then? {
      AtOnceSafe(h.before);
      forall b | Leads(h.before, b) && Enabled(b, h.step) ensures !Loosens(b, h.step) { AtOnceIdle(h.before, b); }
    }
  }

  // -------------------------------------------------- entries left unattended

  /** A live entry stops being attended to by such an update and by nothing else. */
  lemma {:induction false} AttendedStep(e: Entry, s: Step)
    requires Sound(e) && Enabled(e, s) && Attended(e)
    ensures Attended(Apply(e, s)) <==> !Strands(e, s)
  {
    match s
    case Handle(now) => HandleSound(e, now);
    case DoSend(now) => SendSound(e, now);
    case DoProbeOnce => ProbeOnceSound(e);
    case DoUpdate(_, _, _, _) => UpdateTimer(e, s);
    case DoFlush => FlushSound(e);
    case Confirm(_) =>
    case _ => LifeSound(e, s);
  }

  ghost predicate NeverStranded(h: History) {
    h.Then? ==> NeverStranded(h.before) && forall b :: Leads(h.before, b) && Enabled(b, h.step) ==> !Strands(b, h.step)
  }

  ghost predicate AlwaysAttended(h: History) {
    && (forall e :: Leads(h, e) ==> Attended(e))
    && (h.Then? ==> AlwaysAttended(h.before))
  }

  /** A live entry is attended to throughout a history exactly if the history has no such update. */
  lemma {:induction false} AttendedExactly(h: History)
    ensures AlwaysAttended(h) <==> NeverStranded(h)
  {
    match h
    case Start(dev, kind, parms, now) => ConstructIs(dev, kind, parms, now);
    case Then(before, step) =>
      AttendedExactly(before);
      if AlwaysAttended(before) {
        forall b | Leads(before, b) && Enabled(b, step) ensures Attended(Apply(b, step)) <==> !Strands(b, step) {
          RunSound(before, b);
          AttendedStep(b, step);
        }
        AlwaysAttendedThen(before, step);
      }
  }

  lemma {:induction false} AlwaysAttendedThen(h: History, step: Step)
    requires AlwaysAttended(h) && NeverStranded(h)
    requires forall b :: Leads(h, b) && Enabled(b, step) ==> (Attended(Apply(b, step)) <==> !Strands(b, step))
    ensures AlwaysAttended(Then(h, step)) <==> NeverStranded(Then(h, step))
  {
    if AlwaysAttended(Then(h, step)) {
      forall b | Leads(h, b) && Enabled(b, step) ensures !Strands(b, step) {
        assert Leads(Then(h, step), Apply(b, step));
      }
    }
    if NeverStranded(Then(h, step)) {
      forall e | Leads(Then(h, step), e) ensures Attended(e) {
        var b :| Leads(h, b) && Enabled(b, step) && e == Apply(b, step);
      }
    }
  }

  /** A live entry that waits for a timer nobody has armed. */
  predicate Stranded(e: Entry) {
    e.use.linked && e.state.Incomplete? && !e.refs.pending && !e.refs.firing
  }

  /** It waits for good: whatever packets are sent, nothing is asked and no timer is armed. */
  lemma {:induction false} StrandedStays(e: Entry, qs: seq<Step>)
    requires Sound(e) && Stranded(e) && Possible(e, qs)
    ensures After(e, qs) == e.(used := After(e, qs).used, confirmed := After(e, qs).confirmed)
    decreases |qs|
  {
    if qs != [] { StrandedStays(Apply(e, qs[0]), qs[1..]); }
  }

  // --------------------------------------------------------------- examples

  lemma {:induction false} OneMore(h: History, b: Entry, s: Step, e: Entry)
    requires Leads(h, b) && Enabled(b, s) && e == Apply(b, s)
    ensures Leads(Then(h, s), e) && Sound(e)
  {
    RunSound(Then(h, s), e);
  }

  const ADMIN := Flags(true, true, false)

  /** An entry on a broadcast network, linked and held by its creator, with nothing asked yet. */
  ghost predicate Beginning(e: Entry) {
    && e.use == Use(false, true, 1) && e.state.NoneYet? && !e.refs.pending && !e.refs.firing && e.refs.bugs == []
    && e.asked == [] && e.parms.app + e.parms.mcast == 1
  }

  lemma {:induction false} Begins() returns (h: History, e: Entry)
    ensures Leads(h, e) && Sound(e) && Beginning(e)
  {
    var dev, parms := Device(false, false, false, 1, 2, true), Params(0, 0, 1, 0, 1, 1, 1);
    var n := Construct(dev, UnicastAddr, parms, 0);
    h := Start(dev, UnicastAddr, parms, 0);
    ConstructIs(dev, UnicastAddr, parms, 0);
    e := Link(n, true);
    OneMore(h, n, DoLink(true), e);
    h := Then(h, DoLink(true));
  }

  /** An administrative update strands a new entry. */
  lemma {:induction false} EntryStranded()
    ensures exists h, e :: Leads(h, e) && Stranded(e) && e.asked == [] && forall now :: Send(e, now) == e.(used := now)
  {
    var h, b := Begins();
    var s := DoUpdate(None, Incomplete, ADMIN, 0);
    var e := Apply(b, s);
    InvalidatedSound(b, Incomplete);
    OneMore(h, b, s, e);
  }

  /** The timer of an entry being resolved expires, and the entry is failed before the handler has the lock. */
  lemma {:induction false} FailedFiring(h0: History, b: Entry) returns (h: History, e: Entry)
    requires Leads(h0, b) && Sound(b) && Beginning(b)
    ensures Leads(h, e) && Sound(e) && e.use == b.use && e.state.Failed? && !e.refs.pending && e.refs.firing && e.parms == b.parms
  {
    var e1 := Send(b, 0);
    OneMore(h0, b, DoSend(0), e1);
    var e2 := Expired(e1);
    OneMore(Then(h0, DoSend(0)), e1, Expire, e2);
    InvalidatedSound(e2, Failed);
    e := Invalidated(e2, Failed);
    h := Then(Then(Then(h0, DoSend(0)), Expire), DoUpdate(None, Failed, ADMIN, 0));
    OneMore(h.before, e2, h.step, e);
  }

  /** It is resolved again meanwhile, and its timer armed anew. */
  lemma {:induction false} ArmedAnew(h0: History, b: Entry) returns (h: History, e: Entry)
    requires Leads(h0, b) && Sound(b) && b.use.linked && !b.use.isNew && b.state.Failed? && b.parms.app + b.parms.mcast == 1
    requires !b.refs.pending && b.refs.firing
    ensures Leads(h, e) && Sound(e) && e.use.linked && e.state.Incomplete? && e.refs.pending && e.refs.firing
    ensures e.probes == MaxProbes(e.parms, Incomplete) && e.parms == b.parms
  {
    h, e := Then(h0, DoSend(0)), Send(b, 0);
    OneMore(h0, b, DoSend(0), e);
  }

  /** The handler then gives the entry up, and the next packet adds the timer a second time. */
  lemma {:induction false} TimerAddedTwice()
    ensures exists h, e: Entry :: Leads(h, e) && e.refs.bugs != []
  {
    var h, b := Begins();
    h, b := FailedFiring(h, b);
    h, b := ArmedAnew(h, b);
    var e := Handled(b, 0);
    HandleSound(b, 0);
    QuitsIs(b, 0);
    OneMore(h, b, Handle(0), e);
    ReportStep(e, DoSend(0));
    OneMore(Then(h, Handle(0)), e, DoSend(0), Send(e, 0));
  }
}
