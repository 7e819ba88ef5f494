/**
 What holds over whole histories of a neighbour entry: references, the fast path,
 entries that must not change by themselves, and the exact number and kind of
 solicitations before an entry is given up.
 */
module NeighRuns {
  import opened Common
  import opened NeighEntry

  datatype History = Start(dev: Device, kind: AddrType, parms: Params, now: int) | Then(before: History, step: Step)

  /** The entry a history leads to, if each of its steps was possible. */
  ghost predicate Leads(h: History, e: Entry) {
    match h
    case Start(dev, kind, parms, now) => e == Construct(dev, kind, parms, now)
    case Then(before, step) => exists b :: Leads(before, b) && Enabled(b, step) && e == Apply(b, step)
  }

  lemma {:induction false} RunSound(h: History, e: Entry)
    requires Leads(h, e)
    ensures Sound(e)
  {
    match h
    case Start(dev, kind, parms, now) => ConstructSound(dev, kind, parms, now);
    case Then(before, step) =>
      var b :| Leads(before, b) && Enabled(b, step) && e == Apply(b, step);
      RunSound(before, b);
      StepSound(b, step);
  }

  /**
   In every reachable state the references are exactly the table's link, the armed
   timer, the waiting handler, the holders, and one lost for every report; nothing but
   a timer added twice is ever reported; and an entry is destroyed exactly when no
   reference is left, which is never while it is linked.
   */
  lemma {:induction false} RunCounted(h: History, e: Entry)
    requires Leads(h, e)
    ensures e.refs.refcnt == One(e.use.linked) + One(e.refs.pending) + One(e.refs.firing) + e.use.holders + |e.refs.bugs|
    ensures e.use.holders >= 0 && forall b :: b in e.refs.bugs ==> b == DoubleTimerAdd
    ensures (e.refs.destroyed <==> e.refs.refcnt == 0) && (e.refs.destroyed ==> !e.use.linked)
  {
    RunSound(h, e);
  }

  /** Collecting an entry with one reference never takes one with a timer, a handler or a user. */
  lemma {:induction false} CollectSafe(h: History, e: Entry)
    requires Leads(h, e) && e.use.linked
    ensures var r := Apply(e, DoCollect);
            if e.refs.pending || e.refs.firing || e.use.holders > 0 || e.refs.bugs != [] then r == e
            else r.refs.destroyed && !r.use.linked && r.refs.bugs == []
  {
    RunSound(h, e);
    LiveSound(e);
    CollectLive(e);
  }

  lemma {:induction false} CollectLive(e: Entry)
    requires Live(e.refs, e.use, 0)
    ensures if e.refs.pending || e.refs.firing || e.use.holders > 0 || e.refs.bugs != [] then Collect(e) == e
            else Collect(e).refs.destroyed && !Collect(e).use.linked && Collect(e).refs.bugs == []
  {
    if e.refs.refcnt == 1 { assert |e.refs.bugs| == 0; }
  }

  /** The fast path is in use exactly in the connected states. */
  lemma {:induction false} FastPathRight(h: History, e: Entry)
    requires Leads(h, e) && e.use.linked
    ensures e.output == OutputFor(e.ops, e.state)
    ensures match e.ops
            case DirectOps => e.output == Direct
            case HhOps => e.output == Resolve
            case GenericOps => e.output == if Connected(e.state) then Fast else Resolve
  {
    RunSound(h, e);
  }

  // ------------------------------------------------- what the flags promise

  /** An address is proposed that is not the cached one. */
  predicate Differs(e: Entry, lladdr: Option<int>) {
    e.needsAddr && lladdr.Some? && lladdr.value != e.ha
  }

  lemma {:induction false} SettledIs(e: Entry, same: bool, ha: int, s: Nud, now: int)
    ensures Settled(e, same, ha, s, now).ha == (if same then e.ha else ha) && Settled(e, same, ha, s, now).state == s
  {}

  lemma {:induction false} AmendedIs(e: Entry, lladdr: Option<int>, goal: Nud, flags: Flags, now: int)
    ensures var u := Amended(e, lladdr, goal, flags, now);
            match PlanFor(e, lladdr, goal, flags)
            case Ignore => u.ha == e.ha && u.state == e.state
            case Settle(same, ha, s) => u.ha == (if same then e.ha else ha) && u.state == s
  {
    match PlanFor(e, lladdr, goal, flags)
    case Ignore =>
    case Settle(same, ha, s) =>
      SettledIs(e.(confirmed := ConfirmedBy(e, lladdr, goal, now)), same, ha, s, now);
  }

  lemma {:induction false} PlanAddress(e: Entry, lladdr: Option<int>, goal: Nud, flags: Flags)
    ensures match PlanFor(e, lladdr, goal, flags)
            case Ignore => !(Differs(e, lladdr) && (Usable(e.state) ==> flags.override))
            case Settle(same, ha, _) => !same && ha != e.ha <==> Differs(e, lladdr) && lladdr.value == ha && (Usable(e.state) ==> flags.override)
  {}

  /** An address is replaced by a proposed one exactly if the update is accepted and overrides it or finds none cached. */
  lemma {:induction false} UpdateAddress(e: Entry, lladdr: Option<int>, goal: Nud, flags: Flags, now: int)
    ensures Update(e, lladdr, goal, flags, now).ha ==
            if Differs(e, lladdr) && Usable(goal) && AnswerTo(e, lladdr, goal, flags).Success? && (Usable(e.state) ==> flags.override)
            then lladdr.value else e.ha
  {
    AmendedIs(e, lladdr, goal, flags, now);
    PlanAddress(e, lladdr, goal, flags);
  }

  /** A refused update changes nothing, and one that would only make a known address stale changes no state. */
  lemma {:induction false} UpdateState(e: Entry, lladdr: Option<int>, goal: Nud, flags: Flags, now: int)
    ensures var u := Update(e, lladdr, goal, flags, now);
            if !AnswerTo(e, lladdr, goal, flags).Success? then u == e
            else if Usable(goal) && Usable(e.state) && Differs(e, lladdr) && !flags.override then
              u.state == if flags.weakOverride && Connected(e.state) then Stale else e.state
            else if goal.Stale? && Usable(e.state) && !Differs(e, lladdr) && !flags.admin then u.state == e.state
            else u.state == goal
  {
    AmendedIs(e, lladdr, goal, flags, now);
  }

  /** The update gives the entry an address, be it the one it had when it was last usable. */
  predicate Supplies(e: Entry, lladdr: Option<int>, flags: Flags) {
    e.needsAddr && lladdr.Some? && (Usable(e.state) ==> lladdr.value != e.ha && flags.override)
  }

  /**
   When an entry counts as confirmed after an update: an address in a state that is not
   connected as long ago as is no use, an update to a connected state now, and any other
   as before.  Probing starts from zero.
   */
  lemma {:induction false} UpdateConfirms(e: Entry, lladdr: Option<int>, goal: Nud, flags: Flags, now: int)
    ensures var u := Update(e, lladdr, goal, flags, now);
            && u.used == e.used
            && (if u.state.Probe? && !e.state.Probe? then u.probes == 0 && u.asked == [] else u.probes == e.probes && u.asked == e.asked)
            && u.confirmed == if !AnswerTo(e, lladdr, goal, flags).Success? || !Usable(goal) then e.confirmed
                              else if Supplies(e, lladdr, flags) && !Connected(goal) then now - 2 * e.parms.base
                              else if Connected(goal) then now else e.confirmed
  {
    if !e.refs.dead && Usable(goal) && (flags.admin || !Pinned(e.state)) { AmendedConfirms(e, lladdr, goal, flags, now); }
  }

  lemma {:induction false} AmendedConfirms(e: Entry, lladdr: Option<int>, goal: Nud, flags: Flags, now: int)
    requires Usable(goal)
    ensures var u := Amended(e, lladdr, goal, flags, now);
            && u.used == e.used
            && (if u.state.Probe? && !e.state.Probe? then u.probes == 0 && u.asked == [] else u.probes == e.probes && u.asked == e.asked)
            && u.confirmed == if Supplies(e, lladdr, flags) && !Connected(goal) then now - 2 * e.parms.base
                              else ConfirmedBy(e, lladdr, goal, now)
  {
    var e1 := e.(confirmed := ConfirmedBy(e, lladdr, goal, now));
    match PlanFor(e, lladdr, goal, flags)
    case Ignore =>
    case Settle(same, ha, s) => SettledConfirms(e1, same, ha, s, now);
  }

  lemma {:induction false} SettledConfirms(e: Entry, same: bool, ha: int, s: Nud, now: int)
    ensures var u := Settled(e, same, ha, s, now);
            && u.used == e.used && u.state == s
            && u.confirmed == (if same || Connected(s) then e.confirmed else now - 2 * e.parms.base)
            && (if s.Probe? && !e.state.Probe? then u.probes == 0 && u.asked == [] else u.probes == e.probes && u.asked == e.asked)
  {}

  // ---------------------------------------------------------- pinned entries

  predicate Pinned(s: Nud) {
    s.Permanent? || s.NoArp?
  }

  /** Anything but an administrative change, a flush or the creation itself. */
  predicate Ordinary(s: Step) {
    match s
    case DoUpdate(_, _, flags, _) => !flags.admin
    case DoFlush => false
    case DoLink(_) => false
    case _ => true
  }

  lemma {:induction false} OrdinaryKeeps(e: Entry, s: Step)
    requires Sound(e) && Enabled(e, s) && Ordinary(s) && Pinned(e.state)
    ensures Apply(e, s).state == e.state && Apply(e, s).ha == e.ha
  {}

  /** `h` continues `from`, which ended in `e0`, by ordinary steps only. */
  ghost predicate Continues(h: History, from: History) {
    h == from || (h.Then? && Ordinary(h.step) && Continues(h.before, from))
  }

  /** The way from one reachable entry to another is determined by the steps. */
  lemma {:induction false} LeadsOnce(h: History, a: Entry, b: Entry)
    requires Leads(h, a) && Leads(h, b)
    ensures a == b
  {
    if h.Then? {
      var x :| Leads(h.before, x) && Enabled(x, h.step) && a == Apply(x, h.step);
      var y :| Leads(h.before, y) && Enabled(y, h.step) && b == Apply(y, h.step);
      LeadsOnce(h.before, x, y);
    }
  }

  /** A permanent or NOARP entry keeps its state and link address. */
  lemma {:induction false} PinnedStays(from: History, e0: Entry, h: History, e: Entry)
    requires Leads(from, e0) && Pinned(e0.state) && Continues(h, from) && Leads(h, e)
    ensures e.state == e0.state && e.ha == e0.ha
  {
    if h == from {
      LeadsOnce(h, e, e0);
    } else {
      var b :| Leads(h.before, b) && Enabled(b, h.step) && e == Apply(b, h.step);
      PinnedStays(from, e0, h.before, b);
      RunSound(h.before, b);
      OrdinaryKeeps(b, h.step);
    }
  }

  // ------------------------------------------------------------ probe budget

  function Repeat(k: Ask, n: nat): (r: seq<Ask>)
    ensures |r| == n && forall i :: 0 <= i < n ==> r[i] == k
  {
    seq(n, _ => k)
  }

  /** The kinds of the probes numbered from `lo` up to, not including, `hi`. */
  function Asks(p: Params, lo: int, hi: int): (r: seq<Ask>)
    requires lo <= hi
    ensures |r| == hi - lo && forall i :: 0 <= i < |r| ==> r[i] == AskKind(p, lo + i)
  {
    seq(hi - lo, i requires 0 <= i < hi - lo => AskKind(p, lo + i))
  }

  lemma {:induction false} AsksNext(p: Params, lo: int, hi: int)
    requires lo <= hi
    ensures Asks(p, lo, hi) + [AskKind(p, hi)] == Asks(p, lo, hi + 1)
  {}

  /** First by the daemon, then by broadcast. */
  lemma {:induction false} ResolveOrder(p: Params)
    ensures Asks(p, p.ucast, p.ucast + p.app + p.mcast) == Repeat(App, p.app) + Repeat(Broadcast, p.mcast)
  {}

  /** First by unicast, then by the daemon, then by broadcast. */
  lemma {:induction false} VerifyOrder(p: Params)
    ensures Asks(p, 0, p.ucast + p.app + p.reprobes) == Repeat(Unicast, p.ucast) + Repeat(App, p.app) + Repeat(Broadcast, p.reprobes)
  {}

  /** Being resolved, `n` solicitations into it, and the timer or its handler to come. */
  ghost predicate Resolving(e: Entry, n: int) {
    && Sound(e) && e.use.linked && e.state.Incomplete? && 1 <= n <= e.parms.app + e.parms.mcast && (e.refs.pending || e.refs.firing)
    && e.probes == e.parms.ucast + n && e.asked == Sent(e.ops, Asks(e.parms, e.parms.ucast, e.parms.ucast + n))
  }

  /** Being verified, `n` solicitations into it, and the timer or its handler to come. */
  ghost predicate Verifying(e: Entry, n: int) {
    && Sound(e) && e.use.linked && e.state.Probe? && 0 <= n <= MaxProbes(e.parms, Probe) && (e.refs.pending || e.refs.firing)
    && e.probes == n && e.asked == Sent(e.ops, Asks(e.parms, 0, n))
  }

  /** The first packet for an unresolved entry starts resolution with an immediate solicitation. */
  lemma {:induction false} SendResolves(e: Entry, now: int)
    requires Sound(e) && e.use.linked && (e.state.NoneYet? || e.state.Failed?) && e.parms.app + e.parms.mcast > 0
    ensures Resolving(Send(e, now), 1)
  {
    SendSound(e, now);
  }

  /** With nothing to solicit with, the first packet fails the entry at once. */
  lemma {:induction false} SendGivesUp(e: Entry, now: int)
    requires Sound(e) && e.use.linked && (e.state.NoneYet? || e.state.Failed?) && e.parms.app + e.parms.mcast == 0
    ensures Send(e, now).state.Failed? && Send(e, now).asked == e.asked && Send(e, now).refs == e.refs
  {}

  lemma {:induction false} ResolveTick(e: Entry, n: int, now: int)
    requires Resolving(e, n) && e.refs.firing
    ensures if n < e.parms.app + e.parms.mcast then Resolving(Handled(e, now), n + 1)
            else Handled(e, now).state.Failed? && Handled(e, now).asked == e.asked
    ensures Handled(e, now).parms == e.parms && Handled(e, now).ops == e.ops
  {
    HandleSound(e, now);
    AsksNext(e.parms, e.parms.ucast, e.parms.ucast + n);
  }

  lemma {:induction false} VerifyTick(e: Entry, n: int, now: int)
    requires Verifying(e, n) && e.refs.firing
    ensures if n < MaxProbes(e.parms, Probe) then Verifying(Handled(e, now), n + 1)
            else Handled(e, now).state.Failed? && Handled(e, now).asked == e.asked
    ensures Handled(e, now).parms == e.parms && Handled(e, now).ops == e.ops
  {
    HandleSound(e, now);
    AsksNext(e.parms, 0, n);
  }

  /** A delay that runs out unconfirmed starts verification. */
  lemma {:induction false} DelayVerifies(e: Entry, now: int)
    requires Sound(e) && e.use.linked && e.refs.firing && e.state.Delay? && now > e.confirmed + e.parms.delay
    ensures if MaxProbes(e.parms, Probe) == 0 then Handled(e, now).state.Failed? && Handled(e, now).asked == []
            else Verifying(Handled(e, now), 1)
  {
    HandleSound(e, now);
  }

  /** So does an update that asks for it. */
  lemma {:induction false} UpdateVerifies(e: Entry, lladdr: Option<int>, flags: Flags, now: int)
    requires Sound(e) && e.use.linked && e.use.holders > 0 && !e.state.Probe?
    requires Update(e, lladdr, Probe, flags, now).state.Probe?
    ensures Verifying(Update(e, lladdr, Probe, flags, now), 0)
  {
    UpdateSound(e, lladdr, Probe, flags, now);
    assert Asks(e.parms, 0, 0) == [];
    var plan := PlanFor(e, lladdr, Probe, flags);
    if plan.Settle? {
      SettledSound(e.(confirmed := ConfirmedBy(e, lladdr, Probe, now)), plan.same, plan.ha, plan.state, now);
    }
  }

  /** Time passing, packets being sent and old news from upper layers, with nothing from the neighbour. */
  predicate Quiet(s: Step) {
    s.Expire? || s.Handle? || s.DoSend? || s.Confirm?
  }

  ghost predicate Possible(e: Entry, qs: seq<Step>)
    decreases |qs|
  {
    qs != [] ==> Quiet(qs[0]) && Enabled(e, qs[0]) && Possible(Apply(e, qs[0]), qs[1..])
  }

  ghost function After(e: Entry, qs: seq<Step>): Entry
    decreases |qs|
  {
    if qs == [] then e else After(Apply(e, qs[0]), qs[1..])
  }

  /** How many handlers run. */
  ghost function Ticks(qs: seq<Step>): nat {
    if qs == [] then 0 else One(qs[0].Handle?) + Ticks(qs[1..])
  }

  lemma {:induction false} ResolveWaits(e: Entry, n: int, s: Step)
    requires Resolving(e, n) && Quiet(s) && Enabled(e, s) && !s.Handle?
    ensures Resolving(Apply(e, s), n) && Apply(e, s).parms == e.parms && Apply(e, s).ops == e.ops
  {}

  lemma {:induction false} VerifyWaits(e: Entry, n: int, s: Step)
    requires Verifying(e, n) && Quiet(s) && Enabled(e, s) && !s.Handle?
    ensures Verifying(Apply(e, s), n) && Apply(e, s).parms == e.parms && Apply(e, s).ops == e.ops
  {}

  lemma {:induction false} ResolveStep(e: Entry, n: int, s: Step)
    requires Resolving(e, n) && Quiet(s) && Enabled(e, s) && n + One(s.Handle?) <= e.parms.app + e.parms.mcast
    ensures Resolving(Apply(e, s), n + One(s.Handle?)) && Apply(e, s).parms == e.parms && Apply(e, s).ops == e.ops
  {
    if s.Handle? { ResolveTick(e, n, s.now); } else { ResolveWaits(e, n, s); }
  }

  lemma {:induction false} VerifyStep(e: Entry, n: int, s: Step)
    requires Verifying(e, n) && Quiet(s) && Enabled(e, s) && n + One(s.Handle?) <= MaxProbes(e.parms, Probe)
    ensures Verifying(Apply(e, s), n + One(s.Handle?)) && Apply(e, s).parms == e.parms && Apply(e, s).ops == e.ops
  {
    if s.Handle? { VerifyTick(e, n, s.now); } else { VerifyWaits(e, n, s); }
  }

  lemma {:induction false} ResolveRuns(e: Entry, n: int, qs: seq<Step>)
    requires Resolving(e, n) && Possible(e, qs) && n + Ticks(qs) <= e.parms.app + e.parms.mcast
    ensures Resolving(After(e, qs), n + Ticks(qs)) && After(e, qs).parms == e.parms && After(e, qs).ops == e.ops
    decreases |qs|
  {
    if qs != [] {
      ResolveStep(e, n, qs[0]);
      ResolveRuns(Apply(e, qs[0]), n + One(qs[0].Handle?), qs[1..]);
    }
  }

  lemma {:induction false} VerifyRuns(e: Entry, n: int, qs: seq<Step>)
    requires Verifying(e, n) && Possible(e, qs) && n + Ticks(qs) <= MaxProbes(e.parms, Probe)
    ensures Verifying(After(e, qs), n + Ticks(qs)) && After(e, qs).parms == e.parms && After(e, qs).ops == e.ops
    decreases |qs|
  {
    if qs != [] {
      VerifyStep(e, n, qs[0]);
      VerifyRuns(Apply(e, qs[0]), n + One(qs[0].Handle?), qs[1..]);
    }
  }

  /**
   An unresolved entry is solicited once for the first packet and once per handler
   until the budget is spent; the next handler gives it up.  The budget goes first to
   the daemon and then to broadcasts, whatever other packets arrive meanwhile, and all
   that time a timer is armed or a handler on its way.  An entry without a hook for
   it is given up as late, and never solicited.
   */
  lemma {:induction false} ResolveBudget(e: Entry, now: int, qs: seq<Step>, last: int)
    requires Sound(e) && e.use.linked && (e.state.NoneYet? || e.state.Failed?)
    requires Possible(Send(e, now), qs) && Ticks(qs) < e.parms.app + e.parms.mcast
    ensures var f := After(Send(e, now), qs);
            && f.state.Incomplete? && (f.refs.pending || f.refs.firing) && |f.asked| == (if e.ops.DirectOps? then 0 else 1 + Ticks(qs))
            && (1 + Ticks(qs) == e.parms.app + e.parms.mcast && f.refs.firing ==>
                  && Handled(f, last).state.Failed?
                  && Handled(f, last).asked == Sent(e.ops, Repeat(App, e.parms.app) + Repeat(Broadcast, e.parms.mcast)))
  {
    SendResolves(e, now);
    ResolveRuns(Send(e, now), 1, qs);
    var f := After(Send(e, now), qs);
    if 1 + Ticks(qs) == e.parms.app + e.parms.mcast && f.refs.firing {
      ResolveTick(f, 1 + Ticks(qs), last);
      ResolveOrder(e.parms);
    }
  }

  /**
   An entry under verification is solicited once per handler until the budget is
   spent; the next handler gives it up.  The budget goes first to unicasts, then to
   the daemon, then to broadcasts; without a hook nothing is sent.
   */
  lemma {:induction false} VerifyBudget(e: Entry, n: int, qs: seq<Step>, last: int)
    requires Verifying(e, n) && Possible(e, qs) && n + Ticks(qs) <= MaxProbes(e.parms, Probe)
    ensures var f := After(e, qs);
            && f.state.Probe? && (f.refs.pending || f.refs.firing) && |f.asked| == (if e.ops.DirectOps? then 0 else n + Ticks(qs))
            && (n + Ticks(qs) == MaxProbes(e.parms, Probe) && f.refs.firing ==>
                  && Handled(f, last).state.Failed?
                  && Handled(f, last).asked
                     == Sent(e.ops, Repeat(Unicast, e.parms.ucast) + Repeat(App, e.parms.app) + Repeat(Broadcast, e.parms.reprobes)))
  {
    VerifyRuns(e, n, qs);
    var f := After(e, qs);
    if n + Ticks(qs) == MaxProbes(e.parms, Probe) && f.refs.firing {
      VerifyTick(f, n + Ticks(qs), last);
      VerifyOrder(e.parms);
    }
  }
}
