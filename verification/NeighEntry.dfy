/**
 One entry of the neighbour cache: its reachability state, its timer, its link
 address and its references.  Each operation that the source performs under the
 entry's lock is one function.  A timer that expires and its handler are two steps:
 while the handler waits for the lock others may change the entry and arm the timer
 anew.
 */
module NeighEntry {
  import opened Common

  datatype Nud = NoneYet | Incomplete | Reachable | Stale | Delay | Probe | Failed | NoArp | Permanent

  predicate InTimer(s: Nud) {
    s.Incomplete? || s.Reachable? || s.Delay? || s.Probe?
  }

  predicate Usable(s: Nud) {
    s.Permanent? || s.NoArp? || s.Reachable? || s.Probe? || s.Stale? || s.Delay?
  }

  predicate Connected(s: Nud) {
    s.Permanent? || s.NoArp? || s.Reachable?
  }

  datatype Output = Blackhole | Direct | Resolve | Fast

  /** The operation tables of an address family: with no headers, with cached headers, generic. */
  datatype Ops = DirectOps | HhOps | GenericOps

  function SlowOutput(ops: Ops): Output {
    if ops.DirectOps? then Direct else Resolve
  }

  function ConnectedOutput(ops: Ops): Output {
    match ops
    case DirectOps => Direct
    case HhOps => Resolve
    case GenericOps => Fast
  }

  function OutputFor(ops: Ops, s: Nud): Output {
    if Connected(s) then ConnectedOutput(ops) else SlowOutput(ops)
  }

  datatype Params = Params(ucast: nat, app: nat, mcast: nat, reprobes: nat, reachable: int, delay: int, base: int)

  /** How a solicitation goes out. */
  datatype Ask = Unicast | App | Broadcast

  datatype Bug = DoubleTimerAdd | ImpossibleEvent | DestroyingAlive

  /**
   The reference count and the timer: `pending` if it is armed, `firing` if it has
   expired and its handler waits for the lock.  `bugs` lists the conditions reported
   as impossible.
   */
  datatype Refs = Refs(dead: bool, refcnt: int, pending: bool, firing: bool, destroyed: bool, bugs: seq<Bug>)

  /** Whether the creator still has the entry to itself, whether the table links it, and who else holds it. */
  datatype Use = Use(isNew: bool, linked: bool, holders: int)

  /** `asked` lists the solicitations since the entry last began to be resolved or probed. */
  datatype Entry = Entry(
    state: Nud, ha: int, output: Output, ops: Ops, needsAddr: bool, parms: Params, refs: Refs, use: Use,
    probes: int, confirmed: int, used: int, asked: seq<Ask>)

  // ----------------------------------------------------- references, timer

  function Destroy(r: Refs, s: Nud): Refs {
    if !r.dead then r.(bugs := r.bugs + [DestroyingAlive])
    else if InTimer(s) && r.pending then r.(pending := false, refcnt := r.refcnt - 1, destroyed := true, bugs := r.bugs + [ImpossibleEvent])
    else r.(destroyed := true)
  }

  function Release(r: Refs, s: Nud): Refs {
    var r1 := r.(refcnt := r.refcnt - 1);
    if r1.refcnt == 0 then Destroy(r1, s) else r1
  }

  function AddTimer(r: Refs): Refs {
    r.(refcnt := r.refcnt + 1, pending := true, bugs := if r.pending then r.bugs + [DoubleTimerAdd] else r.bugs)
  }

  function DelTimer(r: Refs, s: Nud): Refs {
    if InTimer(s) && r.pending then Release(r.(pending := false), s) else r
  }

  // ------------------------------------------------------------ soliciting

  /** The classification by the number of probes sent so far. */
  function AskKind(p: Params, probes: int): Ask {
    if probes - p.ucast < 0 then Unicast
    else if probes - p.ucast - p.app < 0 then App
    else Broadcast
  }

  function MaxProbes(p: Params, s: Nud): int {
    p.ucast + p.app + (if s.Probe? then p.reprobes else p.mcast)
  }

  /** What goes out of a run of solicitations: the table without headers has no hook for them. */
  function Sent(ops: Ops, asks: seq<Ask>): seq<Ask> {
    if ops.DirectOps? then [] else asks
  }

  /** Solicits if there is a hook, and counts a probe in any case. */
  function Solicit(e: Entry): Entry {
    e.(probes := e.probes + 1, asked := e.asked + Sent(e.ops, [AskKind(e.parms, e.probes)]))
  }

  // -------------------------------------------------------------- the timer

  /** What the clock makes of the state when the timer goes off. */
  function Aged(e: Entry, now: int): Entry {
    match e.state
    case Reachable =>
      if now <= e.confirmed + e.parms.reachable then e
      else if now <= e.used + e.parms.delay then e.(state := Delay, output := SlowOutput(e.ops))
      else e.(state := Stale, output := SlowOutput(e.ops))
    case Delay =>
      if now <= e.confirmed + e.parms.delay then e.(state := Reachable, output := ConnectedOutput(e.ops))
      else e.(state := Probe, probes := 0, asked := [])
    case _ => e
  }

  predicate Probing(s: Nud) {
    s.Incomplete? || s.Probe?
  }

  /** The timer goes off and its reference passes to the handler. */
  function Expired(e: Entry): Entry {
    e.(refs := e.refs.(pending := false, firing := true))
  }

  /** The handler has the lock, and gives its reference up at the end. */
  function Handled(e: Entry, now: int): Entry {
    Put(BroughtOn(e.(refs := e.refs.(firing := false)), now))
  }

  /** What the handler does to an entry that waits for it. */
  function BroughtOn(e: Entry, now: int): Entry {
    if InTimer(e.state) then Concluded(Aged(e, now)) else e
  }

  function Put(e: Entry): Entry {
    e.(refs := Release(e.refs, e.state))
  }

  /** Arms the timer, with a reference unless it was armed already. */
  function Armed(r: Refs): Refs {
    r.(pending := true, refcnt := r.refcnt + One(!r.pending))
  }

  /** The timer armed again if the state uses one, and the next solicitation sent if there is to be one. */
  function Rearmed(e: Entry): Entry {
    var e1 := if InTimer(e.state) then e.(refs := Armed(e.refs)) else e;
    if Probing(e.state) then Solicit(e1) else e1
  }

  /** What the handler does with the entry once the clock has been looked at. */
  function Concluded(e: Entry): Entry {
    if Probing(e.state) && e.probes >= MaxProbes(e.parms, e.state) then e.(state := Failed) else Rearmed(e)
  }

  // --------------------------------------------------------------- sending

  function Send(e: Entry, now: int): Entry {
    var e0 := e.(used := now);
    if Connected(e.state) || e.state.Delay? || e.state.Probe? || e.refs.dead then e0
    else if e.state.Stale? then e0.(state := Delay, refs := AddTimer(DelTimer(e.refs, e.state)))
    else if e.state.Incomplete? then e0
    else if e.parms.mcast + e.parms.app > 0 then Resolving(e0)
    else e0.(state := Failed)
  }

  /** Begins to resolve the address with a first solicitation. */
  function Resolving(e: Entry): Entry {
    e.(state := Incomplete, probes := e.parms.ucast + 1, asked := Sent(e.ops, [AskKind(e.parms, e.parms.ucast)]),
       refs := AddTimer(DelTimer(e.refs, e.state)))
  }

  function ProbeOnce(e: Entry): Entry {
    if e.refs.dead || !e.state.Failed? then e
    else e.(state := Incomplete, probes := MaxProbes(e.parms, Incomplete), refs := AddTimer(e.refs))
  }

  // -------------------------------------------------------------- updating

  datatype Flags = Flags(admin: bool, override: bool, weakOverride: bool)

  /** The address and state an update settles on, or nothing if it is to be ignored. */
  datatype Plan = Ignore | Settle(same: bool, ha: int, state: Nud)

  function PlanFor(e: Entry, lladdr: Option<int>, goal: Nud, flags: Flags): Plan {
    if e.needsAddr && lladdr.None? && !Usable(e.state) then Ignore
    else
      var same := !e.needsAddr || lladdr.None? || (Usable(e.state) && lladdr.value == e.ha);
      var ha := if same then e.ha else lladdr.value;
      if !Usable(e.state) then Settle(same, ha, goal)
      else if !same && !flags.override then
        if flags.weakOverride && Connected(e.state) then Settle(true, e.ha, Stale) else Ignore
      else if same && goal.Stale? && !flags.admin then Settle(same, ha, e.state)
      else Settle(same, ha, goal)
  }

  function Restate(e: Entry, s: Nud): Entry {
    if s == e.state then e
    else
      var r := DelTimer(e.refs, e.state);
      e.(state := s, refs := if InTimer(s) then AddTimer(r) else r,
         probes := if s.Probe? then 0 else e.probes, asked := if s.Probe? then [] else e.asked)
  }

  /** The address and the output after the state has been set. */
  function Finished(e: Entry, same: bool, ha: int, changed: bool, now: int): Entry {
    var e1 := if same then e
              else e.(ha := ha, confirmed := if Connected(e.state) then e.confirmed else now - 2 * e.parms.base);
    if changed then e1.(output := OutputFor(e.ops, e.state)) else e1
  }

  /** Carries a settled plan out. */
  function Settled(e: Entry, same: bool, ha: int, s: Nud, now: int): Entry {
    Finished(Restate(e, s), same, ha, s != e.state, now)
  }

  function Invalidated(e: Entry, s: Nud): Entry {
    e.(state := s, refs := DelTimer(e.refs, e.state), output := if Connected(e.state) then SlowOutput(e.ops) else e.output)
  }

  function Update(e: Entry, lladdr: Option<int>, goal: Nud, flags: Flags, now: int): Entry {
    if (!flags.admin && (e.state.NoArp? || e.state.Permanent?)) || e.refs.dead then e
    else if !Usable(goal) then Invalidated(e, goal)
    else Amended(e, lladdr, goal, flags, now)
  }

  function Amended(e: Entry, lladdr: Option<int>, goal: Nud, flags: Flags, now: int): Entry {
    var e1 := e.(confirmed := ConfirmedBy(e, lladdr, goal, now));
    match PlanFor(e, lladdr, goal, flags)
    case Ignore => e1
    case Settle(same, ha, s) => Settled(e1, same, ha, s, now)
  }

  /** An update to a connected state confirms the entry, unless it is discarded for want of an address. */
  function ConfirmedBy(e: Entry, lladdr: Option<int>, goal: Nud, now: int): int {
    if Connected(goal) && (!e.needsAddr || lladdr.Some? || Usable(e.state)) then now else e.confirmed
  }

  /** How an update is answered: zero, not permitted, or no address to go by. */
  datatype Answer = Success | NotPermitted | Invalid

  function AnswerTo(e: Entry, lladdr: Option<int>, goal: Nud, flags: Flags): Answer {
    if e.refs.dead || (!flags.admin && (e.state.NoArp? || e.state.Permanent?)) then NotPermitted
    else if Usable(goal) && !Usable(e.state) && e.needsAddr && lladdr.None? then Invalid
    else Success
  }

  // ------------------------------------------------------------- life cycle

  /** Unlinks an entry nobody uses. */
  function Collect(e: Entry): Entry {
    if e.refs.refcnt == 1 then Put(e.(use := e.use.(linked := false), refs := e.refs.(dead := true))) else e
  }

  /** Unlinks an entry whatever its use, leaving it in a safe state. */
  function Flush(e: Entry): Entry {
    Put(Silenced(e))
  }

  function Silenced(e: Entry): Entry {
    var r := DelTimer(e.refs, e.state).(dead := true);
    var shared := r.refcnt != 1;
    e.(use := e.use.(linked := false), refs := r, output := if shared then Blackhole else e.output,
       state := if !shared then e.state else if Usable(e.state) then NoArp else NoneYet)
  }

  /** Puts a newly constructed entry into the table; the creator's reference becomes the table's. */
  function Link(e: Entry, wantRef: bool): Entry {
    e.(use := Use(false, true, e.use.holders - One(!wantRef)), refs := e.refs.(dead := false, refcnt := e.refs.refcnt + One(wantRef)))
  }

  datatype Step =
    | DoLink(wantRef: bool)
    | Take
    | Drop
    | Expire
    | Handle(now: int)
    | DoSend(now: int)
    | Confirm(now: int)
    | DoUpdate(lladdr: Option<int>, state: Nud, flags: Flags, now: int)
    | DoProbeOnce
    | DoCollect
    | DoFlush

  predicate Enabled(e: Entry, s: Step) {
    match s
    case DoLink(_) => e.use.isNew
    case Take => e.use.linked
    case Drop => e.use.holders > 0
    case Expire => e.refs.pending && !e.refs.firing
    case Handle(_) => e.refs.firing
    case DoUpdate(_, _, _, _) => !e.use.isNew && e.use.holders > 0
    case DoProbeOnce => !e.use.isNew && e.use.holders > 0
    case DoCollect => e.use.linked
    case DoFlush => e.use.linked
    case _ => !e.use.isNew
  }

  function Apply(e: Entry, s: Step): Entry {
    match s
    case DoLink(wantRef) => Link(e, wantRef)
    case Take => e.(refs := e.refs.(refcnt := e.refs.refcnt + 1), use := e.use.(holders := e.use.holders + 1))
    case Drop => Put(e.(use := e.use.(isNew := false, holders := e.use.holders - 1)))
    case Expire => Expired(e)
    case Handle(now) => Handled(e, now)
    case DoSend(now) => Send(e, now)
    case Confirm(now) => e.(confirmed := now)
    case DoUpdate(lladdr, state, flags, now) => Update(e, lladdr, state, flags, now)
    case DoProbeOnce => ProbeOnce(e)
    case DoCollect => Collect(e)
    case DoFlush => Flush(e)
  }

  // ------------------------------------------------------------- invariant

  /**
   The references are the table's link, the armed timer, the waiting handler, the
   holders, and one for each time a timer was added twice, which is lost.
   */
  ghost predicate Counted(r: Refs, u: Use, s: Nud) {
    && u.holders >= 0 && r.refcnt - u.holders - |r.bugs| == One(u.linked) + One(r.pending) + One(r.firing)
    && (forall b :: b in r.bugs ==> b == DoubleTimerAdd)
    && (u.linked <==> !r.dead)
    && (u.isNew ==> !u.linked && u.holders == 1 && r.refcnt == 1)
    && (InTimer(s) ==> u.linked || r.destroyed)
    && (r.destroyed <==> r.refcnt == 0)
  }

  /** An entry that is live, or about to be, uses the output its state calls for. */
  ghost predicate OutputRight(e: Entry) {
    e.use.linked || e.use.isNew ==> e.output == OutputFor(e.ops, e.state)
  }

  ghost predicate Sound(e: Entry) {
    Counted(e.refs, e.use, e.state) && OutputRight(e)
  }

  /** A timer is armed that the entry's state does not know of. */
  predicate Loose(e: Entry) {
    e.refs.pending && !InTimer(e.state)
  }

  /** A live entry in a state that waits for the timer will hear from it. */
  predicate Attended(e: Entry) {
    e.use.linked && InTimer(e.state) ==> e.refs.pending || e.refs.firing
  }

  // ----------------------------------------------------------- construction

  datatype Device =
    | Headerless(needsAddr: bool)
    | Device(cached: bool, noArp: bool, pointToPoint: bool, ownAddr: int, broadcastAddr: int, needsAddr: bool)

  datatype AddrType = UnicastAddr | MulticastAddr(mapped: int) | BroadcastAddr

  /** A new entry after allocation and the constructor of the ARP table. */
  function Construct(dev: Device, kind: AddrType, parms: Params, now: int): Entry {
    var refs := Refs(true, 1, false, false, false, []);
    match dev
    case Headerless(needsAddr) => Entry(NoArp, 0, Direct, DirectOps, needsAddr, parms, refs, Use(true, false, 1), 0, now - 2 * parms.base, now, [])
    case Device(cached, noArp, p2p, ownAddr, broadcastAddr, needsAddr) =>
      var settled := kind.MulticastAddr? || noArp || kind.BroadcastAddr? || p2p;
      var ha := if kind.MulticastAddr? then kind.mapped else if noArp then ownAddr else if settled then broadcastAddr else 0;
      var ops := if cached then HhOps else GenericOps;
      Entry(if settled then NoArp else NoneYet, ha, if settled then ConnectedOutput(ops) else SlowOutput(ops), ops,
            needsAddr, parms, refs, Use(true, false, 1), 0, now - 2 * parms.base, now, [])
  }

  /** The creator holds the only reference, and the output already fits the state. */
  lemma {:induction false} ConstructIs(dev: Device, kind: AddrType, parms: Params, now: int)
    ensures var e := Construct(dev, kind, parms, now);
            e.refs == Refs(true, 1, false, false, false, []) && e.use == Use(true, false, 1) && e.output == OutputFor(e.ops, e.state)
  {}

  /** Usable at once if the device or the address needs no resolution; which address it then has. */
  ghost predicate Prepared(dev: Device, kind: AddrType, state: Nud, ha: int, ops: Ops) {
    match dev
    case Headerless(_) => state.NoArp? && ops.DirectOps?
    case Device(cached, noArp, p2p, own, broadcast, _) =>
      && ops == (if cached then HhOps else GenericOps)
      && (state.NoArp? <==> kind != UnicastAddr || noArp || p2p) && (!state.NoArp? ==> state.NoneYet? && ha == 0)
      && (kind.MulticastAddr? ==> ha == kind.mapped)
      && (noArp && !kind.MulticastAddr? ==> ha == own)
      && (!noArp && (kind.BroadcastAddr? || (p2p && kind.UnicastAddr?)) ==> ha == broadcast)
  }

  lemma {:induction false} ConstructPrepares(dev: Device, kind: AddrType, parms: Params, now: int)
    ensures var e := Construct(dev, kind, parms, now);
            Prepared(dev, kind, e.state, e.ha, e.ops) && e.used == now && e.confirmed == now - 2 * parms.base
  {}

  lemma {:induction false} ConstructSound(dev: Device, kind: AddrType, parms: Params, now: int)
    ensures Sound(Construct(dev, kind, parms, now))
  {
    ConstructIs(dev, kind, parms, now);
  }

  // ----------------------------------------------------------------- steps

  /** The references of a live entry, `extra` of them in somebody's hands. */
  ghost predicate Live(r: Refs, u: Use, extra: nat) {
    && u.linked && !r.dead && !u.isNew && !r.destroyed && u.holders >= 0
    && r.refcnt - u.holders - |r.bugs| - extra - 1 == One(r.pending) + One(r.firing)
    && forall b :: b in r.bugs ==> b == DoubleTimerAdd
  }

  lemma {:induction false} LiveSound(e: Entry)
    requires e.use.linked
    ensures Sound(e) <==> Live(e.refs, e.use, 0) && e.output == OutputFor(e.ops, e.state)
  {}

  lemma {:induction false} ReleaseLive(r: Refs, u: Use, s: Nud)
    requires Live(r, u, 1)
    ensures Release(r, s) == r.(refcnt := r.refcnt - 1) && Live(Release(r, s), u, 0)
  {}

  /**
   Giving up the last reference destroys a dead entry and reports nothing, unless its
   timer is still armed, which is reported and stopped; destroying one that is alive is
   reported and not done.
   */
  lemma {:induction false} LastReleased(r: Refs, s: Nud)
    requires r.refcnt == 1 && !r.destroyed
    ensures var q := Release(r, s);
            && q.destroyed == r.dead && (q.refcnt == 0 <==> !r.dead || !(InTimer(s) && r.pending))
            && (q.pending <==> r.pending && (!r.dead || !InTimer(s)))
            && q.bugs == r.bugs + if !r.dead then [DestroyingAlive] else if InTimer(s) && r.pending then [ImpossibleEvent] else []
  {}

  /** Only a timer that belongs to the state is stopped. */
  lemma {:induction false} DelTimerLive(r: Refs, u: Use, s: Nud)
    requires Live(r, u, 0)
    ensures DelTimer(r, s) == (if InTimer(s) && r.pending then r.(pending := false, refcnt := r.refcnt - 1) else r)
    ensures Live(DelTimer(r, s), u, 0)
  {}

  lemma {:induction false} AddTimerLive(r: Refs, u: Use)
    requires Live(r, u, 0)
    ensures var q := AddTimer(r); Live(q, u, 0) && q.pending && q.firing == r.firing && (q.bugs == r.bugs <==> !r.pending)
  {}

  lemma {:induction false} ArmedLive(r: Refs, u: Use)
    requires Live(r, u, 1)
    ensures Live(Armed(r), u, 1)
  {}

  lemma {:induction false} AgedRight(e: Entry, now: int)
    requires e.output == OutputFor(e.ops, e.state)
    ensures var r := Aged(e, now); r.output == OutputFor(r.ops, r.state) && r.refs == e.refs && r.use == e.use
  {}

  lemma {:induction false} PutSound(e: Entry)
    requires Live(e.refs, e.use, 1) && e.output == OutputFor(e.ops, e.state)
    ensures Sound(Put(e)) && Put(e).refs == e.refs.(refcnt := e.refs.refcnt - 1)
  {
    ReleaseLive(e.refs, e.use, e.state);
    LiveSound(Put(e));
  }

  lemma {:induction false} ConcludedSound(e: Entry)
    requires Live(e.refs, e.use, 1) && e.output == OutputFor(e.ops, e.state)
    ensures var r := Put(Concluded(e));
            && Sound(r) && r.use == e.use && r.refs.firing == e.refs.firing && r.refs.bugs == e.refs.bugs
            && (r.refs.pending <==> e.refs.pending || InTimer(r.state))
  {
    ArmedLive(e.refs, e.use);
    PutSound(Concluded(e));
  }

  /**
   The handler leaves the link alone and reports nothing.  It leaves the timer of a
   live entry armed if the state uses one, and otherwise only if somebody had armed it
   anew in the meantime.
   */
  lemma {:induction false} HandleSound(e: Entry, now: int)
    requires Sound(e) && e.refs.firing
    ensures var r := Handled(e, now);
            && Sound(r) && r.use == e.use && !r.refs.firing && r.refs.bugs == e.refs.bugs
            && (r.refs.pending <==> e.refs.pending || (e.use.linked && InTimer(r.state)))
            && (!e.use.linked ==> r.state == e.state)
  {
    if InTimer(e.state) {
      LiveSound(e);
      var e0 := e.(refs := e.refs.(firing := false));
      AgedRight(e0, now);
      ConcludedSound(Aged(e0, now));
    }
  }

  /**
   Where the handler leads from each state: by the clock from reachable and delayed, by
   the probes left from the states that probe.
   */
  ghost predicate TimerLeads(e: Entry, s: Nud, now: int) {
    match e.state
    case Reachable =>
      s == if now <= e.confirmed + e.parms.reachable then Reachable
           else if now <= e.used + e.parms.delay then Delay else Stale
    case Delay =>
      s == if now <= e.confirmed + e.parms.delay then Reachable
           else if MaxProbes(e.parms, Probe) == 0 then Failed else Probe
    case Incomplete => s == if e.probes < MaxProbes(e.parms, Incomplete) then Incomplete else Failed
    case Probe => s == if e.probes < MaxProbes(e.parms, Probe) then Probe else Failed
    case _ => s == e.state
  }

  /** The handler sends one solicitation if the entry goes on probing and else none; an expired delay counts from zero. */
  ghost predicate TimerAsks(e: Entry, r: Entry) {
    var anew := e.state.Delay? && !r.state.Reachable?;
    var probes, asked := if anew then 0 else e.probes, if anew then [] else e.asked;
    && r.probes == probes + One(Probing(r.state))
    && r.asked == asked + if Probing(r.state) then Sent(e.ops, [AskKind(e.parms, probes)]) else []
  }

  lemma {:induction false} ConcludedLeads(e: Entry)
    ensures var r := Concluded(e);
            && r.state == (if Probing(e.state) && e.probes >= MaxProbes(e.parms, e.state) then Failed else e.state)
            && r.ha == e.ha && r.used == e.used && r.confirmed == e.confirmed
            && r.probes == e.probes + One(Probing(r.state))
            && r.asked == e.asked + if Probing(r.state) then Sent(e.ops, [AskKind(e.parms, e.probes)]) else []
  {}

  lemma {:induction false} BroughtOnLeads(e: Entry, now: int)
    ensures var r := BroughtOn(e, now);
            && TimerLeads(e, r.state, now) && r.ha == e.ha && r.used == e.used && r.confirmed == e.confirmed
            && TimerAsks(e, r)
  {
    if InTimer(e.state) { ConcludedLeads(Aged(e, now)); }
  }

  /** The handler touches neither the address nor the times, and solicits once if it goes on probing. */
  lemma {:induction false} HandleLeads(e: Entry, now: int)
    ensures var r := Handled(e, now);
            && TimerLeads(e, r.state, now) && r.ha == e.ha && r.used == e.used && r.confirmed == e.confirmed
            && TimerAsks(e, r)
  {
    BroughtOnLeads(e.(refs := e.refs.(firing := false)), now);
  }

  /** A confirmation that is recent enough keeps the entry reachable, or makes it so. */
  lemma {:induction false} ConfirmHelps(e: Entry, last: int, now: int)
    requires (e.state.Reachable? && now <= last + e.parms.reachable) || (e.state.Delay? && now <= last + e.parms.delay)
    ensures Handled(Apply(e, Confirm(last)), now).state.Reachable?
  {
    HandleLeads(Apply(e, Confirm(last)), now);
  }

  /** Where a packet leads from each state of a live entry. */
  ghost predicate SendLeads(e: Entry, s: Nud) {
    match e.state
    case Stale => s.Delay?
    case NoneYet => s == if e.parms.mcast + e.parms.app > 0 then Incomplete else Failed
    case Failed => s == if e.parms.mcast + e.parms.app > 0 then Incomplete else Failed
    case _ => s == e.state
  }

  /** A packet is noted as a use, and changes the state and starts the timer of a live entry that needs it. */
  lemma {:induction false} SendNotes(e: Entry, now: int)
    requires Sound(e) && !e.use.isNew
    ensures var r := Send(e, now);
            && r.used == now && r.ha == e.ha && r.confirmed == e.confirmed
            && (if e.use.linked then SendLeads(e, r.state) && (r.state != e.state && InTimer(r.state) ==> r.refs.pending)
                else r == e.(used := now))
  {
    if e.use.linked {
      LiveSound(e);
      DelTimerLive(e.refs, e.use, e.state);
      AddTimerLive(DelTimer(e.refs, e.state), e.use);
    }
  }

  /** Somebody will bring the entry on: it is usable, given up, or waits for the timer. */
  predicate InHand(e: Entry) {
    Usable(e.state) || e.state.Failed? || (e.state.Incomplete? && (e.refs.pending || e.refs.firing))
  }

  /**
   Sending leaves the links alone and does not change a connected state.  A live entry
   is then in hand, unless it was waiting for a timer that is not armed: such an
   entry stays as it is.
   */
  lemma {:induction false} SendSound(e: Entry, now: int)
    requires Sound(e) && !e.use.isNew
    ensures var r := Send(e, now);
            && Sound(r) && r.use == e.use && (Attended(r) <==> Attended(e))
            && (e.use.linked ==> Connected(e.state) ==> r.state == e.state)
            && (e.use.linked ==> (InHand(r) <==> !(e.state.Incomplete? && !e.refs.pending && !e.refs.firing)))
  {
    if e.use.linked {
      LiveSound(e);
      DelTimerLive(e.refs, e.use, e.state);
      AddTimerLive(DelTimer(e.refs, e.state), e.use);
      LiveSound(Send(e, now));
    }
  }

  lemma {:induction false} ProbeOnceSound(e: Entry)
    requires Sound(e) && !e.use.isNew
    ensures Sound(ProbeOnce(e)) && ProbeOnce(e).use == e.use && (Attended(e) ==> Attended(ProbeOnce(e)))
  {
    if e.use.linked {
      LiveSound(e);
      AddTimerLive(e.refs, e.use);
      LiveSound(ProbeOnce(e));
    }
  }

  /** A failed entry that is probed once more waits for one timer, solicits nothing, and fails again. */
  lemma {:induction false} ProbedOnce(e: Entry, now: int)
    requires Sound(e) && e.use.linked && e.state.Failed?
    ensures var q := ProbeOnce(e);
            && q.state.Incomplete? && q.refs.pending && q.asked == e.asked
            && Handled(Expired(q), now).state.Failed? && Handled(Expired(q), now).asked == e.asked
  {
    HandleLeads(Expired(ProbeOnce(e)), now);
  }

  /** A live entry between two states, its timer accounted for. */
  lemma {:induction false} RestateLive(e: Entry, s: Nud)
    requires Live(e.refs, e.use, 0) && s != e.state
    ensures var r := Restate(e, s);
            && Live(r.refs, r.use, 0) && r.use == e.use && r.refs.firing == e.refs.firing
            && (r.refs.pending <==> InTimer(s) || (!InTimer(e.state) && e.refs.pending))
            && (r.refs.bugs == e.refs.bugs <==> !(InTimer(s) && Loose(e)))
  {
    DelTimerLive(e.refs, e.use, e.state);
    AddTimerLive(DelTimer(e.refs, e.state), e.use);
  }

  /** The links and the waiting handler are the same, the entry is attended to if it was, and no timer has come loose. */
  predicate Keeps(e: Entry, r: Entry) {
    r.use == e.use && r.refs.firing == e.refs.firing && (Attended(e) ==> Attended(r)) && (Loose(r) ==> Loose(e))
  }

  lemma {:induction false} SettledSound(e: Entry, same: bool, ha: int, s: Nud, now: int)
    requires Sound(e) && e.use.linked
    ensures var r := Settled(e, same, ha, s, now);
            && Sound(r) && r.state == s && Keeps(e, r)
            && (r.refs.bugs == e.refs.bugs <==> !(InTimer(s) && Loose(e))) && (s != e.state && InTimer(s) ==> r.refs.pending)
  {
    LiveSound(e);
    if s != e.state { RestateLive(e, s); }
    LiveSound(Settled(e, same, ha, s, now));
  }

  lemma {:induction false} InvalidatedSound(e: Entry, s: Nud)
    requires Sound(e) && e.use.linked && !Usable(s)
    ensures var r := Invalidated(e, s);
            && Sound(r) && r.state == s && r.use == e.use && r.refs.bugs == e.refs.bugs && r.refs.firing == e.refs.firing
            && (r.refs.pending <==> Loose(e))
  {
    LiveSound(e);
    DelTimerLive(e.refs, e.use, e.state);
    LiveSound(Invalidated(e, s));
  }

  /** An update to a usable state arms the timer. */
  predicate Rearms(e: Entry, lladdr: Option<int>, goal: Nud, flags: Flags) {
    var plan := PlanFor(e, lladdr, goal, flags);
    plan.Settle? && InTimer(plan.state) && plan.state != e.state
  }

  lemma {:induction false} AmendedSound(e: Entry, lladdr: Option<int>, goal: Nud, flags: Flags, now: int)
    requires Sound(e) && e.use.linked && Usable(goal)
    ensures var r := Amended(e, lladdr, goal, flags, now);
            && Sound(r) && Keeps(e, r)
            && (if !Usable(e.state) && e.needsAddr && lladdr.None? then r == e else Usable(r.state))
            && (r.refs.bugs == e.refs.bugs <==> !(Rearms(e, lladdr, goal, flags) && Loose(e)))
  {
    var plan := PlanFor(e, lladdr, goal, flags);
    if plan.Settle? {
      PlanUsable(e, lladdr, goal, flags);
      AmendedSettles(e, plan.same, plan.ha, plan.state, now, ConfirmedBy(e, lladdr, goal, now));
    }
  }

  lemma {:induction false} PlanUsable(e: Entry, lladdr: Option<int>, goal: Nud, flags: Flags)
    requires Usable(goal)
    ensures var plan := PlanFor(e, lladdr, goal, flags); plan.Settle? ==> Usable(plan.state)
  {}

  lemma {:induction false} AmendedSettles(e: Entry, same: bool, ha: int, s: Nud, now: int, confirmed: int)
    requires Sound(e) && e.use.linked
    ensures var r := Settled(e.(confirmed := confirmed), same, ha, s, now);
            && Sound(r) && r.state == s && Keeps(e, r)
            && (r.refs.bugs == e.refs.bugs <==> !(InTimer(s) && s != e.state && Loose(e)))
  {
    SettledSound(e.(confirmed := confirmed), same, ha, s, now);
  }

  /**
   An update that is refused changes nothing.  One that succeeds leaves the address
   usable if that was asked for, and the very state asked for if not, the timer being
   stopped if it belonged to the state before.
   */
  lemma {:induction false} UpdateSound(e: Entry, lladdr: Option<int>, goal: Nud, flags: Flags, now: int)
    requires Sound(e) && !e.use.isNew && e.use.holders > 0
    ensures var r, answer := Update(e, lladdr, goal, flags, now), AnswerTo(e, lladdr, goal, flags);
            && Sound(r) && r.use == e.use
            && (!answer.Success? ==> r == e)
            && (answer.Success? ==> if Usable(goal) then Usable(r.state) else r.state == goal && (r.refs.pending <==> Loose(e)))
  {
    if !e.refs.dead {
      if Usable(goal) { AmendedSound(e, lladdr, goal, flags, now); } else { InvalidatedSound(e, goal); }
    }
  }

  /** Flushing stops the timer if the state knows of it; whoever still uses the entry can send nothing with it. */
  lemma {:induction false} FlushSound(e: Entry)
    requires Sound(e) && e.use.linked
    ensures var r := Flush(e);
            && Sound(r) && r.use == e.use.(linked := false) && r.refs.bugs == e.refs.bugs && (r.refs.pending <==> Loose(e))
            && r.ha == e.ha
            && (if r.refs.destroyed then r.state == e.state && r.output == e.output
                else r.output == Blackhole && r.state == if Usable(e.state) then NoArp else NoneYet)
  {
    LiveSound(e);
    DelTimerLive(e.refs, e.use, e.state);
  }

  lemma {:induction false} LifeSound(e: Entry, s: Step)
    requires Sound(e) && Enabled(e, s) && (s.DoLink? || s.Take? || s.Drop? || s.DoCollect? || s.Expire?)
    ensures Sound(Apply(e, s)) && (Attended(e) ==> Attended(Apply(e, s))) && Apply(e, s).refs.bugs == e.refs.bugs
  {}

  /**
   What these steps are for: who holds the entry, whether it is linked, and whether the
   timer's reference is the handler's.  An entry goes with its last reference.
   */
  lemma {:induction false} LifeSteps(e: Entry, s: Step)
    requires Sound(e) && Enabled(e, s) && (s.DoLink? || s.Take? || s.Drop? || s.DoCollect? || s.Expire? || s.DoFlush?)
    ensures var r := Apply(e, s);
            && r.use == (match s
                         case DoLink(wantRef) => Use(false, true, One(wantRef))
                         case Take => e.use.(holders := e.use.holders + 1)
                         case Drop => e.use.(isNew := false, holders := e.use.holders - 1)
                         case DoCollect => e.use.(linked := e.refs.refcnt != 1)
                         case DoFlush => e.use.(linked := false)
                         case _ => e.use)
            && (s.Expire? ==> r.refs.firing && !r.refs.pending)
            && (r.refs.destroyed <==> e.refs.destroyed || (e.refs.refcnt == 1 && (s.Drop? || s.DoCollect?))
                                      || (s.DoFlush? && e.use.holders == 0 && !e.refs.firing && e.refs.bugs == [] && !Loose(e)))
  {
    if s.DoFlush? { FlushSound(e); }
  }

  /** Every operation keeps the references counted and the output right. */
  lemma {:induction false} StepSound(e: Entry, s: Step)
    requires Sound(e) && Enabled(e, s)
    ensures Sound(Apply(e, s))
  {
    match s
    case Handle(now) => HandleSound(e, now);
    case DoSend(now) => SendSound(e, now);
    case Confirm(_) =>
    case DoUpdate(lladdr, goal, flags, now) => UpdateSound(e, lladdr, goal, flags, now);
    case DoProbeOnce => ProbeOnceSound(e);
    case DoFlush => FlushSound(e);
    case _ => LifeSound(e, s);
  }
}
