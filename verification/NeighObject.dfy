/**
 The neighbour entry as the source has it: an object whose fields the operations
 update one after the other, under its lock.  `Value` is the entry the fields stand
 for.  Every operation a caller may perform keeps `Valid`: the references are the
 table's link, the timer, the waiting handler, the holders and those lost to reports,
 and the output is the one the state calls for.
 */
module NeighObject {
  import opened Common
  import opened NeighEntry

  class Neighbour {
    var state: Nud
    var ha: int
    var output: Output
    const ops: Ops
    const needsAddr: bool
    const parms: Params
    var dead: bool
    var refcnt: int
    var pending: bool
    var firing: bool
    var probes: int
    var confirmed: int
    var used: int
    ghost var use: Use
    ghost var destroyed: bool
    ghost var bugs: seq<Bug>
    ghost var asked: seq<Ask>

    ghost function Links(): Refs
      reads this
    {
      Refs(dead, refcnt, pending, firing, destroyed, bugs)
    }

    ghost function Value(): Entry
      reads this
    {
      Entry(state, ha, output, ops, needsAddr, parms, Links(), use, probes, confirmed, used, asked)
    }

    ghost predicate Valid()
      reads this
    {
      Sound(Value())
    }

    // ----------------------------------------------------- life cycle

    /** Allocation followed by the constructor of the ARP table. */
    constructor (dev: Device, kind: AddrType, parms: Params, now: int)
      ensures Valid() && Value() == Construct(dev, kind, parms, now)
      ensures use.isNew && use.holders == 1 && !pending && output == OutputFor(ops, state)
      ensures if dev.Headerless? || kind.MulticastAddr? || kind.BroadcastAddr? || dev.noArp || dev.pointToPoint
              then state.NoArp? else state.NoneYet? && ha == 0
      ensures Prepared(dev, kind, state, ha, ops)
    {
      var nud, addr, table := NoneYet, 0, GenericOps;
      if dev.Headerless? {
        nud, table := NoArp, DirectOps;
      } else {
        if kind.MulticastAddr? {
          nud, addr := NoArp, kind.mapped;
        } else if dev.noArp {
          nud, addr := NoArp, dev.ownAddr;
        } else if kind.BroadcastAddr? || dev.pointToPoint {
          nud, addr := NoArp, dev.broadcastAddr;
        }
        if dev.cached { table := HhOps; }
      }
      this.needsAddr, this.parms, ops := dev.needsAddr, parms, table;
      state, ha, output := nud, addr, if Usable(nud) then ConnectedOutput(table) else SlowOutput(table);
      dead, refcnt, pending, firing, probes, confirmed, used := true, 1, false, false, 0, now - 2 * parms.base, now;
      use, destroyed, bugs, asked := Use(true, false, 1), false, [], [];
      new;
      ConstructSound(dev, kind, parms, now);
      ConstructPrepares(dev, kind, parms, now);
    }

    /** Puts a new entry into the table; the creator keeps a reference only if it wants one. */
    method LinkIn(wantRef: bool)
      requires Valid() && use.isNew
      modifies this
      ensures Valid() && Value() == Apply(old(Value()), DoLink(wantRef))
      ensures use.linked && !use.isNew && use.holders == One(wantRef) && refcnt == 1 + use.holders && !pending
    {
      if wantRef { refcnt := refcnt + 1; }
      dead := false;
      use := Use(false, true, use.holders - One(!wantRef));
    }

    method Hold()
      requires Valid() && use.linked
      modifies this
      ensures Valid() && Value() == Apply(old(Value()), Take)
      ensures use.holders == old(use.holders) + 1 && !destroyed
    {
      refcnt := refcnt + 1;
      use := use.(holders := use.holders + 1);
    }

    /** A holder gives its reference up; the last reference of all takes the entry along. */
    method LetGo()
      requires Valid() && use.holders > 0
      modifies this
      ensures Valid() && Value() == Apply(old(Value()), Drop)
      ensures destroyed <==> old(refcnt) == 1
      ensures destroyed ==> !use.linked && !pending && !firing && use.holders == 0
    {
      StepSound(Value(), Drop);
      use := use.(isNew := false, holders := use.holders - 1);
      Put();
    }

    method Put()
      modifies `refcnt, `pending, `destroyed, `bugs
      ensures Links() == Release(old(Links()), state)
    {
      refcnt := refcnt - 1;
      if refcnt == 0 { Free(); }
    }

    method Free()
      modifies `refcnt, `pending, `destroyed, `bugs
      ensures Links() == Destroy(old(Links()), state)
    {
      if !dead {
        bugs := bugs + [DestroyingAlive];
        return;
      }
      if InTimer(state) && pending {
        pending := false;
        refcnt := refcnt - 1;
        bugs := bugs + [ImpossibleEvent];
      }
      destroyed := true;
    }

    /** Unlinks the entry exactly if nothing but the table refers to it, and then frees it. */
    method Del() returns (gone: bool)
      requires Valid() && use.linked
      modifies this
      ensures Valid() && Value() == Collect(old(Value()))
      ensures gone <==> !old(pending) && !old(firing) && old(use.holders) == 0 && old(bugs) == []
      ensures if gone then destroyed && !use.linked else Value() == old(Value())
    {
      StepSound(Value(), DoCollect);
      gone := refcnt == 1;
      if gone { Bury(); }
    }

    method Bury()
      modifies this
      ensures Value() == NeighEntry.Put(old(Value()).(use := old(use).(linked := false), refs := old(Links()).(dead := true)))
    {
      use := use.(linked := false);
      dead := true;
      Put();
    }

    /** Stops the timer and marks the entry dead. */
    method Retire()
      modifies `dead, `refcnt, `pending, `destroyed, `bugs
      ensures Links() == DelTimer(old(Links()), state).(dead := true)
    {
      StopTimer();
      dead := true;
    }

    /**
     Unlinks the entry whoever uses it.  A timer that the state knows of is stopped, and
     those still using the entry can send nothing.
     */
    method FlushOut()
      requires Valid() && use.linked
      modifies this
      ensures Valid() && Value() == Flush(old(Value()))
      ensures use == old(use).(linked := false) && dead && bugs == old(bugs) && (pending <==> Loose(old(Value())))
      ensures destroyed || (output == Blackhole && state == if Usable(old(state)) then NoArp else NoneYet)
    {
      FlushSound(Value());
      Silence();
      Put();
    }

    /** Unlinks the entry and makes it useless for whoever else refers to it. */
    method Silence()
      modifies this
      ensures Value() == Silenced(old(Value()))
    {
      Retire();
      use := use.(linked := false);
      if refcnt != 1 { Disable(); }
    }

    method Disable()
      modifies `state, `output
      ensures output == Blackhole && state == if Usable(old(state)) then NoArp else NoneYet
    {
      output := Blackhole;
      state := if Usable(state) then NoArp else NoneYet;
    }

    method StartTimer()
      modifies `refcnt, `pending, `bugs
      ensures Links() == AddTimer(old(Links()))
    {
      refcnt := refcnt + 1;
      if pending { bugs := bugs + [DoubleTimerAdd]; }
      pending := true;
    }

    method StopTimer()
      modifies `refcnt, `pending, `destroyed, `bugs
      ensures Links() == DelTimer(old(Links()), state)
    {
      if InTimer(state) && pending {
        pending := false;
        Put();
      }
    }

    /** Stops the timer of the state that is left and starts one for the state that is entered. */
    method Retime(goal: Nud)
      modifies `refcnt, `pending, `destroyed, `bugs
      ensures Links() == if InTimer(goal) then AddTimer(DelTimer(old(Links()), state)) else DelTimer(old(Links()), state)
    {
      StopTimer();
      if InTimer(goal) { StartTimer(); }
    }

    method Suspect()
      modifies `output
      ensures output == SlowOutput(ops)
    {
      output := SlowOutput(ops);
    }

    method Connect()
      modifies `output
      ensures output == ConnectedOutput(ops)
    {
      output := ConnectedOutput(ops);
    }

    /** Sends the solicitation that the number of probes so far calls for, if there is a hook, and counts it. */
    method SendProbe(before: int, ghost sent: seq<Ask>)
      modifies `probes, `asked
      ensures probes == before + 1 && asked == sent + Sent(ops, [AskKind(parms, before)])
    {
      var kind := Unicast;
      var left := before - parms.ucast;
      if left >= 0 {
        left := left - parms.app;
        kind := if left < 0 then App else Broadcast;
      }
      asked := if ops.DirectOps? then sent else sent + [kind];
      probes := before + 1;
    }

    /** What the handler does about the clock. */
    method Age(now: int)
      modifies `state, `output, `probes, `asked
      ensures Value() == Aged(old(Value()), now)
    {
      if state.Reachable? {
        if now <= confirmed + parms.reachable {
        } else if now <= used + parms.delay {
          state := Delay;
          Suspect();
        } else {
          state := Stale;
          Suspect();
        }
      } else if state.Delay? {
        if now <= confirmed + parms.delay {
          state := Reachable;
          Connect();
        } else {
          state := Probe;
          probes, asked := 0, [];
        }
      }
    }

    /** Arms the timer again and sends the next solicitation, if there is to be one. */
    method Rearm()
      modifies `pending, `refcnt, `probes, `asked
      ensures Value() == Rearmed(old(Value()))
    {
      if InTimer(state) {
        if !pending { refcnt := refcnt + 1; }
        pending := true;
      }
      if Probing(state) { SendProbe(probes, asked); }
    }

    /** Gives the entry up if the probes are spent. */
    method Conclude()
      modifies `state, `pending, `refcnt, `probes, `asked
      ensures Value() == Concluded(old(Value()))
    {
      if Probing(state) && probes >= MaxProbes(parms, state) { state := Failed; } else { Rearm(); }
    }

    /** The timer goes off; its reference is the handler's from now on. */
    method TimerExpires()
      requires Valid() && pending && !firing
      modifies this
      ensures Valid() && Value() == Expired(old(Value())) && refcnt == old(refcnt) && firing && !pending
    {
      StepSound(Value(), Expire);
      pending := false;
      firing := true;
    }

    /** The handler has the lock; it gives its reference up at the end. */
    method TimerHandler(now: int)
      requires Valid() && firing
      modifies this
      ensures Valid() && Value() == Handled(old(Value()), now)
      ensures use == old(use) && !firing && bugs == old(bugs)
      ensures pending <==> old(pending) || (use.linked && InTimer(state))
      ensures use.linked ==> output == OutputFor(ops, state) && refcnt == 1 + One(pending) + use.holders + |bugs|
      ensures TimerLeads(old(Value()), state, now) && ha == old(ha) && used == old(used) && confirmed == old(confirmed)
    {
      HandleSound(Value(), now);
      HandleLeads(Value(), now);
      RunHandler(now);
    }

    method RunHandler(now: int)
      modifies this
      ensures Value() == Handled(old(Value()), now)
    {
      firing := false;
      BringOn(now);
      Put();
    }

    /** What the handler does to an entry that waits for it. */
    method BringOn(now: int)
      modifies `state, `output, `pending, `refcnt, `probes, `asked
      ensures Value() == BroughtOn(old(Value()), now)
    {
      if InTimer(state) {
        Age(now);
        Conclude();
      }
    }

    /**
     A packet is to go out.  A live entry is then in hand, unless it was waiting for a
     timer that is not armed.
     */
    method EventSend(now: int)
      requires Valid() && !use.isNew
      modifies this
      ensures Valid() && Value() == Send(old(Value()), now)
      ensures use == old(use) && (Attended(Value()) <==> old(Attended(Value())))
      ensures use.linked ==> (InHand(Value()) <==> !(old(state).Incomplete? && !old(pending) && !old(firing)))
      ensures use.linked ==> output == OutputFor(ops, state) && (Connected(old(state)) ==> state == old(state))
      ensures used == now && ha == old(ha) && confirmed == old(confirmed) && (use.linked ==> SendLeads(old(Value()), state))
    {
      SendSound(Value(), now);
      SendNotes(Value(), now);
      used := now;
      if Connected(state) || state.Delay? || state.Probe? { return; }
      if dead { return; }
      if !(state.Stale? || state.Incomplete?) {
        if parms.mcast + parms.app > 0 { Resolve(); } else { state := Failed; }
      } else if state.Stale? {
        Doubt();
      }
    }

    /** The entry is in use again without having been confirmed. */
    method Doubt()
      modifies `state, `refcnt, `pending, `destroyed, `bugs
      ensures Value() == old(Value()).(state := Delay, refs := AddTimer(DelTimer(old(Links()), old(state))))
    {
      Retime(Delay);
      state := Delay;
    }

    /** Begins to resolve the address. */
    method Resolve()
      modifies this
      ensures Value() == Resolving(old(Value()))
    {
      Retime(Incomplete);
      state := Incomplete;
      SendProbe(parms.ucast, []);
    }

    /** The address has been confirmed by the upper layers. */
    method Confirmed(now: int)
      requires Valid() && !use.isNew
      modifies this
      ensures Valid() && Value() == Apply(old(Value()), Confirm(now))
      ensures confirmed == now && use.linked == old(use.linked) && state == old(state) && refcnt == old(refcnt)
    {
      confirmed := now;
    }

    /** A live failed entry gets one more period of waiting, with no probe left to send. */
    method SetProbeOnce()
      requires Valid() && !use.isNew && use.holders > 0
      modifies this
      ensures Valid() && Value() == ProbeOnce(old(Value()))
      ensures if use.linked && old(state).Failed? then pending && state.Incomplete? && probes == MaxProbes(parms, state)
              else Value() == old(Value())
    {
      StepSound(Value(), DoProbeOnce);
      if dead || !state.Failed? { return; }
      state := Incomplete;
      probes := MaxProbes(parms, state);
      StartTimer();
    }

    /** Moves to another state, with its timer. */
    method ChangeState(goal: Nud)
      modifies this
      ensures Value() == Restate(old(Value()), goal)
    {
      if goal != state {
        Retime(goal);
        state := goal;
        if goal.Probe? { probes, asked := 0, []; }
      }
    }

    /** The address and the output. */
    method Finish(same: bool, addr: int, changed: bool, now: int)
      modifies `ha, `confirmed, `output
      ensures Value() == Finished(old(Value()), same, addr, changed, now)
    {
      if !same {
        ha := addr;
        if !Connected(state) { confirmed := now - 2 * parms.base; }
      }
      if !changed { return; }
      if Connected(state) { Connect(); } else { Suspect(); }
    }

    /** The last part of an update. */
    method Settle(same: bool, addr: int, goal: Nud, now: int)
      modifies this
      ensures Value() == Settled(old(Value()), same, addr, goal, now)
    {
      var changed := goal != state;
      ChangeState(goal);
      Finish(same, addr, changed, now);
    }

    /** Compares the proposed address with the cached one; nothing means the request is discarded. */
    method CompareAddress(lladdr: Option<int>) returns (r: Option<(bool, int)>)
      ensures r.None? <==> needsAddr && lladdr.None? && !Usable(state)
      ensures r.Some? ==> var same := !needsAddr || lladdr.None? || (Usable(state) && lladdr.value == ha);
                          r.value == (same, if same then ha else lladdr.value)
    {
      if !needsAddr { return Some((true, ha)); }
      if lladdr.Some? {
        if Usable(state) && lladdr.value == ha { return Some((true, ha)); }
        return Some((false, lladdr.value));
      }
      if !Usable(state) { return None; }
      return Some((true, ha));
    }

    /** Decides what an update with this address makes of the entry. */
    method Decide(same: bool, addr: int, goal: Nud, flags: Flags) returns (plan: Plan)
      ensures plan == if !Usable(state) then Plan.Settle(same, addr, goal)
                      else if !same && !flags.override then
                        (if flags.weakOverride && Connected(state) then Plan.Settle(true, ha, Stale) else Ignore)
                      else Plan.Settle(same, addr, if same && goal.Stale? && !flags.admin then state else goal)
    {
      if Usable(state) {
        if !same && !flags.override {
          if !(flags.weakOverride && Connected(state)) { return Ignore; }
          return Plan.Settle(true, ha, Stale);
        } else if same && goal.Stale? && !flags.admin {
          return Plan.Settle(same, addr, state);
        }
      }
      return Plan.Settle(same, addr, goal);
    }

    /** What an update is to do, unless it has no address to go by. */
    method PlanUpdate(lladdr: Option<int>, goal: Nud, flags: Flags) returns (plan: Option<Plan>)
      ensures plan.None? <==> needsAddr && lladdr.None? && !Usable(state)
      ensures plan.Some? ==> plan.value == PlanFor(Value(), lladdr, goal, flags)
    {
      var compared := CompareAddress(lladdr);
      if compared.None? { return None; }
      var decided := Decide(compared.value.0, compared.value.1, goal, flags);
      return Some(decided);
    }

    /** An update to a state in which the address is usable. */
    method Amend(lladdr: Option<int>, goal: Nud, flags: Flags, now: int) returns (err: Answer)
      modifies this
      ensures Value() == Amended(old(Value()), lladdr, goal, flags, now)
      ensures err == if !Usable(old(state)) && needsAddr && lladdr.None? then Invalid else Success
    {
      var plan := PlanUpdate(lladdr, goal, flags);
      if plan.None? { return Invalid; }
      if Connected(goal) { confirmed := now; }
      if plan.value.Settle? { Settle(plan.value.same, plan.value.ha, plan.value.state, now); }
      return Success;
    }

    method Invalidate(goal: Nud)
      modifies this
      ensures Value() == Invalidated(old(Value()), goal)
    {
      var was := state;
      StopTimer();
      if Connected(was) { Suspect(); }
      state := goal;
    }

    /** Carries an update out, or refuses it. */
    method ApplyUpdate(lladdr: Option<int>, goal: Nud, flags: Flags, now: int) returns (err: Answer)
      modifies this
      ensures Value() == Update(old(Value()), lladdr, goal, flags, now)
      ensures err == AnswerTo(old(Value()), lladdr, goal, flags)
    {
      err := NotPermitted;
      if !flags.admin && (state.NoArp? || state.Permanent?) { return; }
      if dead { return; }
      if !Usable(goal) {
        Invalidate(goal);
        return Success;
      }
      err := Amend(lladdr, goal, flags, now);
    }

    /** The generic update routine. */
    method UpdateEntry(lladdr: Option<int>, goal: Nud, flags: Flags, now: int) returns (err: Answer)
      requires Valid() && !use.isNew && use.holders > 0
      modifies this
      ensures Valid() && Value() == Update(old(Value()), lladdr, goal, flags, now)
      ensures err == AnswerTo(old(Value()), lladdr, goal, flags)
      ensures use == old(use)
      ensures if !err.Success? then Value() == old(Value())
              else if Usable(goal) then Usable(state) else state == goal && (pending <==> Loose(old(Value())))
      ensures use.linked ==> output == OutputFor(ops, state) && refcnt == 1 + One(pending) + One(firing) + use.holders + |bugs|
    {
      UpdateSound(Value(), lladdr, goal, flags, now);
      err := ApplyUpdate(lladdr, goal, flags, now);
    }
  }
}
