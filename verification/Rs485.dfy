/**
 Software RS485: switching the line driver around a transmission, with a delay
 before and after kept by two timers that may go off when they are no longer wanted.
 */
module Rs485 {

  datatype Timer = NoTimer | StartTimer | StopTimer

  /**
   `thri` is the transmit interrupt, `driving` whether the line driver is switched to
   sending.  `startSet` and `stopSet` say that a timer is running, wanted or not.
   */
  datatype Port = Port(
    delayBefore: nat, delayAfter: nat, rxDuringTx: bool,
    thri: bool, active: Timer, txStopped: bool, driving: bool, receiving: bool, startSet: bool, stopSet: bool)

  // ----------------------------------------------- what operations amount to

  /** Switches the line to receiving. */
  function LineOff(p: Port): Port {
    p.(driving := false, receiving := p.receiving || !p.rxDuringTx)
  }

  function LineOn(p: Port): Port {
    p.(driving := true, receiving := p.receiving && p.rxDuringTx)
  }

  /** Sends by interrupt, unless a DMA engine takes the data. */
  function Transmit(p: Port, byDma: bool): Port {
    if byDma then p else p.(thri := true)
  }

  function Init(p: Port): Port {
    LineOff(p.(active := NoTimer, txStopped := true, startSet := false, stopSet := false))
  }

  function StartTx(p: Port, byDma: bool): Port {
    if p.active == StartTimer then p
    else if !p.txStopped then Transmit(p.(active := NoTimer), byDma)
    else if p.delayBefore > 0 then LineOn(p.(active := StartTimer, txStopped := false, startSet := true))
    else Transmit(LineOn(p.(active := NoTimer, txStopped := false)), byDma)
  }

  /** Nothing happens until the last byte has left the shift register. */
  function StopTx(p: Port, bothEmpty: bool): Port {
    if !bothEmpty then p
    else if p.delayAfter > 0 then p.(active := StopTimer, stopSet := true, thri := false)
    else LineOff(p.(active := NoTimer, txStopped := true, thri := false))
  }

  function StartFires(p: Port, byDma: bool): Port {
    var q := p.(startSet := false);
    if p.active == StartTimer then Transmit(q, byDma).(active := NoTimer) else q
  }

  function StopFires(p: Port): Port {
    var q := p.(stopSet := false);
    if p.active == StopTimer then LineOff(q).(active := NoTimer, txStopped := true) else q
  }

  // ------------------------------------------------------------ invariant

  ghost predicate Safe(p: Port) {
    && (p.thri ==> !p.txStopped)
    && (p.active == StartTimer ==> !p.thri && !p.txStopped && p.startSet)
    && (p.active == StopTimer ==> !p.thri && p.stopSet)
    && (p.driving <==> !p.txStopped)
    && (!p.rxDuringTx ==> (p.receiving <==> !p.driving))
  }

  datatype Step = Start(byDma: bool) | Stop(bothEmpty: bool) | StartExpires(byDma: bool) | StopExpires

  predicate Enabled(p: Port, s: Step) {
    match s
    case StartExpires(_) => p.startSet
    case StopExpires => p.stopSet
    case _ => true
  }

  function Apply(p: Port, s: Step): Port {
    match s
    case Start(byDma) => StartTx(p, byDma)
    case Stop(bothEmpty) => StopTx(p, bothEmpty)
    case StartExpires(byDma) => StartFires(p, byDma)
    case StopExpires => StopFires(p)
  }

  datatype History = Fresh(port: Port) | Then(before: History, step: Step)

  /** Emulation switched on while the transmit interrupt is off, then any steps. */
  ghost predicate Leads(h: History, p: Port) {
    match h
    case Fresh(port) => !port.thri && p == Init(port)
    case Then(before, step) => exists q :: Leads(before, q) && Enabled(q, step) && p == Apply(q, step)
  }

  /** Switching on is safe exactly if the transmit interrupt is off. */
  lemma {:induction false} InitSafe(p: Port)
    ensures Safe(Init(p)) <==> !p.thri
  {}

  lemma {:induction false} StartSafe(p: Port, byDma: bool)
    requires Safe(p)
    ensures Safe(StartTx(p, byDma))
  {}

  lemma {:induction false} StopSafe(p: Port, bothEmpty: bool)
    requires Safe(p)
    ensures Safe(StopTx(p, bothEmpty))
  {}

  lemma {:induction false} ExpirySafe(p: Port, byDma: bool)
    requires Safe(p)
    ensures Safe(StartFires(p, byDma)) && Safe(StopFires(p))
  {}

  /** The phases hold over every interleaving of requests and expiries. */
  lemma {:induction false} RunSafe(h: History, p: Port)
    requires Leads(h, p)
    ensures Safe(p)
  {
    match h
    case Fresh(port) => InitSafe(port);
    case Then(before, step) =>
      var q :| Leads(before, q) && Enabled(q, step) && p == Apply(q, step);
      RunSafe(before, q);
      match step
      case Start(byDma) => StartSafe(q, byDma);
      case Stop(bothEmpty) => StopSafe(q, bothEmpty);
      case StartExpires(byDma) => ExpirySafe(q, byDma);
      case StopExpires => ExpirySafe(q, false);
  }

  /** Data goes out only while the driver is on, and never in either delay. */
  lemma {:induction false} SendsOnlyDriven(h: History, p: Port)
    requires Leads(h, p) && p.thri
    ensures p.driving && !p.txStopped && p.active == NoTimer
  {
    RunSafe(h, p);
  }

  /** Reception that is wanted throughout is never switched, and otherwise is on exactly while the driver is off. */
  lemma {:induction false} Receives(h: History, p: Port, s: Step)
    requires Leads(h, p) && Enabled(p, s)
    ensures var q := Apply(p, s); q.receiving == if p.rxDuringTx then p.receiving else !q.driving
  {
    RunSafe(h, p);
    RunSafe(Then(h, s), Apply(p, s));
  }

  /** A start takes the line at once, and the data goes out at once or when the delay before it is over. */
  lemma {:induction false} StartTakesEffect(h: History, p: Port)
    requires Leads(h, p) && !p.driving
    ensures var q := Apply(p, Start(false));
            && q.driving
            && (if p.delayBefore == 0 then q.thri
                else !q.thri && q.startSet && Apply(q, StartExpires(false)).thri && Apply(q, StartExpires(false)).driving)
  {
    RunSafe(h, p);
  }

  /** A stop ends the sending at once, and lets the line go at once or when the delay after it is over. */
  lemma {:induction false} StopLetsGo(h: History, p: Port)
    requires Leads(h, p)
    ensures var q := Apply(p, Stop(true));
            && !q.thri && q.receiving == (p.receiving || (p.delayAfter == 0 && !p.rxDuringTx))
            && (if p.delayAfter == 0 then !q.driving
                else q.driving == p.driving && q.stopSet && !Apply(q, StopExpires).driving)
  {
    RunSafe(h, p);
  }

  /** Steps one after the other; an expiry of a timer that is not set does not occur. */
  ghost function After(p: Port, steps: seq<Step>): Port
    decreases |steps|
  {
    if steps == [] then p
    else After(if Enabled(p, steps[0]) then Apply(p, steps[0]) else p, steps[1..])
  }

  /** A stop that finds data still in the shift register does nothing. */
  predicate Stopping(s: Step) {
    s.Stop? && s.bothEmpty
  }

  /**
   A transmission under way, by interrupt or by DMA, goes on until it is stopped: no
   start and no expiry, of whichever timer and however old, turns the driver off.
   */
  lemma {:induction false} DrivesUntilStopped(h: History, p: Port, steps: seq<Step>)
    requires Leads(h, p) && p.driving && p.active != StopTimer
    requires forall i :: 0 <= i < |steps| ==> !Stopping(steps[i])
    ensures var q := After(p, steps); q.driving && q.active != StopTimer && (p.thri ==> q.thri)
    decreases |steps|
  {
    RunSafe(h, p);
    if steps != [] {
      if Enabled(p, steps[0]) {
        DrivesUntilStopped(Then(h, steps[0]), Apply(p, steps[0]), steps[1..]);
      } else {
        DrivesUntilStopped(h, p, steps[1..]);
      }
    }
  }

  /** Without a new start a driver that is off stays off. */
  lemma {:induction false} StaysOff(h: History, p: Port, steps: seq<Step>)
    requires Leads(h, p) && !p.driving
    requires forall i :: 0 <= i < |steps| ==> !steps[i].Start?
    ensures !After(p, steps).driving
    decreases |steps|
  {
    RunSafe(h, p);
    if steps != [] {
      if Enabled(p, steps[0]) {
        StaysOff(Then(h, steps[0]), Apply(p, steps[0]), steps[1..]);
      } else {
        StaysOff(h, p, steps[1..]);
      }
    }
  }

  /** Once stopped, and not started again, a transmission has its driver turned off when the timer expires. */
  lemma {:induction false} StopTakesEffect(h: History, p: Port, steps: seq<Step>)
    requires Leads(h, p) && p.active == StopTimer
    requires (forall i :: 0 <= i < |steps| ==> !steps[i].Start?) && StopExpires in steps
    ensures !After(p, steps).driving
    decreases |steps|
  {
    RunSafe(h, p);
    var q := Apply(p, steps[0]);
    if !Enabled(p, steps[0]) {
      StopTakesEffect(h, p, steps[1..]);
    } else if q.driving || q.active == StopTimer {
      StopTakesEffect(Then(h, steps[0]), q, steps[1..]);
    } else {
      StaysOff(Then(h, steps[0]), q, steps[1..]);
    }
  }

  // ------------------------------------------------------------- the driver

  /**
   The port with its registers and the emulation's state, which the operations update
   in place.  `Valid` says that data goes out only while the line is driven and
   outside both delays, and that a delay's timer is running.
   */
  class Uart {
    const delayBefore: nat
    const delayAfter: nat
    const rxDuringTx: bool
    var thri: bool
    var active: Timer
    var txStopped: bool
    var driving: bool
    var receiving: bool
    var startSet: bool
    var stopSet: bool

    ghost function Value(): Port
      reads this
    {
      Port(delayBefore, delayAfter, rxDuringTx, thri, active, txStopped, driving, receiving, startSet, stopSet)
    }

    ghost predicate Valid()
      reads this
    {
      Safe(Value())
    }

    method LineStop()
      modifies `driving, `receiving
      ensures Value() == LineOff(old(Value()))
    {
      driving := false;
      if !rxDuringTx { receiving := true; }
    }

    method LineStart()
      modifies `driving, `receiving
      ensures Value() == LineOn(old(Value()))
    {
      if !rxDuringTx { receiving := false; }
      driving := true;
    }

    /** Switches the emulation on, which is sound exactly if nothing is being sent. */
    method Em485Init()
      modifies this
      ensures Valid() <==> !old(thri)
      ensures Value() == Init(old(Value()))
      ensures !driving && active == NoTimer && receiving == (old(receiving) || !rxDuringTx) && thri == old(thri)
      ensures !startSet && !stopSet
    {
      startSet, stopSet := false, false;
      active := NoTimer;
      txStopped := true;
      LineStop();
    }

    method SetThri(byDma: bool)
      modifies `thri
      ensures Value() == Transmit(old(Value()), byDma)
    {
      if byDma { return; }
      if !thri { thri := true; }
    }

    /** Afterwards the line is driven, and either data goes out or the delay before it runs. */
    method StartTransmission(byDma: bool)
      requires Valid()
      modifies this
      ensures Valid() && Value() == StartTx(old(Value()), byDma)
      ensures driving && receiving == (old(receiving) && rxDuringTx) && stopSet == old(stopSet)
      ensures if old(active) == StartTimer || (!old(driving) && delayBefore > 0) then active == StartTimer && startSet && !thri
              else active == NoTimer && thri == (old(thri) || !byDma) && startSet == old(startSet)
    {
      if active == StartTimer { return; }
      active := NoTimer;
      if txStopped {
        txStopped := false;
        LineStart();
        if delayBefore > 0 {
          active := StartTimer;
          startSet := true;
          return;
        }
      }
      SetThri(byDma);
    }

    /** Once the last byte is out nothing more is sent, and the line is let go at once or after the delay. */
    method StopTransmission(bothEmpty: bool)
      requires Valid()
      modifies this
      ensures Valid() && Value() == StopTx(old(Value()), bothEmpty)
      ensures if !bothEmpty then Value() == old(Value())
              else !thri && if delayAfter > 0 then active == StopTimer && stopSet && driving == old(driving) && receiving == old(receiving)
                            else active == NoTimer && !driving && receiving == (old(receiving) || !rxDuringTx)
    {
      if !bothEmpty { return; }
      if delayAfter > 0 {
        active := StopTimer;
        stopSet := true;
      } else {
        LineStop();
        active := NoTimer;
        txStopped := true;
      }
      if thri { thri := false; }
    }

    /** The delay before sending is over; it never touches the line, and a stale expiry nothing at all. */
    method HandleStartTx(byDma: bool)
      requires Valid() && startSet
      modifies this
      ensures Valid() && Value() == StartFires(old(Value()), byDma)
      ensures driving == old(driving) && receiving == old(receiving) && active != StartTimer && !startSet
      ensures if old(active) == StartTimer then driving && active == NoTimer && thri == !byDma
              else thri == old(thri) && active == old(active)
    {
      startSet := false;
      if active == StartTimer {
        SetThri(byDma);
        active := NoTimer;
      }
    }

    /** The delay after sending is over; the line is let go exactly if the stop is still wanted. */
    method HandleStopTx()
      requires Valid() && stopSet
      modifies this
      ensures Valid() && Value() == StopFires(old(Value()))
      ensures thri == old(thri) && active != StopTimer && !stopSet
      ensures if old(active) == StopTimer then !driving && !thri && active == NoTimer && receiving == (old(receiving) || !rxDuringTx)
              else driving == old(driving) && receiving == old(receiving) && active == old(active)
    {
      stopSet := false;
      if active == StopTimer {
        LineStop();
        active := NoTimer;
        txStopped := true;
      }
    }
  }
}
