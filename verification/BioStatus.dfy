/**
 What holds over every interleaving of chained completions: a root ends once and
 after everything below it, and an error it reports is one that occurred.  Whether an
 error that occurred is reported depends on the interleaving; this says exactly how.
 */
module BioStatus {
  import opened BioChain

  // ---------------------------------------------------------------- status

  /** Some bio at or below `i` was ended with an error. */
  ghost predicate Failed(bs: Bios, i: int)
    requires Sound(bs)
  {
    exists j :: 0 <= j < |bs| && Under(bs, j, i) && bs[j].error != 0
  }

  /** On the way from `j` up to `i` no status stands erased. */
  ghost predicate Clear(bs: Bios, j: int, i: int)
    requires Sound(bs) && 0 <= j < |bs|
    decreases bs[j].rank
  {
    !bs[j].erased && (j == i || (assert Right(bs, j); bs[j].parent >= 0 && Clear(bs, bs[j].parent, i)))
  }

  /** Some bio at or below `i` failed, and its error was not erased on the way. */
  ghost predicate Survives(bs: Bios, i: int)
    requires Sound(bs)
  {
    exists j :: 0 <= j < |bs| && Clear(bs, j, i) && bs[j].error != 0
  }

  lemma {:induction false} ClearUnder(bs: Bios, j: int, i: int)
    requires Sound(bs) && 0 <= j < |bs| && 0 <= i < |bs| && Clear(bs, j, i)
    ensures Under(bs, j, i) && !bs[i].erased
    decreases bs[j].rank
  {
    assert Right(bs, j);
    if j != i { ClearUnder(bs, bs[j].parent, i); }
  }

  lemma {:induction false} ClearVia(bs: Bios, j: int, c: int, i: int)
    requires Sound(bs) && 0 <= j < |bs| && 0 <= c < |bs| && Clear(bs, j, c) && bs[c].parent == i && 0 <= i < |bs| && !bs[i].erased
    ensures Clear(bs, j, i)
    decreases bs[j].rank
  {
    assert Right(bs, j);
    if j != c {
      ClearVia(bs, bs[j].parent, c, i);
    } else {
      assert Clear(bs, i, i);
    }
  }

  lemma {:induction false} StatusClimbs(bs: Bios, j: int, i: int)
    requires Sound(bs) && 0 <= j < |bs| && 0 <= i < |bs| && bs[i].stage.Done? && Clear(bs, j, i) && bs[j].status != 0
    ensures bs[i].status != 0
    decreases bs[j].rank
  {
    if j != i {
      assert Right(bs, j);
      var p := bs[j].parent;
      ClearUnder(bs, j, i);
      DoneBelow(bs, j, i);
      assert Right(bs, p) && IsBad(bs[j], p);
      assert !bs[p].erased;
      StatusClimbs(bs, p, i);
    }
  }

  lemma {:induction false} StatusComes(bs: Bios, i: int, r: int)
    requires Sound(bs) && RankBelow(bs, r) && 0 <= i < |bs| && bs[i].status != 0
    ensures Survives(bs, i)
    decreases r - bs[i].rank
  {
    assert Right(bs, i);
    assert Clear(bs, i, i);
    if bs[i].error == 0 {
      var c :| 0 <= c < |bs| && IsBad(bs[c], i);
      assert Right(bs, c);
      StatusComes(bs, c, r);
      var j :| 0 <= j < |bs| && Clear(bs, j, c) && bs[j].error != 0;
      ClearVia(bs, j, c, i);
    }
  }

  /** A finished bio reports an error exactly if some failure at or below it was not erased on the way. */
  lemma {:induction false} FinalStatus(bs: Bios, i: int)
    requires Sound(bs) && 0 <= i < |bs| && bs[i].stage.Done?
    ensures bs[i].status != 0 <==> Survives(bs, i)
  {
    if bs[i].status != 0 {
      SomeBound(bs);
      var r :| RankBelow(bs, r);
      StatusComes(bs, i, r);
    }
    if Survives(bs, i) {
      var j :| 0 <= j < |bs| && Clear(bs, j, i) && bs[j].error != 0;
      assert Right(bs, j);
      StatusClimbs(bs, j, i);
    }
  }

  /** What survives has failed, and if nothing stands erased every failure survives. */
  lemma {:induction false} SurvivesFailed(bs: Bios, i: int)
    requires Sound(bs) && 0 <= i < |bs|
    ensures Survives(bs, i) ==> Failed(bs, i)
    ensures (forall k :: 0 <= k < |bs| ==> !bs[k].erased) ==> (Survives(bs, i) <==> Failed(bs, i))
  {
    if Survives(bs, i) {
      var j :| 0 <= j < |bs| && Clear(bs, j, i) && bs[j].error != 0;
      ClearUnder(bs, j, i);
    }
    if Failed(bs, i) && (forall k :: 0 <= k < |bs| ==> !bs[k].erased) {
      var j :| 0 <= j < |bs| && Under(bs, j, i) && bs[j].error != 0;
      UnderClear(bs, j, i);
    }
  }

  lemma {:induction false} UnderClear(bs: Bios, j: int, i: int)
    requires Sound(bs) && 0 <= j < |bs| && 0 <= i < |bs| && Under(bs, j, i) && forall k :: 0 <= k < |bs| ==> !bs[k].erased
    ensures Clear(bs, j, i)
    decreases bs[j].rank
  {
    assert Right(bs, j);
    if j != i { UnderClear(bs, bs[j].parent, i); }
  }

  // ------------------------------------------------------------ whole runs

  datatype Step = DoChain(c: int, p: int) | DoReport(i: int, status: int) | DoCall(i: int) | DoTurn(i: int) | DoTest(i: int) | DoStore(i: int)

  datatype History = Start(ranks: seq<nat>) | Then(before: History, step: Step)

  predicate Enabled(bs: Bios, step: Step) {
    match step
    case DoChain(c, p) => CanChain(bs, c, p)
    case DoReport(i, _) => CanReport(bs, i)
    case DoCall(i) => 0 <= i < |bs| && !bs[i].called
    case DoTurn(i) => Turns(bs, i)
    case DoTest(i) => Tests(bs, i)
    case DoStore(i) => Stores(bs, i)
  }

  function Apply(bs: Bios, step: Step): Bios
    requires Enabled(bs, step)
  {
    match step
    case DoChain(c, p) => Chain(bs, c, p)
    case DoReport(i, v) => Report(bs, i, v)
    case DoCall(i) => Call(bs, i)
    case DoTurn(i) => Turn(bs, i)
    case DoTest(i) => Test(bs, i)
    case DoStore(i) => Store(bs, i)
  }

  ghost predicate Leads(h: History, bs: Bios) {
    match h
    case Start(ranks) => |bs| == |ranks| && forall i :: 0 <= i < |bs| ==> bs[i] == NewBio(ranks[i])
    case Then(before, step) => exists b :: Leads(before, b) && Enabled(b, step) && bs == Apply(b, step)
  }

  lemma {:induction false} NewSound(bs: Bios, ranks: seq<nat>)
    requires |bs| == |ranks| && forall i :: 0 <= i < |bs| ==> bs[i] == NewBio(ranks[i])
    ensures Sound(bs)
  {
    forall i | 0 <= i < |bs| ensures Right(bs, i) { OpenNone(bs, i, |bs|); }
  }

  lemma {:induction false} StepSound(bs: Bios, step: Step)
    requires Sound(bs) && Enabled(bs, step)
    ensures Sound(Apply(bs, step))
  {
    match step
    case DoChain(c, p) => ChainSound(bs, c, p);
    case DoReport(i, v) => ReportSound(bs, i, v);
    case DoCall(i) => CallSound(bs, i);
    case DoTurn(i) => TurnSound(bs, i);
    case DoTest(i) => TestSound(bs, i);
    case DoStore(i) => StoreSound(bs, i);
  }

  lemma {:induction false} RunSound(h: History, bs: Bios)
    requires Leads(h, bs)
    ensures Sound(bs)
  {
    match h
    case Start(ranks) => NewSound(bs, ranks);
    case Then(before, step) =>
      var b :| Leads(before, b) && Enabled(b, step) && bs == Apply(b, step);
      RunSound(before, b);
      StepSound(b, step);
  }

  predicate Did(h: History, step: Step) {
    h.Then? && (h.step == step || Did(h.before, step))
  }

  /** The status that the driver of `i` stored last. */
  function Reported(h: History, i: int): int {
    if h.Start? then 0 else if h.step.DoReport? && h.step.i == i then h.step.status else Reported(h.before, i)
  }

  /** What `i` was chained to, or none. */
  function ChainedTo(h: History, i: int): int {
    if h.Start? then -1 else if h.step.DoChain? && h.step.c == i then h.step.p else ChainedTo(h.before, i)
  }

  ghost predicate Told(h: History, b: Bio, i: int) {
    b.parent == ChainedTo(h, i) && b.error == Reported(h, i) && (b.called <==> Did(h, DoCall(i)))
  }

  lemma {:induction false} StepSize(bs: Bios, step: Step)
    requires Enabled(bs, step)
    ensures |Apply(bs, step)| == |bs|
  {}

  lemma {:induction false} StepKeeps(bs: Bios, step: Step, i: int)
    requires Enabled(bs, step) && 0 <= i < |bs|
    ensures var c := Apply(bs, step);
            && |c| == |bs| && c[i].parent == (if step.DoChain? && step.c == i then step.p else bs[i].parent)
            && c[i].error == (if step.DoReport? && step.i == i then step.status else bs[i].error)
            && (c[i].called <==> bs[i].called || step == DoCall(i))
  {
    match step
    case DoChain(_, _) =>
    case DoReport(_, _) =>
    case DoCall(_) =>
    case DoTurn(_) =>
    case DoTest(_) =>
    case DoStore(_) =>
  }

  /** The tree is the one that was chained, and the errors are those the drivers reported. */
  lemma {:induction false} HistoryTells(h: History, bs: Bios, i: int)
    requires Leads(h, bs) && 0 <= i < |bs|
    ensures Told(h, bs[i], i)
  {
    if h.Then? {
      var b :| Leads(h.before, b) && Enabled(b, h.step) && bs == Apply(b, h.step);
      StepSize(b, h.step);
      StepKeeps(b, h.step, i);
      HistoryTells(h.before, b, i);
    }
  }

  lemma {:induction false} TurnsRun(h: History, bs: Bios, i: int) returns (k: History)
    requires Leads(h, bs) && Sound(bs) && Turns(bs, i)
    ensures Leads(k, EndRecursively(bs, i))
    decreases bs[i].rank
  {
    var cs := Turn(bs, i);
    TurnSound(bs, i);
    assert Right(bs, i);
    k := Then(h, DoTurn(i));
    assert Enabled(bs, DoTurn(i)) && Leads(k, cs);
    if Tests(cs, i) {
      HandOnSound(cs, i);
      HandOnRuns(k, cs, i);
      k := TurnsRun(Then(Then(k, DoTest(i)), DoStore(i)), HandOn(cs, i), bs[i].parent);
    }
  }

  lemma {:induction false} HandOnRuns(h: History, bs: Bios, i: int)
    requires Leads(h, bs) && Tests(bs, i)
    ensures Leads(Then(Then(h, DoTest(i)), DoStore(i)), HandOn(bs, i))
  {
    assert Enabled(bs, DoTest(i)) && Leads(Then(h, DoTest(i)), Test(bs, i));
    assert Enabled(Test(bs, i), DoStore(i));
  }

  /** Ending a bio in one go is one of the histories, so that what holds of all of them holds of it. */
  lemma {:induction false} EndingRuns(h: History, bs: Bios, i: int) returns (k: History)
    requires Leads(h, bs) && 0 <= i < |bs| && !bs[i].called
    ensures Sound(Call(bs, i)) && Turns(Call(bs, i), i) && Leads(k, EndRecursively(Call(bs, i), i))
  {
    RunSound(h, bs);
    CalledEnded(bs, i);
    assert Enabled(bs, DoCall(i)) && Leads(Then(h, DoCall(i)), Call(bs, i));
    k := TurnsRun(Then(h, DoCall(i)), Call(bs, i), i);
  }

  /**
   Whatever the order of the accesses: the end function of a root runs at most
   once, and only when everything below has finished; an error it then reports is an
   error that occurred, and it reports one exactly if one was not erased on its way;
   and once every bio was ended and no completion is on its way, it has run.
   */
  lemma {:induction false} RootEndsOnce(h: History, bs: Bios, i: int)
    requires Leads(h, bs) && 0 <= i < |bs| && bs[i].parent < 0
    ensures Sound(bs) && 0 <= bs[i].ended <= 1
    ensures bs[i].ended == 1 ==> (forall j :: 0 <= j < |bs| && Under(bs, j, i) ==> bs[j].stage.Done? && bs[j].called)
    ensures bs[i].ended == 1 ==> (bs[i].status != 0 <==> Survives(bs, i)) && (bs[i].status != 0 ==> Failed(bs, i))
    ensures Quiet(bs) && AllCalled(bs, i) ==> bs[i].ended == 1
  {
    RunSound(h, bs);
    assert Right(bs, i);
    if bs[i].stage.Done? {
      forall j | 0 <= j < |bs| && Under(bs, j, i) ensures bs[j].stage.Done? && bs[j].called { DoneBelow(bs, j, i); }
      FinalStatus(bs, i);
      SurvivesFailed(bs, i);
    }
    if Quiet(bs) && AllCalled(bs, i) {
      SomeBound(bs);
      var r :| RankBelow(bs, r);
      QuietDone(bs, i, r);
    }
  }

  /** A chained bio is freed at most once, when it and everything below it has finished. */
  lemma {:induction false} ChainedFreedOnce(h: History, bs: Bios, i: int)
    requires Leads(h, bs) && 0 <= i < |bs| && bs[i].parent >= 0
    ensures bs[i].puts == (if bs[i].stage.Done? then 1 else 0) && bs[i].ended == 0
  {
    RunSound(h, bs);
    assert Right(bs, i);
  }

  // ------------------------------------------------------ when errors are lost

  /**
   The step loses an error that stands.  A driver reports success over the error of a
   child; or a child that succeeded saw a zero and stores it over an error that has
   come since; or a child that failed stores nothing, having seen an error that has
   been taken back since.
   */
  ghost predicate Erases(bs: Bios, step: Step)
    requires Enabled(bs, step)
  {
    match step
    case DoReport(i, v) => v == 0 && BadChild(bs, i)
    case DoStore(i) => (bs[i].stage.zero <==> bs[i].status == 0) && (bs[i].stage.zero <==> bs[bs[i].parent].status != 0)
    case _ => false
  }

  function Target(bs: Bios, step: Step): int
    requires Enabled(bs, step)
  {
    match step
    case DoReport(i, _) => i
    case DoStore(i) => bs[i].parent
    case _ => -1
  }

  /** A status comes to stand erased by such a step and by no other. */
  lemma {:induction false} ErasedBy(bs: Bios, step: Step, k: int)
    requires Sound(bs) && Enabled(bs, step) && 0 <= k < |bs| && !bs[k].erased
    ensures |Apply(bs, step)| == |bs| && (Apply(bs, step)[k].erased <==> Erases(bs, step) && k == Target(bs, step))
  {
    if step.DoStore? { assert Right(bs, step.i) && Right(bs, bs[step.i].parent); }
  }

  /** No step of the history lost an error. */
  ghost predicate Undisturbed(h: History) {
    h.Then? ==> Undisturbed(h.before) && forall b :: Leads(h.before, b) && Enabled(b, h.step) ==> !Erases(b, h.step)
  }

  lemma {:induction false} NoneErased(h: History, bs: Bios)
    requires Leads(h, bs) && Undisturbed(h)
    ensures forall k :: 0 <= k < |bs| ==> !bs[k].erased
  {
    if h.Then? {
      var b :| Leads(h.before, b) && Enabled(b, h.step) && bs == Apply(b, h.step);
      NoneErased(h.before, b);
      RunSound(h.before, b);
      assert !Erases(b, h.step);
      forall k | 0 <= k < |bs| ensures !bs[k].erased {
        ErasedSize(b, h.step);
        ErasedBy(b, h.step, k);
      }
    }
  }

  lemma {:induction false} ErasedSize(bs: Bios, step: Step)
    requires Enabled(bs, step)
    ensures |Apply(bs, step)| == |bs|
  {}

  /** Without such a step, a finished root reports an error exactly if something in its tree failed. */
  lemma {:induction false} UndisturbedStatus(h: History, bs: Bios, i: int)
    requires Leads(h, bs) && Undisturbed(h) && 0 <= i < |bs| && bs[i].parent < 0 && bs[i].ended == 1
    ensures Sound(bs) && (bs[i].status != 0 <==> Failed(bs, i))
  {
    RootEndsOnce(h, bs, i);
    NoneErased(h, bs);
    SurvivesFailed(bs, i);
  }

  /** Every status says whether the driver or a finished child reported an error. */
  ghost predicate Informed(bs: Bios) {
    forall k :: 0 <= k < |bs| ==> InformedAt(bs, k)
  }

  ghost predicate InformedAt(bs: Bios, k: int)
    requires 0 <= k < |bs|
  {
    bs[k].status != 0 <==> bs[k].error != 0 || BadChild(bs, k)
  }

  lemma {:induction false} InformedUnlessErased(bs: Bios)
    requires Sound(bs)
    ensures Informed(bs) <==> forall k :: 0 <= k < |bs| ==> !bs[k].erased
  {
    forall k | 0 <= k < |bs| ensures InformedAt(bs, k) <==> !bs[k].erased {
      assert Right(bs, k);
    }
  }

  /** In every state of the history every status is right. */
  ghost predicate AlwaysInformed(h: History) {
    (forall bs :: Leads(h, bs) ==> Informed(bs)) && (h.Then? ==> AlwaysInformed(h.before))
  }

  /** The statuses are right throughout if and only if no step loses an error. */
  lemma {:induction false} InformedExactly(h: History)
    ensures AlwaysInformed(h) <==> Undisturbed(h)
  {
    if Undisturbed(h) {
      forall bs | Leads(h, bs) ensures Informed(bs) {
        NoneErased(h, bs);
        RunSound(h, bs);
        InformedUnlessErased(bs);
      }
    }
    if h.Then? {
      InformedExactly(h.before);
      forall b | AlwaysInformed(h) && Leads(h.before, b) && Enabled(b, h.step) ensures !Erases(b, h.step) {
        ErasureShows(h, b);
      }
    }
  }

  lemma {:induction false} ErasureShows(h: History, b: Bios)
    requires h.Then? && AlwaysInformed(h) && Leads(h.before, b) && Enabled(b, h.step)
    ensures !Erases(b, h.step)
  {
    RunSound(h.before, b);
    var bs := Apply(b, h.step);
    assert Leads(h, bs);
    StepSound(b, h.step);
    InformedUnlessErased(b);
    InformedUnlessErased(bs);
    if Erases(b, h.step) {
      var k := Target(b, h.step);
      TargetInside(b, h.step);
      ErasedBy(b, h.step, k);
    }
  }

  lemma {:induction false} TargetInside(bs: Bios, step: Step)
    requires Enabled(bs, step) && Erases(bs, step)
    ensures 0 <= Target(bs, step) < |bs|
  {}

  /** Every store directly follows its test, and drivers store only errors. */
  predicate Serial(h: History) {
    h.Then? ==>
      && Serial(h.before)
      && (h.step.DoStore? ==> h.before.Then? && h.before.step == DoTest(h.step.i))
      && (h.step.DoReport? ==> h.step.status != 0)
  }

  /** That is enough to lose nothing. */
  lemma {:induction false} SerialUndisturbed(h: History)
    requires Serial(h)
    ensures Undisturbed(h)
  {
    if h.Then? {
      SerialUndisturbed(h.before);
      forall b | Leads(h.before, b) && Enabled(b, h.step) ensures !Erases(b, h.step) {
        if h.step.DoStore? {
          var i := h.step.i;
          var a :| Leads(h.before.before, a) && Enabled(a, DoTest(i)) && b == Apply(a, DoTest(i));
          RunSound(h.before.before, a);
          assert Right(a, i);
        }
      }
    }
  }

  lemma {:induction false} OneMore(h: History, bs: Bios, step: Step, cs: Bios)
    requires Leads(h, bs) && Enabled(bs, step) && cs == Apply(bs, step)
    ensures Leads(Then(h, step), cs)
  {}

  /** Two children, one of which failed, have been ended by their drivers; so has the parent. */
  const ENDED: Bios := [
    Bio(-1, 0, 3, true, 0, false, true, 0, Waiting, 1, 0, 0),
    Bio(0, 1, 1, false, 0, false, true, 0, Waiting, 1, 0, 0),
    Bio(0, 1, 1, false, 5, false, true, 5, Waiting, 1, 0, 0)]

  /** They have been chained and the one has been reported as failed. */
  const CHAINED: Bios := [
    Bio(-1, 0, 3, true, 0, false, false, 0, Waiting, 0, 0, 0),
    Bio(0, 1, 1, false, 0, false, false, 0, Waiting, 0, 0, 0),
    Bio(0, 1, 1, false, 5, false, false, 5, Waiting, 0, 0, 0)]

  lemma {:induction false} ChainedReached() returns (h: History)
    ensures Leads(h, CHAINED)
  {
    var a, b, c := NewBio(0), NewBio(1), NewBio(1);
    h := Start([0, 1, 1]);
    assert Leads(h, [a, b, c]);
    var a1 := a.(chain := true, remaining := 2);
    OneMore(h, [a, b, c], DoChain(1, 0), [a1, CHAINED[1], c]);
    h := Then(h, DoChain(1, 0));
    var c1 := c.(parent := 0);
    OneMore(h, [a1, CHAINED[1], c], DoChain(2, 0), [CHAINED[0], CHAINED[1], c1]);
    h := Then(h, DoChain(2, 0));
    OneMore(h, [CHAINED[0], CHAINED[1], c1], DoReport(2, 5), CHAINED);
    h := Then(h, DoReport(2, 5));
  }

  lemma {:induction false} EndedReached() returns (h: History)
    ensures Leads(h, ENDED)
  {
    h := ChainedReached();
    h := ThreeCalled(h, CHAINED);
    EndedIs();
  }

  lemma {:induction false} EndedIs()
    ensures CalledAll(CHAINED) == ENDED
  {
    var c0 := Call(CHAINED, 0);
    assert c0 == [ENDED[0], CHAINED[1], CHAINED[2]];
    var c1 := Call(c0, 1);
    assert c1 == [ENDED[0], ENDED[1], CHAINED[2]];
  }

  /** Three bios after their drivers have ended them. */
  function CalledAll(bs: Bios): Bios
    requires |bs| == 3
  {
    Call(Call(Call(bs, 0), 1), 2)
  }

  lemma {:induction false} ThreeCalled(h0: History, bs: Bios) returns (h: History)
    requires |bs| == 3 && Leads(h0, bs) && !bs[0].called && !bs[1].called && !bs[2].called
    ensures Leads(h, CalledAll(bs))
  {
    OneMore(h0, bs, DoCall(0), Call(bs, 0));
    OneMore(Then(h0, DoCall(0)), Call(bs, 0), DoCall(1), Call(Call(bs, 0), 1));
    h := Then(Then(Then(h0, DoCall(0)), DoCall(1)), DoCall(2));
    OneMore(h.before, Call(Call(bs, 0), 1), DoCall(2), CalledAll(bs));
  }

  /** Both children have seen a zero. */
  const TESTED: Bios := [
    ENDED[0],
    Bio(0, 1, 1, false, 0, false, true, 0, Tested(true), 0, 0, 0),
    Bio(0, 1, 1, false, 5, false, true, 5, Tested(true), 0, 0, 0)]

  lemma {:induction false} TestedReached(h0: History) returns (h: History)
    requires Leads(h0, ENDED)
    ensures Leads(h, TESTED)
  {
    h := h0;
    var b, c := TESTED[1].(stage := Passed), TESTED[2].(stage := Passed);
    OneMore(h, ENDED, DoTurn(1), [ENDED[0], b, ENDED[2]]);
    h := Then(h, DoTurn(1));
    OneMore(h, [ENDED[0], b, ENDED[2]], DoTest(1), [ENDED[0], TESTED[1], ENDED[2]]);
    h := Then(h, DoTest(1));
    OneMore(h, [ENDED[0], TESTED[1], ENDED[2]], DoTurn(2), [ENDED[0], TESTED[1], c]);
    h := Then(h, DoTurn(2));
    OneMore(h, [ENDED[0], TESTED[1], c], DoTest(2), TESTED);
    h := Then(h, DoTest(2));
  }

  /** The failed one stores its error. */
  const STORED: Bios := [
    Bio(-1, 0, 3, true, 5, false, true, 0, Waiting, 2, 0, 0),
    Bio(0, 1, 1, false, 0, false, true, 0, Tested(true), 0, 0, 0),
    Bio(0, 1, 1, false, 5, false, true, 5, Done, 0, 0, 1)]

  lemma {:induction false} StoredReached(h0: History) returns (h: History)
    requires Leads(h0, TESTED)
    ensures Leads(h, STORED)
  {
    OneMore(h0, TESTED, DoStore(2), STORED);
    h := Then(h0, DoStore(2));
  }

  /** Then the other stores its zero. */
  lemma {:induction false} BothStored(h0: History) returns (h: History, bs: Bios)
    requires Leads(h0, STORED)
    ensures Leads(h, bs) && |bs| == 3 && bs[0] == ENDED[0].(erased := true, tokens := 3) && bs[2].error == 5 && bs[2].parent == 0
  {
    bs := [ENDED[0].(erased := true, tokens := 3), STORED[1].(stage := Done, puts := 1), STORED[2]];
    OneMore(h0, STORED, DoStore(1), bs);
    h := Then(h0, DoStore(1));
  }

  /** A root that ends with status zero although one of its children failed. */
  lemma {:induction false} ErrorLost()
    ensures exists h, bs: Bios :: Leads(h, bs) && Sound(bs) && |bs| == 3 && bs[0].ended == 1 && bs[0].status == 0 && Failed(bs, 0)
  {
    var h := EndedReached();
    h := TestedReached(h);
    var bs;
    h := StoredReached(h);
    h, bs := BothStored(h);
    var a1, a2 := bs[0].(tokens := 2, remaining := 2), bs[0].(tokens := 1, remaining := 1);
    var a3 := bs[0].(tokens := 0, remaining := 0, chain := false, stage := Done, ended := 1);
    OneMore(h, bs, DoTurn(0), bs[0 := a1]);
    h := Then(h, DoTurn(0));
    OneMore(h, bs[0 := a1], DoTurn(0), bs[0 := a2]);
    h := Then(h, DoTurn(0));
    OneMore(h, bs[0 := a2], DoTurn(0), bs[0 := a3]);
    h := Then(h, DoTurn(0));
    RunSound(h, bs[0 := a3]);
    assert Right(bs[0 := a3], 2);
    assert Under(bs[0 := a3], 2, 0);
  }
}
