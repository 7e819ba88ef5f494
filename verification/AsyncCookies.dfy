/**
 Asynchronous function calls and the cookies that order them.  Each section under
 the lock is one step.  A waiter that finds no smaller cookie in progress knows that
 everything queued before its cookie has finished.
 */
module AsyncCookies {
  import opened Common

  type Cookie = nat
  type Domain = nat

  datatype Bound = Cookie(value: nat) | Infinity

  predicate AtLeast(a: Bound, b: Bound) {
    a.Infinity? || (b.Cookie? && a.value >= b.value)
  }

  /**
   `pending` has the queued entries of each domain and `everywhere` those of the
   registered domains, in list order.  `queued` remembers the domain of every cookie
   that was ever queued, `finished` which functions have returned.
   */
  datatype State = State(
    next: Cookie, pending: map<Domain, seq<Cookie>>, everywhere: seq<Cookie>, registered: set<Domain>, count: int,
    queued: map<Cookie, Domain>, finished: set<Cookie>)

  function Pending(s: State, d: Domain): seq<Cookie> {
    if d in s.pending then s.pending[d] else []
  }

  /** `None` stands for all registered domains. */
  datatype Scope = In(domain: Domain) | All

  function Waiting(s: State, scope: Scope): seq<Cookie> {
    match scope
    case In(d) => Pending(s, d)
    case All => s.everywhere
  }

  /** The cookie at the head of the list. */
  function LowestInProgress(s: State, scope: Scope): Bound {
    if Waiting(s, scope) == [] then Infinity else Cookie(Waiting(s, scope)[0])
  }

  // ---------------------------------------------------------------- steps

  datatype Step =
    | Schedule(domain: Domain)
    | RunAtOnce
    | Return(cookie: Cookie)
    | Remove(cookie: Cookie)
    | Register(domain: Domain)
    | Unregister(domain: Domain)

  predicate Enabled(s: State, step: Step) {
    match step
    case Return(c) => c in s.queued && c !in s.finished
    case Remove(c) => c in s.finished && c in s.queued && c in Pending(s, s.queued[c])
    case Register(d) => Pending(s, d) == []
    case Unregister(d) => Pending(s, d) == []
    case _ => true
  }

  function Without(cs: seq<Cookie>, c: Cookie): seq<Cookie> {
    if cs == [] then [] else if cs[0] == c then cs[1..] else [cs[0]] + Without(cs[1..], c)
  }

  function Apply(s: State, step: Step): State
    requires Enabled(s, step)
  {
    match step
    case Schedule(d) =>
      s.(next := s.next + 1, pending := s.pending[d := Pending(s, d) + [s.next]],
         everywhere := if d in s.registered then s.everywhere + [s.next] else s.everywhere,
         count := s.count + 1, queued := s.queued[s.next := d])
    case RunAtOnce => s.(next := s.next + 1)
    case Return(c) => s.(finished := s.finished + {c})
    case Remove(c) =>
      var d := s.queued[c];
      s.(pending := s.pending[d := Without(Pending(s, d), c)], everywhere := Without(s.everywhere, c), count := s.count - 1)
    case Register(d) => s.(registered := s.registered + {d})
    case Unregister(d) => s.(registered := s.registered - {d})
  }

  // ------------------------------------------------------------- invariant

  ghost predicate Sorted(cs: seq<Cookie>) {
    forall i, j :: 0 <= i < j < |cs| ==> cs[i] < cs[j]
  }

  /** Queued and not yet taken off the lists. */
  ghost predicate InProgress(s: State, c: Cookie) {
    c in s.queued && c in Pending(s, s.queued[c])
  }

  ghost function Total(s: State): set<Cookie> {
    set c | c in s.queued && c in Pending(s, s.queued[c])
  }

  /** A domain's list is in order and holds only its own entries. */
  ghost predicate DomainRight(s: State, d: Domain) {
    Sorted(Pending(s, d)) && forall c :: c in Pending(s, d) ==> c in s.queued && s.queued[c] == d && c < s.next
  }

  /** Every queued entry is still listed or has finished; the common list has those of registered domains. */
  ghost predicate CookieRight(s: State, c: Cookie) {
    && (c in s.queued ==> c < s.next && (InProgress(s, c) || c in s.finished)) && (c in s.finished ==> c in s.queued)
    && (c in s.everywhere <==> InProgress(s, c) && s.queued[c] in s.registered)
  }

  ghost predicate Sound(s: State) {
    && (forall d: Domain :: DomainRight(s, d)) && (forall c: Cookie :: CookieRight(s, c))
    && Sorted(s.everywhere) && s.count == |Total(s)|
  }

  // --------------------------------------------------------------- lists

  lemma {:induction false} WithoutIn(cs: seq<Cookie>, c: Cookie, x: Cookie)
    requires Sorted(cs)
    ensures x in Without(cs, c) <==> x in cs && x != c
  {
    if cs != [] && cs[0] != c { WithoutIn(cs[1..], c, x); }
  }

  lemma {:induction false} WithoutSorted(cs: seq<Cookie>, c: Cookie)
    requires Sorted(cs)
    ensures Sorted(Without(cs, c))
  {
    if cs != [] && cs[0] != c {
      WithoutSorted(cs[1..], c);
      var rest := Without(cs[1..], c);
      forall j | 0 <= j < |rest| ensures cs[0] < rest[j] { WithoutIn(cs[1..], c, rest[j]); }
    }
  }

  lemma {:induction false} SnocSorted(cs: seq<Cookie>, c: Cookie)
    requires Sorted(cs) && forall x :: x in cs ==> x < c
    ensures Sorted(cs + [c])
  {
    assert forall i :: 0 <= i < |cs| ==> cs[i] in cs;
  }

  // ---------------------------------------------------------------- steps

  lemma {:induction false} ScheduleDomain(s: State, d: Domain, e: Domain)
    requires Sound(s)
    ensures DomainRight(Apply(s, Schedule(d)), e)
  {
    assert DomainRight(s, e);
    if e == d { SnocSorted(Pending(s, d), s.next); }
  }

  lemma {:induction false} ScheduleCookie(s: State, d: Domain, c: Cookie)
    requires Sound(s)
    ensures CookieRight(Apply(s, Schedule(d)), c)
  {
    assert CookieRight(s, c);
    if c in s.queued { assert DomainRight(s, s.queued[c]); }
  }

  lemma {:induction false} NextIsNew(s: State)
    requires Sound(s)
    ensures s.next !in s.queued && forall c :: c in s.everywhere ==> c < s.next
  {
    assert CookieRight(s, s.next);
    forall c | c in s.everywhere ensures c < s.next { assert CookieRight(s, c); }
  }

  lemma {:induction false} ScheduleSound(s: State, d: Domain)
    requires Sound(s)
    ensures Sound(Apply(s, Schedule(d)))
  {
    var s' := Apply(s, Schedule(d));
    NextIsNew(s);
    forall e: Domain ensures DomainRight(s', e) { ScheduleDomain(s, d, e); }
    forall c: Cookie ensures CookieRight(s', c) { ScheduleCookie(s, d, c); }
    SnocSorted(s.everywhere, s.next);
    assert Total(s') == Total(s) + {s.next};
  }

  /**
   The new cookie is in progress in its domain, and in the common list exactly if the
   domain is registered; every other cookie is as it was.
   */
  lemma {:induction false} ScheduleQueues(s: State, d: Domain, x: Cookie)
    requires Sound(s)
    ensures var s' := Apply(s, Schedule(d));
            && s'.next == s.next + 1 && s'.registered == s.registered
            && (if x == s.next
                then x !in s.queued && InProgress(s', x) && s'.queued[x] == d && x !in s'.finished
                     && (x in s'.everywhere <==> d in s.registered)
                else (x in s'.queued <==> x in s.queued) && (x in s.queued ==> s'.queued[x] == s.queued[x])
                     && (InProgress(s', x) <==> InProgress(s, x)) && (x in s'.finished <==> x in s.finished)
                     && (x in s'.everywhere <==> x in s.everywhere))
  {
    NextIsNew(s);
    assert CookieRight(s, x);
    if x in s.queued { assert DomainRight(s, s.queued[x]); }
  }

  lemma {:induction false} RemoveDomain(s: State, c: Cookie, e: Domain)
    requires Sound(s) && Enabled(s, Remove(c))
    ensures DomainRight(Apply(s, Remove(c)), e)
  {
    assert DomainRight(s, e);
    if e == s.queued[c] {
      WithoutSorted(Pending(s, e), c);
      forall x | x in Without(Pending(s, e), c) ensures x in Pending(s, e) { WithoutIn(Pending(s, e), c, x); }
    }
  }

  lemma {:induction false} RemoveProgress(s: State, c: Cookie, x: Cookie)
    requires Sound(s) && Enabled(s, Remove(c))
    ensures InProgress(Apply(s, Remove(c)), x) <==> InProgress(s, x) && x != c
  {
    assert DomainRight(s, s.queued[c]);
    WithoutIn(Pending(s, s.queued[c]), c, x);
  }

  lemma {:induction false} RemoveCookie(s: State, c: Cookie, x: Cookie)
    requires Sound(s) && Enabled(s, Remove(c))
    ensures CookieRight(Apply(s, Remove(c)), x)
  {
    assert CookieRight(s, x);
    RemoveProgress(s, c, x);
    WithoutIn(s.everywhere, c, x);
  }

  lemma {:induction false} RemoveSound(s: State, c: Cookie)
    requires Sound(s) && Enabled(s, Remove(c))
    ensures Sound(Apply(s, Remove(c)))
  {
    var s' := Apply(s, Remove(c));
    forall e: Domain ensures DomainRight(s', e) { RemoveDomain(s, c, e); }
    forall x: Cookie ensures CookieRight(s', x) { RemoveCookie(s, c, x); }
    WithoutSorted(s.everywhere, c);
    forall x ensures x in Total(s') <==> x in Total(s) && x != c { RemoveProgress(s, c, x); }
    assert Total(s') == Total(s) - {c};
    assert c in Total(s);
  }

  lemma {:induction false} OtherSound(s: State, step: Step)
    requires Sound(s) && Enabled(s, step) && !step.Schedule? && !step.Remove?
    ensures Sound(Apply(s, step))
  {
    var s' := Apply(s, step);
    forall d: Domain ensures DomainRight(s', d) { assert DomainRight(s, d); }
    forall c: Cookie ensures CookieRight(s', c) { assert CookieRight(s, c); }
    assert Total(s') == Total(s);
  }

  lemma {:induction false} StepSound(s: State, step: Step)
    requires Sound(s) && Enabled(s, step)
    ensures Sound(Apply(s, step))
  {
    match step
    case Schedule(d) => ScheduleSound(s, d);
    case Remove(c) => RemoveSound(s, c);
    case _ => OtherSound(s, step);
  }

  // --------------------------------------------------------------- barrier

  /** The condition a waiter on `c` waits for. */
  predicate Passes(s: State, c: Bound, scope: Scope) {
    AtLeast(LowestInProgress(s, scope), c)
  }

  predicate Covers(s: State, scope: Scope, c: Cookie) {
    c in s.queued && match scope case In(d) => s.queued[c] == d case All => s.queued[c] in s.registered
  }

  /** A waiter that passes knows that every entry queued below its cookie has finished. */
  lemma {:induction false} Barrier(s: State, c: Bound, scope: Scope, x: Cookie)
    requires Sound(s) && Passes(s, c, scope) && Covers(s, scope, x) && !AtLeast(Bound.Cookie(x), c)
    ensures x in s.finished
  {
    assert CookieRight(s, x);
    assert DomainRight(s, s.queued[x]);
    assert InProgress(s, x) ==> x in Waiting(s, scope);
  }

  /** And only then: what keeps a waiter waiting is a smaller cookie still listed. */
  lemma {:induction false} BlockedBy(s: State, c: Bound, scope: Scope)
    requires Sound(s) && !Passes(s, c, scope)
    ensures exists x :: Covers(s, scope, x) && InProgress(s, x) && !AtLeast(Bound.Cookie(x), c)
  {
    var x := Waiting(s, scope)[0];
    assert x in Waiting(s, scope);
    if scope.In? { assert DomainRight(s, scope.domain); } else { assert CookieRight(s, x); }
    assert Covers(s, scope, x) && InProgress(s, x);
  }

  /** The lowest entry in progress may wait on its own cookie without blocking. */
  lemma {:induction false} LowestNotBlocked(s: State, c: Cookie, scope: Scope)
    requires Sound(s) && Covers(s, scope, c) && InProgress(s, c)
    requires forall x :: Covers(s, scope, x) && InProgress(s, x) ==> c <= x
    ensures Passes(s, Bound.Cookie(c), scope)
  {
    if !Passes(s, Bound.Cookie(c), scope) { BlockedBy(s, Bound.Cookie(c), scope); }
  }

  // ------------------------------------------------------------ whole runs

  datatype History = Start | Then(before: History, step: Step)

  const FIRST := State(1, map[], [], {}, 0, map[], {})

  ghost predicate Leads(h: History, s: State) {
    match h
    case Start => s == FIRST
    case Then(before, step) => exists b :: Leads(before, b) && Enabled(b, step) && s == Apply(b, step)
  }

  lemma {:induction false} RunSound(h: History, s: State)
    requires Leads(h, s)
    ensures Sound(s)
  {
    match h
    case Start =>
      assert Total(s) == {};
      assert forall d: Domain :: Pending(s, d) == [];
    case Then(before, step) =>
      var b :| Leads(before, b) && Enabled(b, step) && s == Apply(b, step);
      RunSound(before, b);
      StepSound(b, step);
  }

  /**
   In every reachable state the lists are in order, the counter is the number of
   entries in progress, and the barrier holds for every waiter and every scope.
   */
  lemma {:induction false} RunOrdered(h: History, s: State)
    requires Leads(h, s)
    ensures (forall d: Domain :: Sorted(Pending(s, d))) && Sorted(s.everywhere) && s.count == |Total(s)|
    ensures forall c: Bound, scope: Scope, x: Cookie ::
              Passes(s, c, scope) && Covers(s, scope, x) && !AtLeast(Bound.Cookie(x), c) ==> x in s.finished
  {
    RunSound(h, s);
    forall d: Domain ensures Sorted(Pending(s, d)) { assert DomainRight(s, d); }
    forall c: Bound, scope: Scope, x: Cookie | Passes(s, c, scope) && Covers(s, scope, x) && !AtLeast(Bound.Cookie(x), c)
      ensures x in s.finished
    {
      Barrier(s, c, scope, x);
    }
  }

  // -------------------------------------------------- what the history tells

  /** The cookie that the next call gets: one more for each call before. */
  function NextOf(h: History): Cookie {
    match h
    case Start => 1
    case Then(before, step) => NextOf(before) + One(step.Schedule? || step.RunAtOnce?)
  }

  predicate Did(h: History, step: Step) {
    h.Then? && (h.step == step || Did(h.before, step))
  }

  /** The call that got `c` queued an entry in `d`. */
  predicate QueuedIn(h: History, c: Cookie, d: Domain) {
    h.Then? && (QueuedIn(h.before, c, d) || (h.step == Schedule(d) && c == NextOf(h.before)))
  }

  predicate RegisteredIn(h: History, d: Domain) {
    h.Then? && (h.step == Register(d) || (RegisteredIn(h.before, d) && h.step != Unregister(d)))
  }

  ghost predicate Told(h: History, s: State, c: Cookie, d: Domain) {
    && s.next == NextOf(h) && (d in s.registered <==> RegisteredIn(h, d))
    && (c in s.finished <==> Did(h, Return(c))) && (Did(h, Remove(c)) ==> c in s.queued)
    && (c in s.queued && s.queued[c] == d <==> QueuedIn(h, c, d))
    && (InProgress(s, c) && s.queued[c] == d <==> QueuedIn(h, c, d) && !Did(h, Remove(c)))
  }

  lemma {:induction false} ToldStep(before: History, b: State, step: Step, c: Cookie, d: Domain)
    requires Sound(b) && Enabled(b, step) && Told(before, b, c, d)
    ensures Told(Then(before, step), Apply(b, step), c, d)
  {
    match step
    case Schedule(e) => ScheduleQueues(b, e, c);
    case Remove(x) => RemoveProgress(b, x, c);
    case _ =>
  }

  /**
   The state is what the history says: the cookies are handed out in turn, a function
   has finished if it returned, and an entry is in progress from the call that queued it
   until it is taken off the lists.
   */
  lemma {:induction false} HistoryTells(h: History, s: State, c: Cookie, d: Domain)
    requires Leads(h, s)
    ensures Told(h, s, c, d)
  {
    if h.Then? {
      var b :| Leads(h.before, b) && Enabled(b, h.step) && s == Apply(b, h.step);
      RunSound(h.before, b);
      HistoryTells(h.before, b, c, d);
      ToldStep(h.before, b, h.step, c, d);
    }
  }

  predicate InScope(h: History, scope: Scope, d: Domain) {
    match scope case In(e) => d == e case All => RegisteredIn(h, d)
  }

  /** Entry `x` was queued in the scope, below the bound, and has not been taken off the lists. */
  ghost predicate HoldsUp(h: History, c: Bound, scope: Scope, x: Cookie) {
    && !AtLeast(Bound.Cookie(x), c) && !Did(h, Remove(x))
    && exists d :: QueuedIn(h, x, d) && InScope(h, scope, d)
  }

  /** A waiter passes if and only if the history leaves no entry to hold it up. */
  lemma {:induction false} PassesExactly(h: History, s: State, c: Bound, scope: Scope)
    requires Leads(h, s)
    ensures Passes(s, c, scope) <==> forall x: Cookie :: !HoldsUp(h, c, scope, x)
  {
    RunSound(h, s);
    if !Passes(s, c, scope) {
      BlockedBy(s, c, scope);
      var x :| Covers(s, scope, x) && InProgress(s, x) && !AtLeast(Bound.Cookie(x), c);
      HistoryTells(h, s, x, s.queued[x]);
      assert HoldsUp(h, c, scope, x);
    } else {
      forall x: Cookie ensures !HoldsUp(h, c, scope, x) {
        if HoldsUp(h, c, scope, x) {
          var d :| QueuedIn(h, x, d) && InScope(h, scope, d);
          HistoryTells(h, s, x, d);
          HeldUp(s, c, scope, x);
        }
      }
    }
  }

  lemma {:induction false} HeldUp(s: State, c: Bound, scope: Scope, x: Cookie)
    requires Sound(s) && Covers(s, scope, x) && InProgress(s, x) && !AtLeast(Bound.Cookie(x), c)
    ensures !Passes(s, c, scope)
  {
    assert CookieRight(s, x);
    assert DomainRight(s, s.queued[x]);
    assert x in Waiting(s, scope);
  }

  ghost predicate Extends(h: History, from: History) {
    h == from || (h.Then? && Extends(h.before, from))
  }

  /** What a waiter saw finished stays finished. */
  lemma {:induction false} BarrierLasts(from: History, s0: State, h: History, s: State, c: Bound, scope: Scope,
                                        x: Cookie)
    requires Leads(from, s0) && Passes(s0, c, scope) && Covers(s0, scope, x) && !AtLeast(Bound.Cookie(x), c)
    requires Extends(h, from) && Leads(h, s)
    ensures x in s.finished
  {
    if h == from {
      LeadsOnce(h, s, s0);
      RunSound(from, s0);
      Barrier(s0, c, scope, x);
    } else {
      var b :| Leads(h.before, b) && Enabled(b, h.step) && s == Apply(b, h.step);
      BarrierLasts(from, s0, h.before, b, c, scope, x);
    }
  }

  lemma {:induction false} QueuedStays(from: History, h: History, c: Cookie, d: Domain)
    requires Extends(h, from) && QueuedIn(from, c, d)
    ensures QueuedIn(h, c, d)
  {
    if h != from { QueuedStays(from, h.before, c, d); }
  }

  /** A domain with an entry in progress is neither registered nor unregistered. */
  lemma {:induction false} RegisteredStays(from: History, s0: State, d: Domain, h: History, s: State)
    requires Leads(from, s0) && Extends(h, Then(from, Schedule(d))) && Leads(h, s) && !Did(h, Remove(s0.next))
    ensures d in s.registered <==> d in s0.registered
  {
    var b :| Leads(h.before, b) && Enabled(b, h.step) && s == Apply(b, h.step);
    if h == Then(from, Schedule(d)) {
      LeadsOnce(from, s0, b);
    } else {
      RegisteredStays(from, s0, d, h.before, b);
      HistoryTells(from, s0, 0, d);
      QueuedStays(Then(from, Schedule(d)), h.before, s0.next, d);
      HistoryTells(h.before, b, s0.next, d);
      assert s0.next in Pending(b, d);
    }
  }

  /**
   From the call that queues an entry until the entry is taken off the lists, in every
   continuation, no waiter on a larger cookie passes: none on its domain, and none on all
   domains if its domain is registered.
   */
  lemma {:induction false} ScheduledBlocks(from: History, s0: State, d: Domain, h: History, s: State, c: Bound,
                                           scope: Scope)
    requires Leads(from, s0) && Extends(h, Then(from, Schedule(d))) && Leads(h, s) && !Did(h, Remove(s0.next))
    requires !AtLeast(Bound.Cookie(s0.next), c) && (scope == In(d) || (scope == All && d in s0.registered))
    ensures !Passes(s, c, scope)
  {
    HistoryTells(from, s0, 0, d);
    RegisteredStays(from, s0, d, h, s);
    QueuedStays(Then(from, Schedule(d)), h, s0.next, d);
    HistoryTells(h, s, s0.next, d);
    assert HoldsUp(h, c, scope, s0.next);
    PassesExactly(h, s, c, scope);
  }

  lemma {:induction false} LeadsOnce(h: History, a: State, b: State)
    requires Leads(h, a) && Leads(h, b)
    ensures a == b
  {
    if h.Then? {
      var x :| Leads(h.before, x) && Enabled(x, h.step) && a == Apply(x, h.step);
      var y :| Leads(h.before, y) && Enabled(y, h.step) && b == Apply(y, h.step);
      LeadsOnce(h.before, x, y);
    }
  }
}
