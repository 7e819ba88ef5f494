/**
 Serving a shared interrupt line: the ports on it are polled round and round until
 one whole round in a row had nothing pending, or until too many rounds have passed.
 */
module IrqLoop {

  const PASS_LIMIT := 512

  /** What the handler of the polled port answered, by the number of the poll. */
  type Answers = nat -> bool

  /** The polls from `lo` up to, not including, `hi` found nothing. */
  ghost predicate Idle(a: Answers, lo: int, hi: int) {
    forall t: nat :: lo <= t < hi ==> !a(t)
  }

  ghost predicate Busy(a: Answers, hi: int) {
    exists t: nat :: t < hi && a(t)
  }

  /**
   `end` is the port at which the current idle stretch began, at poll `since`; the
   loop is over when it comes round to that port again.
   */
  ghost predicate Turning(n: nat, a: Answers, polls: nat, l: nat, end: int, since: int, pass: int) {
    && n > 0 && l == polls % n && pass == polls / n
    && (end < 0 ==> polls == 0 || a(polls - 1))
    && (end >= 0 ==> 0 <= since < polls <= since + n && end == since % n && Idle(a, since, polls) && (since == 0 || a(since - 1)))
  }

  /** The last `n` polls up to `hi` found nothing. */
  ghost predicate IdleRound(n: nat, a: Answers, hi: nat) {
    hi >= n && Idle(a, hi - n, hi)
  }

  /** No whole round was idle before the last of these polls. */
  ghost predicate NoIdleRound(n: nat, a: Answers, polls: int) {
    forall hi: nat :: hi < polls ==> !IdleRound(n, a, hi)
  }

  lemma {:induction false} StillBusy(n: nat, a: Answers, polls: nat, l: nat, end: int, since: int, pass: int)
    requires Turning(n, a, polls, l, end, since, pass) && (end >= 0 ==> polls < since + n) && NoIdleRound(n, a, polls)
    ensures NoIdleRound(n, a, polls + 1)
  {}

  lemma {:induction false} RoundTrip(since: int, polls: int, n: int)
    requires n > 0 && 0 <= since < polls <= since + n && polls % n == since % n
    ensures polls == since + n
  {
    var k := polls / n - since / n;
    assert polls - since == n * k;
    assert 0 < n * k <= n;
    assert k == 1;
  }

  lemma {:induction false} NextSlot(polls: nat, n: nat)
    requires n > 0
    ensures (polls + 1) % n == (if polls % n + 1 == n then 0 else polls % n + 1)
    ensures (polls + 1) / n == polls / n + (if (polls + 1) % n == 0 then 1 else 0)
  {
    var q, r := polls / n, polls % n;
    assert polls == n * q + r;
    if r + 1 == n { DivMod(polls + 1, q + 1, 0, n); } else { DivMod(polls + 1, q, r + 1, n); }
  }

  lemma {:induction false} DivMod(a: nat, q: nat, r: nat, n: nat)
    requires n > 0 && a == n * q + r && r < n
    ensures a / n == q && a % n == r
  {
    var k := q - a / n;
    assert n * k == a % n - r;
    assert 0 - n < n * k < n;
    assert k == 0;
  }

  /**
   The interrupt routine.  `polls` counts the handler calls; poll `t` asks port
   `t % n`.
   */
  method Interrupt(n: nat, a: Answers) returns (handled: bool, polls: nat, gaveUp: bool)
    requires n > 0
    ensures polls <= (PASS_LIMIT + 2) * n && (handled <==> Busy(a, polls))
    ensures !gaveUp ==> IdleRound(n, a, polls)
    ensures gaveUp ==> polls == (PASS_LIMIT + 2) * n
    ensures NoIdleRound(n, a, polls)
  {
    var l: nat, end: int, pass: nat := 0, -1, 0;
    handled, polls, gaveUp := false, 0, false;
    ghost var since: int := -1;
    NoPolls(n);
    while true
      invariant Turning(n, a, polls, l, end, since, pass) && pass <= PASS_LIMIT + 1 && l != end
      invariant handled <==> Busy(a, polls)
      invariant (end >= 0 ==> polls < since + n) && NoIdleRound(n, a, polls)
      decreases (PASS_LIMIT + 2) * n - polls
    {
      PollBound(n, polls, pass);
      StillBusy(n, a, polls, l, end, since, pass);
      if a(polls) {
        handled, end := true, -1;
      } else if end < 0 {
        end, since := l, polls;
      }
      BusyNext(a, polls);
      NextSlot(polls, n);
      polls := polls + 1;
      l := if l + 1 == n then 0 else l + 1;
      if l == 0 {
        pass := pass + 1;
        if pass - 1 > PASS_LIMIT {
          gaveUp := true;
          GiveUpCount(n, polls, pass);
          return;
        }
      }
      if l == end {
        RoundTrip(since, polls, n);
        return;
      }
      if end >= 0 && polls == since + n { Again(since, n); assert false; }
    }
  }

  lemma {:induction false} NoPolls(n: nat)
    requires n > 0
    ensures 0 % n == 0 && 0 / n == 0
  {}

  lemma {:induction false} Again(since: int, n: nat)
    requires n > 0 && since >= 0
    ensures (since + n) % n == since % n
  {
    DivMod(since + n, since / n + 1, since % n, n);
  }

  lemma {:induction false} BusyNext(a: Answers, polls: nat)
    ensures Busy(a, polls + 1) <==> Busy(a, polls) || a(polls)
  {}

  lemma {:induction false} PollBound(n: nat, polls: nat, pass: nat)
    requires n > 0 && pass == polls / n && pass <= PASS_LIMIT + 1
    ensures polls < (PASS_LIMIT + 2) * n
  {
    assert polls == n * pass + polls % n;
    assert n * (pass + 1) == n * pass + n;
    MulOrder(n, pass + 1, PASS_LIMIT + 2);
  }

  lemma {:induction false} MulOrder(n: nat, a: nat, b: nat)
    requires a <= b
    ensures n * a <= b * n
  {}

  lemma {:induction false} GiveUpCount(n: nat, polls: nat, pass: nat)
    requires n > 0 && polls % n == 0 && pass == polls / n && pass == PASS_LIMIT + 2
    ensures polls == (PASS_LIMIT + 2) * n
  {}

  /** Any `n` polls in a row ask every port exactly once. */
  lemma {:induction false} RoundCoversAll(n: nat, hi: nat, port: nat)
    requires n > 0 && hi >= n && port < n
    ensures exists t: nat :: hi - n <= t < hi && t % n == port
    ensures forall t: nat, u: nat :: hi - n <= t < hi && hi - n <= u < hi && t % n == port && u % n == port ==> t == u
  {
    var lo := hi - n;
    var r := lo % n;
    var t := if port >= r then lo + (port - r) else lo + (port - r) + n;
    if port >= r { DivMod(t, lo / n, port, n); } else { DivMod(t, lo / n + 1, port, n); }
    forall x: nat, y: nat | hi - n <= x < hi && hi - n <= y < hi && x % n == port && y % n == port ensures x == y {
      SameSlot(x, y, n);
    }
  }

  lemma {:induction false} SameSlot(x: nat, y: nat, n: nat)
    requires n > 0 && x % n == y % n && 0 - n < x - y < n
    ensures x == y
  {
    var k := x / n - y / n;
    assert x - y == n * k;
    assert k == 0;
  }
}
