/** Binding with retries: exponential backoff, capped, until a deadline. */
module Retry {

  // Durations in milliseconds.
  const BACKOFF_START: nat := 100
  const BACKOFF_MAX: nat := 5000

  datatype Outcome = Bound(socket: nat) | Transient | Refused(error: nat)

  /** Why the loop ended: a socket, an error that is not transient, the deadline (with the
      number of attempts made), or the shutdown signal. */
  datatype Result = Listening(socket: nat) | NonTransient(error: nat) | TimedOut(attempts: nat) | Cancelled

  /** What a run meets: how the k-th bind ends and how long it takes, how much longer than
      asked the k-th sleep takes, and whether the shutdown signal cuts that sleep short. */
  datatype World = World(outcome: nat -> Outcome, binding: nat -> nat, late: nat -> nat, cancel: nat -> bool)

  function NextBackoff(d: nat): nat {
    if d * 2 > BACKOFF_MAX then BACKOFF_MAX else d * 2
  }

  function Pow2(k: nat): nat {
    if k == 0 then 1 else 2 * Pow2(k - 1)
  }

  /** The k-th delay in closed form. */
  function Delay(k: nat): nat {
    if BACKOFF_START * Pow2(k) < BACKOFF_MAX then BACKOFF_START * Pow2(k) else BACKOFF_MAX
  }

  /** Doubling with a cap is the closed form. */
  lemma BackoffIsClosedForm(k: nat)
    ensures NextBackoff(Delay(k)) == Delay(k + 1)
    ensures BACKOFF_START <= Delay(k) <= BACKOFF_MAX
  {
    PowPositive(k);
  }

  lemma {:induction false} PowPositive(k: nat)
    ensures Pow2(k) >= 1
  {
    if k == 0 {
    } else {
      PowPositive(k - 1);
    }
  }

  /** When the k-th attempt starts, and when its bind is over. */
  function Start(w: World, k: nat): nat
    decreases k, 0
  {
    if k == 0 then 0 else Checked(w, k - 1) + Delay(k - 1) + w.late(k - 1)
  }

  function Checked(w: World, k: nat): nat
    decreases k, 1
  {
    Start(w, k) + w.binding(k)
  }

  predicate Ends(w: World, timeout: nat, k: nat) {
    w.outcome(k) != Transient || Checked(w, k) >= timeout || w.cancel(k)
  }

  /** The answer of a run whose k-th attempt is its last. */
  function Verdict(w: World, timeout: nat, k: nat): Result {
    match w.outcome(k)
    case Bound(socket) => Listening(socket)
    case Refused(error) => NonTransient(error)
    case Transient => if Checked(w, k) >= timeout then TimedOut(k + 1) else Cancelled
  }

  /** The n-th attempt is the first that ends the run. */
  predicate LastAttempt(w: World, timeout: nat, n: nat) {
    Ends(w, timeout, n) && forall k :: 0 <= k < n ==> !Ends(w, timeout, k)
  }

  method RetryWithBackoff(w: World, timeout: nat) returns (r: Result, attempts: nat)
    ensures attempts >= 1 && LastAttempt(w, timeout, attempts - 1)
    ensures r == Verdict(w, timeout, attempts - 1)
  {
    var now := 0;
    var delay := BACKOFF_START;
    attempts := 0;
    while true
      invariant now == Start(w, attempts)
      invariant delay == Delay(attempts)
      invariant forall k :: 0 <= k < attempts ==> !Ends(w, timeout, k)
      decreases if now < timeout then timeout - now else 0, if now < timeout then 1 else 0
    {
      BackoffIsClosedForm(attempts);
      attempts := attempts + 1;
      now := now + w.binding(attempts - 1);
      match w.outcome(attempts - 1) {
        case Bound(socket) => return Listening(socket), attempts;
        case Refused(error) => return NonTransient(error), attempts;
        case Transient =>
      }
      if now >= timeout {
        return TimedOut(attempts), attempts;
      }
      if w.cancel(attempts - 1) {
        return Cancelled, attempts;
      }
      now := now + delay + w.late(attempts - 1);
      delay := NextBackoff(delay);
    }
  }

  // ---------- bounds ----------

  /** The sum of the first k delays. */
  function Waited(k: nat): nat {
    if k == 0 then 0 else Waited(k - 1) + Delay(k - 1)
  }

  lemma {:induction false} WaitedBeforeStart(w: World, k: nat)
    ensures Waited(k) <= Start(w, k)
  {
    if k == 0 {
    } else {
      WaitedBeforeStart(w, k - 1);
    }
  }

  lemma Doubling()
    ensures Pow2(0) == 1 && Pow2(1) == 2 && Pow2(2) == 4 && Pow2(3) == 8 && Pow2(4) == 16 && Pow2(5) == 32 && Pow2(6) == 64
  {
  }

  lemma {:induction false} CappedFromSix(k: nat)
    requires k >= 6
    ensures Delay(k) == BACKOFF_MAX && Pow2(k) >= 64
  {
    Doubling();
    if k > 6 { CappedFromSix(k - 1); }
  }

  /** From the seventh attempt on the waiting grows by the cap. */
  lemma {:induction false} WaitedClosedForm(k: nat)
    requires k >= 6
    ensures Waited(k) == 6300 + BACKOFF_MAX * (k - 6)
  {
    Doubling();
    if k == 6 {
      assert Waited(1) == 100 && Waited(2) == 300 && Waited(3) == 700 && Waited(4) == 1500 && Waited(5) == 3100;
    } else {
      CappedFromSix(k - 1);
      WaitedClosedForm(k - 1);
    }
  }

  /** The waiting grows with every delay. */
  lemma {:induction false} WaitedGrows(j: nat, k: nat)
    requires j <= k
    ensures Waited(j) + BACKOFF_START * (k - j) <= Waited(k)
  {
    if j == k {
    } else {
      WaitedGrows(j, k - 1);
      BackoffIsClosedForm(k - 1);
    }
  }

  /** The least number of delays, at least `k`, that add up to the timeout. */
  function DelaysFor(timeout: nat, k: nat): (n: nat)
    ensures n >= k && Waited(n) >= timeout
    ensures forall j :: k <= j < n ==> Waited(j) < timeout
    decreases if Waited(k) < timeout then timeout - Waited(k) else 0
  {
    if Waited(k) >= timeout then k
    else
      BackoffIsClosedForm(k);
      DelaysFor(timeout, k + 1)
  }

  /** The most attempts a run with a deadline can make. */
  function MostAttempts(timeout: nat): nat { DelaysFor(timeout, 0) + 1 }

  lemma MostAttemptsIsLeast(timeout: nat, n: nat)
    requires Waited(n) >= timeout && (n > 0 ==> Waited(n - 1) < timeout)
    ensures MostAttempts(timeout) == n + 1
  {
    var m := DelaysFor(timeout, 0);
    if m < n {
      WaitedGrows(m, n - 1);
    }
  }

  /** In closed form beyond the first six delays: 12 for the 30 seconds that a forwarder waits
      by default. */
  lemma MostAttemptsClosedForm(timeout: nat)
    requires timeout > 6300
    ensures MostAttempts(timeout) == 8 + (timeout - 6301) / BACKOFF_MAX
    ensures MostAttempts(30000) == 12
  {
    AttemptsBeyondSix(timeout);
    AttemptsBeyondSix(30000);
  }

  lemma AttemptsBeyondSix(timeout: nat)
    requires timeout > 6300
    ensures MostAttempts(timeout) == 8 + (timeout - 6301) / BACKOFF_MAX
  {
    var n := 7 + (timeout - 6301) / BACKOFF_MAX;
    WaitedClosedForm(n);
    WaitedClosedForm(n - 1);
    MostAttemptsIsLeast(timeout, n);
  }

  /** However long binds and sleeps take, a run makes no more attempts than that. */
  lemma AttemptsAreBounded(w: World, timeout: nat, n: nat)
    requires LastAttempt(w, timeout, n)
    ensures n + 1 <= MostAttempts(timeout)
  {
    if n >= 1 {
      var m := n - 1;
      assert !Ends(w, timeout, m);
      WaitedBeforeStart(w, m);
      if DelaysFor(timeout, 0) <= m {
        WaitedGrows(DelaysFor(timeout, 0), m);
      }
    }
  }

  /** The run always ends: some attempt is the last. */
  lemma SomeAttemptIsLast(w: World, timeout: nat)
    ensures exists n: nat :: LastAttempt(w, timeout, n)
  {
    var n := DelaysFor(timeout, 0);
    WaitedBeforeStart(w, n);
    FirstEnd(w, timeout, n);
  }

  lemma {:induction false} FirstEnd(w: World, timeout: nat, n: nat)
    requires Ends(w, timeout, n)
    ensures exists m: nat :: m <= n && LastAttempt(w, timeout, m)
  {
    if k: nat :| k < n && Ends(w, timeout, k) {
      FirstEnd(w, timeout, k);
    } else {
      assert LastAttempt(w, timeout, n);
    }
  }

  /** A run gives up for the deadline only after it, and never starts an attempt five seconds
      or more (beyond what the clock overslept) after it. */
  lemma GivesUpInTime(w: World, timeout: nat, n: nat)
    requires LastAttempt(w, timeout, n)
    ensures Verdict(w, timeout, n).TimedOut? ==>
      Checked(w, n) >= timeout && forall k: nat :: k <= n ==> w.outcome(k) == Transient
    ensures n >= 1 ==> Start(w, n) < timeout + BACKOFF_MAX + w.late(n - 1)
  {
    if n >= 1 {
      assert !Ends(w, timeout, n - 1);
      BackoffIsClosedForm(n - 1);
    }
    forall k: nat | k <= n && Verdict(w, timeout, n).TimedOut? ensures w.outcome(k) == Transient {
      assert k < n ==> !Ends(w, timeout, k);
    }
  }

  /** On an ideal clock, with binds that never succeed and no shutdown, the bound is met for
      every timeout: the run makes exactly that many attempts. */
  lemma BoundIsMet(w: World, timeout: nat, n: nat)
    requires LastAttempt(w, timeout, n)
    requires forall k: nat :: w.outcome(k) == Transient && w.binding(k) == 0 && w.late(k) == 0 && !w.cancel(k)
    ensures Verdict(w, timeout, n) == TimedOut(MostAttempts(timeout))
  {
    IdealStart(w, n);
    if n > 0 {
      assert !Ends(w, timeout, n - 1);
      IdealStart(w, n - 1);
    }
    MostAttemptsIsLeast(timeout, n);
  }

  lemma {:induction false} IdealStart(w: World, k: nat)
    requires forall i: nat :: w.binding(i) == 0 && w.late(i) == 0
    ensures Start(w, k) == Waited(k)
  {
    if k == 0 {
    } else {
      IdealStart(w, k - 1);
    }
  }

  /** The first outcome that is not transient, reached before the deadline and with no
      shutdown, is the answer. */
  lemma FirstOutcomeWins(w: World, timeout: nat, n: nat)
    requires w.outcome(n) != Transient && (n > 0 ==> Checked(w, n - 1) < timeout)
    requires forall k :: 0 <= k < n ==> w.outcome(k) == Transient && !w.cancel(k)
    ensures LastAttempt(w, timeout, n)
    ensures var o, r := w.outcome(n), Verdict(w, timeout, n);
      (o.Bound? ==> r == Listening(o.socket)) && (o.Refused? ==> r == NonTransient(o.error))
  {
    forall k | 0 <= k < n ensures !Ends(w, timeout, k) {
      LaterIsLater(w, k, n - 1);
    }
  }

  lemma {:induction false} LaterIsLater(w: World, j: nat, k: nat)
    requires j <= k
    ensures Checked(w, j) <= Checked(w, k)
  {
    if j < k { LaterIsLater(w, j, k - 1); }
  }
}
