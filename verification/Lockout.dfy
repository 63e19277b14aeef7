/** The login lockout of one account as a timed state machine. */
module Lockout {
  import opened Options

  const THRESHOLD := 5

  /** Fifteen minutes, in microseconds. */
  const LOCK := 15 * 60 * 1_000_000

  datatype Account = Account(active: bool, failedCount: nat, lockedUntil: Option<int>)

  /** The clock is read for the lock test and again when a failure is recorded. */
  datatype Attempt = Attempt(matches: bool, testedAt: int, recordedAt: int)

  predicate Locked(a: Account, now: int) { a.lockedUntil.Some? && a.lockedUntil.value > now }

  /** Whether the attempt gets as far as comparing the password. */
  predicate Compared(a: Account, x: Attempt) { a.active && !Locked(a, x.testedAt) }

  function Attempted(a: Account, x: Attempt): Account {
    if !Compared(a, x) then a
    else if x.matches then a.(failedCount := 0, lockedUntil := None)
    else a.(failedCount := a.failedCount + 1,
            lockedUntil := if a.failedCount + 1 >= THRESHOLD then Some(x.recordedAt + LOCK) else None)
  }

  class User {
    var active: bool
    var failedCount: nat
    var lockedUntil: Option<int>
    ghost var comparisons: nat

    function State(): Account
      reads this
    {
      Account(active, failedCount, lockedUntil)
    }

    constructor ()
      ensures State() == Account(true, 0, None) && comparisons == 0
    {
      active, failedCount, lockedUntil, comparisons := true, 0, None, 0;
    }

    /** authenticate_user for an existing row.  "verify" stands for the scrypt comparison. */
    method Authenticate(verify: string -> bool, password: string, testedAt: int, recordedAt: int) returns (ok: bool)
      modifies this
      ensures var x := Attempt(verify(password), testedAt, recordedAt);
              if password == "" then State() == old(State()) && !ok && comparisons == old(comparisons)
              else
                && State() == Attempted(old(State()), x)
                && (ok <==> Compared(old(State()), x) && x.matches)
                && comparisons == old(comparisons) + if Compared(old(State()), x) then 1 else 0
    {
      if password == "" { return false; }
      if !active || Locked(State(), testedAt) { return false; }
      comparisons := comparisons + 1;
      if verify(password) {
        RecordLogin();
        return true;
      }
      RecordFailedLogin(recordedAt);
      ok := false;
    }

    method RecordLogin()
      modifies this
      ensures State() == old(State()).(failedCount := 0, lockedUntil := None) && comparisons == old(comparisons)
    {
      failedCount, lockedUntil := 0, None;
    }

    method RecordFailedLogin(now: int)
      modifies this
      ensures active == old(active) && failedCount == old(failedCount) + 1 && comparisons == old(comparisons)
      ensures lockedUntil == if failedCount >= THRESHOLD then Some(now + LOCK) else None
    {
      failedCount := failedCount + 1;
      lockedUntil := None;
      if failedCount >= THRESHOLD { lockedUntil := Some(now + LOCK); }
    }
  }

  // ---------------------------------------------------------------- the rate of comparisons

  function Run(a: Account, xs: seq<Attempt>): Account
    decreases |xs|
  {
    if xs == [] then a else Run(Attempted(a, xs[0]), xs[1..])
  }

  /** How many attempts tested within the closed window reach a comparison. */
  function Comparisons(a: Account, xs: seq<Attempt>, from: int, to: int): nat
    decreases |xs|
  {
    if xs == [] then 0
    else Counted(a, xs[0], from, to) + Comparisons(Attempted(a, xs[0]), xs[1..], from, to)
  }

  function Counted(a: Account, x: Attempt, from: int, to: int): nat {
    if Compared(a, x) && from <= x.testedAt <= to then 1 else 0
  }

  /** No comparison of the run succeeds, and the clock does not step back within an attempt. */
  predicate OnlyFailures(xs: seq<Attempt>) {
    forall i :: 0 <= i < |xs| ==> !xs[i].matches && xs[i].testedAt <= xs[i].recordedAt
  }

  /** What is still possible in the window: the failures left before the lock, then one per lock time. */
  function Allowance(a: Account, from: int, to: int): int
    requires from <= to
  {
    if a.failedCount < THRESHOLD then THRESHOLD - a.failedCount + (to - from) / LOCK
    else
      var start := if a.lockedUntil.Some? && a.lockedUntil.value > from then a.lockedUntil.value else from;
      if to < start then 0 else 1 + (to - start) / LOCK
  }

  lemma AllowanceStep(a: Account, x: Attempt, from: int, to: int)
    requires from <= to && !x.matches && x.testedAt <= x.recordedAt
    ensures Counted(a, x, from, to) + Allowance(Attempted(a, x), from, to) <= Allowance(a, from, to)
    ensures 0 <= Allowance(a, from, to) <= THRESHOLD + (to - from) / LOCK
  {
  }

  lemma {:induction false} ComparisonsWithinAllowance(a: Account, xs: seq<Attempt>, from: int, to: int)
    requires from <= to && OnlyFailures(xs)
    ensures Comparisons(a, xs, from, to) <= Allowance(a, from, to)
    decreases |xs|
  {
    if xs != [] {
      AllowanceStep(a, xs[0], from, to);
      ComparisonsWithinAllowance(Attempted(a, xs[0]), xs[1..], from, to);
    } else {
      AllowanceStep(a, Attempt(false, from, from), from, to);
    }
  }

  /** Any window of W microseconds holds at most 5 + W / 15 minutes comparisons, from any state of the account
      and in any run without a success. */
  lemma RateBound(a: Account, xs: seq<Attempt>, from: int, window: nat)
    requires OnlyFailures(xs)
    ensures Comparisons(a, xs, from, from + window) <= 5 + window / 900_000_000
  {
    ComparisonsWithinAllowance(a, xs, from, from + window);
    AllowanceStep(a, Attempt(false, from, from), from, from + window);
  }

  /** The fastest run without a success: "n" failures, one whenever the lock allows it. */
  function Fastest(a: Account, n: nat, at: int): seq<Attempt>
    decreases n
  {
    if n == 0 then []
    else
      var time := if a.lockedUntil.Some? && a.lockedUntil.value > at then a.lockedUntil.value else at;
      [Attempt(false, time, time)] + Fastest(Attempted(a, Attempt(false, time, time)), n - 1, time)
  }

  lemma {:induction false} FastestCounts(a: Account, n: nat, at: int, from: int, to: int)
    requires a.active && from <= at
    requires a.failedCount < THRESHOLD ==> a.lockedUntil == None
    requires n == 0 ||
             (if a.failedCount < THRESHOLD then at + (n - (THRESHOLD - a.failedCount)) * LOCK <= to && at <= to
              else a.lockedUntil.Some? && at <= a.lockedUntil.value && a.lockedUntil.value + (n - 1) * LOCK <= to)
    ensures OnlyFailures(Fastest(a, n, at)) && Comparisons(a, Fastest(a, n, at), from, to) == n
    decreases n
  {
    if n > 0 {
      var time := if a.lockedUntil.Some? && a.lockedUntil.value > at then a.lockedUntil.value else at;
      var x := Attempt(false, time, time);
      FastestCounts(Attempted(a, x), n - 1, time, from, to);
      var rest := Fastest(Attempted(a, x), n - 1, time);
      assert ([x] + rest)[1..] == rest;
    }
  }

  /** The bound is the best possible: a fresh account reaches it in every window. */
  lemma RateBoundIsTight(from: int, window: nat)
    ensures var a, n := Account(true, 0, None), 5 + window / 900_000_000;
            OnlyFailures(Fastest(a, n, from)) && Comparisons(a, Fastest(a, n, from), from, from + window) == n
  {
    FastestCounts(Account(true, 0, None), 5 + window / LOCK, from, from, from + window);
  }

  /** A success ends every count and lock: the account is as a fresh one. */
  lemma SuccessStartsAfresh(a: Account, x: Attempt)
    requires Compared(a, x) && x.matches
    ensures a.active && Attempted(a, x) == Account(true, 0, None)
  {
  }

  /** The count outlives the lock: once four failures stand, every later comparison that fails locks the
      account at once, however long after and whatever refused attempts lie between. */
  lemma {:induction false} CountOutlivesLock(a: Account, xs: seq<Attempt>, y: Attempt)
    requires a.failedCount >= THRESHOLD - 1 && OnlyFailures(xs) && !y.matches
    ensures Compared(Run(a, xs), y) ==> Attempted(Run(a, xs), y).lockedUntil == Some(y.recordedAt + 900_000_000)
    decreases |xs|
  {
    if xs != [] { CountOutlivesLock(Attempted(a, xs[0]), xs[1..], y); }
  }
}
