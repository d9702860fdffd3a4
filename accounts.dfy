/**
 * The login-relevant part of the users table: a row's status, role, failed
 * login counter and lock time, the three read-only predicates over it, and
 * the two transitions that rewrite the counter and the lock. Time is an
 * integer number of seconds; "now" is always passed in.
 */
module Accounts {
  import opened Common

  /** The auth.lockout configuration: maximum failures and lock window in minutes. */
  datatype LockoutConfig = LockoutConfig(maxAttempts: int, decayMinutes: int)

  /** The values used when auth.lockout.max_attempts / decay_minutes are not configured. */
  const DefaultLockout := LockoutConfig(5, 15)

  /** The value of one users row, as far as login is concerned. */
  datatype Account = Account(
    email: string,
    role: string,
    status: string,
    failedLoginAttempts: nat,
    lockedUntil: Option<int>)

  /** Only the exact status "active" counts as active. */
  predicate IsActive(a: Account) {
    a.status == "active"
  }

  /** Locked while the lock time lies strictly after now. */
  predicate IsLocked(a: Account, now: int) {
    a.lockedUntil.Some? && a.lockedUntil.value > now
  }

  /** Exact, case-sensitive comparison with the single role tag. */
  predicate HasRole(a: Account, role: string) {
    a.role == role
  }

  /** The state clearLockout writes: counter zero, no lock, identity untouched. */
  function ClearedLockout(a: Account): (r: Account)
    ensures r.failedLoginAttempts == 0 && r.lockedUntil.None?
    ensures r.email == a.email && r.role == a.role && r.status == a.status
  {
    a.(failedLoginAttempts := 0, lockedUntil := None)
  }

  /**
   * The state recordFailedLogin writes at time `now`: one more failure, a
   * lock window of cfg.decayMinutes from now once the new count reaches the
   * threshold, and no lock at all below it.
   */
  function AfterFailedLogin(a: Account, now: int, cfg: LockoutConfig): (r: Account)
    ensures r.failedLoginAttempts == a.failedLoginAttempts + 1
    ensures r.lockedUntil.Some? <==> r.failedLoginAttempts >= cfg.maxAttempts
    ensures r.lockedUntil.Some? ==> r.lockedUntil.value == now + 60 * cfg.decayMinutes
    ensures r.email == a.email && r.role == a.role && r.status == a.status
  {
    var attempts := a.failedLoginAttempts + 1;
    a.(failedLoginAttempts := attempts,
       lockedUntil := if attempts >= cfg.maxAttempts then Some(now + 60 * cfg.decayMinutes) else None)
  }

  /** A users row whose lockout fields are updated in place. */
  class User {
    var email: string
    var role: string
    var status: string
    var failedLoginAttempts: nat
    var lockedUntil: Option<int>

    /** A new row gets the column defaults: no failures, no lock. */
    constructor (email: string, role: string, status: string)
      ensures View() == Account(email, role, status, 0, None)
    {
      this.email := email;
      this.role := role;
      this.status := status;
      failedLoginAttempts := 0;
      lockedUntil := None;
    }

    /** The row's current value. */
    function View(): Account
      reads this
    {
      Account(email, role, status, failedLoginAttempts, lockedUntil)
    }

    method ClearLockout()
      modifies this
      ensures View() == ClearedLockout(old(View()))
    {
      failedLoginAttempts := 0;
      lockedUntil := None;
    }

    method RecordFailedLogin(now: int, cfg: LockoutConfig)
      modifies this
      ensures View() == AfterFailedLogin(old(View()), now, cfg)
    {
      var attempts := failedLoginAttempts + 1;
      failedLoginAttempts := attempts;
      lockedUntil := if attempts >= cfg.maxAttempts then Some(now + 60 * cfg.decayMinutes) else None;
    }
  }

  // -----------------------------------------------------------------------
  // Properties of the account state machine

  /** A lock time at or before now is no lock, whatever the counter says. */
  lemma ExpiredLockIsNoLock(a: Account, now: int)
    requires a.lockedUntil.Some? && a.lockedUntil.value <= now
    ensures !IsLocked(a, now)
  {
  }

  /** Clearing twice leaves the same row as clearing once, and a cleared row is never locked. */
  lemma ClearLockoutIdempotent(a: Account, now: int)
    ensures ClearedLockout(ClearedLockout(a)) == ClearedLockout(a)
    ensures !IsLocked(ClearedLockout(a), now)
  {
  }

  /** A failure below the threshold removes a stale lock left from an earlier window. */
  lemma FailureBelowThresholdUnlocks(a: Account, now: int, later: int, cfg: LockoutConfig)
    requires a.failedLoginAttempts + 1 < cfg.maxAttempts
    ensures !IsLocked(AfterFailedLogin(a, now, cfg), later)
  {
  }

  /**
   * A failure while locked never ends the lock early: the window is re-armed
   * from the current time, so it lasts at least until now + decay.
   */
  lemma FailureWhileLockedReArms(a: Account, now: int, cfg: LockoutConfig)
    requires a.failedLoginAttempts >= cfg.maxAttempts
    requires cfg.decayMinutes > 0
    ensures AfterFailedLogin(a, now, cfg).lockedUntil == Some(now + 60 * cfg.decayMinutes)
    ensures IsLocked(AfterFailedLogin(a, now, cfg), now)
  {
  }

  /** The row after a run of failures at the given times, oldest first. */
  function Failures(a: Account, times: seq<int>, cfg: LockoutConfig): Account
    decreases |times|
  {
    if times == [] then a
    else AfterFailedLogin(Failures(a, times[..|times| - 1], cfg), times[|times| - 1], cfg)
  }

  /**
   * After n failures the counter has grown by exactly n (there is no cap),
   * identity fields are untouched, and the lock is set exactly when the
   * final count reaches the threshold, measured from the last failure.
   */
  lemma {:induction false} FailuresEffect(a: Account, times: seq<int>, cfg: LockoutConfig)
    requires times != []
    ensures var r := Failures(a, times, cfg);
      && r.failedLoginAttempts == a.failedLoginAttempts + |times|
      && r.email == a.email && r.role == a.role && r.status == a.status
      && (r.lockedUntil.Some? <==> a.failedLoginAttempts + |times| >= cfg.maxAttempts)
      && (r.lockedUntil.Some? ==> r.lockedUntil.value == times[|times| - 1] + 60 * cfg.decayMinutes)
    decreases |times|
  {
    if |times| > 1 {
      FailuresEffect(a, times[..|times| - 1], cfg);
    }
  }

  /**
   * With the default configuration, five failures from a clean row give a
   * count of 5 and a lock that is in force right after the fifth failure;
   * four failures leave the row unlocked at every time.
   */
  lemma FiveFailuresLock(a: Account, times: seq<int>)
    requires a.failedLoginAttempts == 0
    requires |times| == 5
    ensures Failures(a, times, DefaultLockout).failedLoginAttempts == 5
    ensures Failures(a, times, DefaultLockout).lockedUntil == Some(times[4] + 900)
    ensures IsLocked(Failures(a, times, DefaultLockout), times[4])
    ensures forall now :: !IsLocked(Failures(a, times[..4], DefaultLockout), now)
  {
    FailuresEffect(a, times, DefaultLockout);
    FailuresEffect(a, times[..4], DefaultLockout);
  }
}
