/**
 * The login attempt guard: the pre-login gate that refuses disabled and
 * locked accounts, the listener that records a failed attempt against the
 * account named in the submitted credentials, and the listener that clears
 * the lockout after a successful login. The users table is a sequence of
 * rows in query order; `where(email, x)->first()` is the first row whose
 * email equals x.
 */
module LoginGuard {
  import opened Common
  import opened Accounts

  /** The request field that names the account. */
  const UsernameField := "email"

  /** What the gate does with an attempt: hand it on, or reject it on the username field. */
  datatype Decision = Proceed | AccountDisabled | AccountLocked(minutes: int)

  /** Index of the first row whose email is the given username, if any. */
  function FindUser(rows: seq<Account>, username: Option<string>): (r: Option<nat>)
    ensures r.Some? ==> username.Some? && r.value < |rows| && rows[r.value].email == username.value
    ensures r.Some? ==> forall j :: 0 <= j < r.value ==> rows[j].email != username.value
    ensures r.None? && username.Some? ==> forall j :: 0 <= j < |rows| ==> rows[j].email != username.value
    decreases |rows|
  {
    if username.None? || rows == [] then None
    else if rows[0].email == username.value then Some(0)
    else match FindUser(rows[1..], username)
      case Some(k) => Some(k + 1)
      case None => None
  }

  /** The username the login request carries, if the field is present. */
  function RequestUsername(request: map<string, string>): Option<string> {
    if UsernameField in request then Some(request[UsernameField]) else None
  }

  // -----------------------------------------------------------------------
  // Pre-login gate

  /** Whole minutes left on a lock, partial minutes rounded up. */
  function LockedMinutes(lockedUntil: int, now: int): (m: int)
    requires lockedUntil > now
    ensures m >= 1
    ensures 60 * (m - 1) < lockedUntil - now <= 60 * m
  {
    (lockedUntil - now + 59) / 60
  }

  /** The gate's decision for an account that was found. */
  function CheckAccount(a: Account, now: int): (d: Decision)
    ensures d == AccountDisabled <==> !IsActive(a)
    ensures d.AccountLocked? <==> IsActive(a) && IsLocked(a, now)
    ensures d.AccountLocked? ==> d.minutes == LockedMinutes(a.lockedUntil.value, now)
    ensures d == Proceed <==> IsActive(a) && !IsLocked(a, now)
  {
    if !IsActive(a) then AccountDisabled
    else if IsLocked(a, now) then AccountLocked(LockedMinutes(a.lockedUntil.value, now))
    else Proceed
  }

  /** The pre-attempt check: unknown usernames pass on, known ones are checked. */
  function EnsureAccountCanLogin(rows: seq<Account>, request: map<string, string>, now: int): (d: Decision)
    ensures FindUser(rows, RequestUsername(request)).None? ==> d == Proceed
    ensures FindUser(rows, RequestUsername(request)).Some? ==>
      d == CheckAccount(rows[FindUser(rows, RequestUsername(request)).value], now)
  {
    match FindUser(rows, RequestUsername(request))
    case None => Proceed
    case Some(i) => CheckAccount(rows[i], now)
  }

  /** An inactive account is refused as disabled, whatever its counter and lock. */
  lemma DisabledBeforeLocked(rows: seq<Account>, request: map<string, string>, now: int, i: nat)
    requires FindUser(rows, RequestUsername(request)) == Some(i)
    requires !IsActive(rows[i])
    ensures EnsureAccountCanLogin(rows, request, now) == AccountDisabled
  {
  }

  /** A full fifteen-minute lock reports 15 minutes; thirty seconds left reports 1. */
  lemma LockedMinutesExamples(now: int)
    ensures LockedMinutes(now + 900, now) == 15
    ensures LockedMinutes(now + 30, now) == 1
  {
  }

  /**
   * A failure that takes the counter from 4 to 5 under the default
   * configuration locks the account: the gate refuses it at any time in the
   * following fifteen minutes and reports between 1 and 15 minutes.
   */
  lemma LockedAfterFifthFailure(a: Account, t: int, now: int)
    requires IsActive(a) && a.failedLoginAttempts == 4
    requires t <= now < t + 900
    ensures CheckAccount(AfterFailedLogin(a, t, DefaultLockout), now).AccountLocked?
    ensures 1 <= CheckAccount(AfterFailedLogin(a, t, DefaultLockout), now).minutes <= 15
  {
    var m := CheckAccount(AfterFailedLogin(a, t, DefaultLockout), now).minutes;
    assert 60 * (m - 1) < t + 900 - now <= 900;
  }

  // -----------------------------------------------------------------------
  // The rows as objects

  /** The value of every row. */
  function Views(rows: seq<User>): (r: seq<Account>)
    reads set u | u in rows
    ensures |r| == |rows|
    ensures forall i :: 0 <= i < |rows| ==> r[i] == rows[i].View()
  {
    if rows == [] then [] else [rows[0].View()] + Views(rows[1..])
  }

  /** Each row of a query result is its own object. */
  predicate Distinct(rows: seq<User>) {
    forall i, j :: 0 <= i < j < |rows| ==> rows[i] != rows[j]
  }

  // -----------------------------------------------------------------------
  // Failure listener

  /** The submitted username, unless it is missing or falsy to PHP ("" and "0"). */
  function SubmittedUsername(credentials: map<string, string>): (r: Option<string>)
    ensures r.Some? <==> UsernameField in credentials && credentials[UsernameField] !in {"", "0"}
    ensures r.Some? ==> r.value == credentials[UsernameField]
  {
    if UsernameField in credentials && credentials[UsernameField] != "" && credentials[UsernameField] != "0"
    then Some(credentials[UsernameField])
    else None
  }

  /** The table after one failed attempt with the given credentials. */
  function FailedOnStore(rows: seq<Account>, credentials: map<string, string>, now: int, cfg: LockoutConfig): (r: seq<Account>)
    ensures |r| == |rows|
  {
    match FindUser(rows, SubmittedUsername(credentials))
    case None => rows
    case Some(i) => rows[i := AfterFailedLogin(rows[i], now, cfg)]
  }

  method RecordFailedLoginAttempt(rows: seq<User>, credentials: map<string, string>, now: int, cfg: LockoutConfig)
    requires Distinct(rows)
    modifies set u | u in rows
    ensures Views(rows) == FailedOnStore(old(Views(rows)), credentials, now, cfg)
  {
    var username := SubmittedUsername(credentials);
    if username.None? {
      return;
    }
    var found := FindUser(Views(rows), username);
    if found.Some? {
      rows[found.value].RecordFailedLogin(now, cfg);
    }
  }

  /** Credentials without a usable username change nothing. */
  lemma FailureWithoutUsernameIgnored(rows: seq<Account>, credentials: map<string, string>, now: int, cfg: LockoutConfig)
    requires UsernameField !in credentials || credentials[UsernameField] in {"", "0"}
    ensures FailedOnStore(rows, credentials, now, cfg) == rows
  {
  }

  /** A username no row carries changes nothing and raises nothing. */
  lemma FailureForUnknownUserIgnored(rows: seq<Account>, credentials: map<string, string>, now: int, cfg: LockoutConfig)
    requires forall j :: 0 <= j < |rows| ==> UsernameField !in credentials || rows[j].email != credentials[UsernameField]
    ensures FailedOnStore(rows, credentials, now, cfg) == rows
  {
  }

  /**
   * The matching row gains exactly one failure and is locked exactly when it
   * reaches the threshold; every other row is untouched.
   */
  lemma FailureCountsAgainstMatch(rows: seq<Account>, credentials: map<string, string>, now: int, cfg: LockoutConfig, i: nat)
    requires i < |rows| && SubmittedUsername(credentials) == Some(rows[i].email)
    requires forall j :: 0 <= j < i ==> rows[j].email != rows[i].email
    ensures var r := FailedOnStore(rows, credentials, now, cfg);
      && |r| == |rows|
      && r[i] == AfterFailedLogin(rows[i], now, cfg)
      && r[i].failedLoginAttempts == rows[i].failedLoginAttempts + 1
      && (r[i].lockedUntil.Some? <==> r[i].failedLoginAttempts >= cfg.maxAttempts)
      && (r[i].lockedUntil.Some? ==> r[i].lockedUntil.value == now + 60 * cfg.decayMinutes)
      && (forall j :: 0 <= j < |rows| && j != i ==> r[j] == rows[j])
  {
  }

  /** The table after failed attempts with the same credentials at the given times. */
  function FailedRun(rows: seq<Account>, credentials: map<string, string>, times: seq<int>, cfg: LockoutConfig): (r: seq<Account>)
    ensures |r| == |rows|
    decreases |times|
  {
    if times == [] then rows
    else FailedOnStore(FailedRun(rows, credentials, times[..|times| - 1], cfg), credentials, times[|times| - 1], cfg)
  }

  /** Rows with the same emails agree on which row a username finds. */
  lemma {:induction false} FindUserByEmails(a: seq<Account>, b: seq<Account>, username: Option<string>)
    requires |a| == |b|
    requires forall j :: 0 <= j < |a| ==> a[j].email == b[j].email
    ensures FindUser(a, username) == FindUser(b, username)
    decreases |a|
  {
    if username.Some? && a != [] && a[0].email != username.value {
      FindUserByEmails(a[1..], b[1..], username);
    }
  }

  /**
   * Repeated failures through the listener act on the matched row as the
   * same run of failures acts on the account, and on no other row.
   */
  lemma {:induction false} FailedRunEffect(rows: seq<Account>, credentials: map<string, string>, times: seq<int>, cfg: LockoutConfig, i: nat)
    requires FindUser(rows, SubmittedUsername(credentials)) == Some(i)
    ensures var r := FailedRun(rows, credentials, times, cfg);
      && |r| == |rows|
      && r[i] == Failures(rows[i], times, cfg)
      && (forall j :: 0 <= j < |rows| && j != i ==> r[j] == rows[j])
      && FindUser(r, SubmittedUsername(credentials)) == Some(i)
    decreases |times|
  {
    if times != [] {
      var prefix := times[..|times| - 1];
      FailedRunEffect(rows, credentials, prefix, cfg, i);
      var before := FailedRun(rows, credentials, prefix, cfg);
      var after := FailedRun(rows, credentials, times, cfg);
      assert after == before[i := AfterFailedLogin(before[i], times[|times| - 1], cfg)];
      FindUserByEmails(after, before, SubmittedUsername(credentials));
    }
  }

  /**
   * Five failed attempts in a row against an active account with a clean
   * counter, under the default configuration, leave it with count 5 and a
   * lock, and the gate then refuses it with 15 minutes to wait.
   */
  lemma FiveFailedAttemptsLockOut(
    rows: seq<Account>, credentials: map<string, string>, times: seq<int>, i: nat, request: map<string, string>)
    requires FindUser(rows, SubmittedUsername(credentials)) == Some(i)
    requires rows[i].failedLoginAttempts == 0 && IsActive(rows[i])
    requires |times| == 5
    requires RequestUsername(request) == SubmittedUsername(credentials)
    ensures FailedRun(rows, credentials, times, DefaultLockout)[i].failedLoginAttempts == 5
    ensures FailedRun(rows, credentials, times, DefaultLockout)[i].lockedUntil.Some?
    ensures EnsureAccountCanLogin(FailedRun(rows, credentials, times, DefaultLockout), request, times[4]) == AccountLocked(15)
  {
    var r := FailedRun(rows, credentials, times, DefaultLockout);
    FailedRunEffect(rows, credentials, times, DefaultLockout, i);
    FiveFailuresLock(rows[i], times);
    FailuresEffect(rows[i], times, DefaultLockout);
    assert r[i] == Failures(rows[i], times, DefaultLockout);
    assert IsActive(r[i]) && IsLocked(r[i], times[4]);
    assert CheckAccount(r[i], times[4]) == AccountLocked(LockedMinutes(times[4] + 900, times[4]));
  }

  // -----------------------------------------------------------------------
  // Success listener

  /** The user a Login event carries: one of ours, or another authenticatable. */
  datatype LoginEvent = UserLogin(user: User) | OtherLogin

  method ClearLoginLockoutOnSuccess(event: LoginEvent)
    modifies if event.UserLogin? then {event.user} else {}
    ensures event.UserLogin? ==> event.user.View() == ClearedLockout(old(event.user.View()))
  {
    if event.UserLogin? {
      event.user.ClearLockout();
    }
  }

  /**
   * A successful login leaves counter 0 and no lock (from 3 failures as
   * from a lock), and an active account then passes the gate at once.
   */
  lemma SuccessReopensLogin(a: Account, now: int)
    requires IsActive(a)
    ensures ClearedLockout(a).failedLoginAttempts == 0
    ensures CheckAccount(ClearedLockout(a), now) == Proceed
  {
  }
}
