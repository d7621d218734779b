/**
 * myonly79/auth.js: the password check with its lockout. Three wrong
 * passwords lock the account for fifteen minutes; while it is locked every
 * attempt fails; once the time has passed the count starts again. The clock
 * (`Date.now()`) is a parameter, in milliseconds.
 */
module Myonly79Auth {
  import opened Wrappers

  const MaxAttempts: int := 3
  /** Fifteen minutes, in milliseconds. */
  const LockMillis: int := 15 * 60 * 1000
  const CorrectPassword: string := "123456"

  /** `AuthState`; `lockUntil` is `null` when `None`. */
  datatype AuthData = AuthData(isAuthenticated: bool, attempts: int, lockUntil: Option<int>)

  const Initial: AuthData := AuthData(false, 0, None)

  /** `if (AuthState.lockUntil)`: a set, non-zero time. */
  predicate HasLock(s: AuthData) { s.lockUntil.Some? && s.lockUntil.value != 0 }

  /** `Math.ceil(ms / 60000)` for a positive number of milliseconds. */
  function CeilMinutes(ms: int): (m: int)
    requires ms > 0
    ensures m >= 1 && (m - 1) * 60000 < ms <= m * 60000
  {
    (ms + 59999) / 60000
  }

  /**
   * `isLocked()`: `Some(remaining minutes)` while the lock runs. A lock whose
   * time has come is cleared together with the count of attempts.
   */
  function CheckLock(s: AuthData, now: int): (r: (AuthData, Option<int>))
    ensures r.1.Some? <==> HasLock(s) && now < s.lockUntil.value
    ensures r.1.Some? ==> r.0 == s && r.1.value >= 1
    ensures r.1.None? && HasLock(s) ==> r.0 == s.(attempts := 0, lockUntil := None)
    ensures !HasLock(s) ==> r == (s, None)
  {
    if HasLock(s) then
      if now < s.lockUntil.value then (s, Some(CeilMinutes(s.lockUntil.value - now)))
      else (s.(attempts := 0, lockUntil := None), None)
    else (s, None)
  }

  /** The result objects of `validatePassword`, by message. */
  datatype Outcome =
    | Locked(remainingMinutes: int)   // still locked
    | Success
    | LockedNow                       // this failure locked the account
    | Wrong(remainingAttempts: int)

  /** `validatePassword(password)` at time `now`: the new state and the result. */
  function Validate(s: AuthData, password: string, now: int): (AuthData, Outcome) {
    var (t, lock) := CheckLock(s, now);
    if lock.Some? then (t, Locked(lock.value))
    else if password == CorrectPassword then (t.(isAuthenticated := true, attempts := 0), Success)
    else
      var failed := t.(attempts := t.attempts + 1);
      if failed.attempts >= MaxAttempts then (failed.(lockUntil := Some(now + LockMillis)), LockedNow)
      else (failed, Wrong(MaxAttempts - failed.attempts))
  }

  /** A count of attempts within bounds, and a lock whenever the count has reached the maximum. */
  predicate Valid(s: AuthData) {
    0 <= s.attempts <= MaxAttempts && (s.attempts == MaxAttempts ==> HasLock(s))
  }

  /** Every attempt keeps the state valid, for any clock reading that is not negative. */
  lemma ValidateValid(s: AuthData, password: string, now: int)
    requires Valid(s) && now >= 0
    ensures Valid(Validate(s, password, now).0)
  {
  }

  /** The correct password is accepted exactly when no lock runs, and resets the count. */
  lemma SuccessIffUnlocked(s: AuthData, password: string, now: int)
    ensures Validate(s, password, now).1 == Success <==>
      password == CorrectPassword && !(HasLock(s) && now < s.lockUntil.value)
    ensures Validate(s, password, now).1 == Success ==>
      Validate(s, password, now).0.isAuthenticated && Validate(s, password, now).0.attempts == 0
  {
  }

  /** While the lock runs, any password, the correct one included, fails and changes nothing. */
  lemma LockedRejectsAll(s: AuthData, password: string, now: int)
    requires HasLock(s) && now < s.lockUntil.value
    ensures Validate(s, password, now) == (s, Locked(CeilMinutes(s.lockUntil.value - now)))
  {
  }

  /** A wrong password reports how many attempts are left, and that number falls by one. */
  lemma WrongCountsDown(s: AuthData, password: string, now: int)
    requires Valid(s) && !HasLock(s) && password != CorrectPassword
    ensures var (t, o) := Validate(s, password, now);
      t.attempts == s.attempts + 1
      && (o.Wrong? ==> o.remainingAttempts == MaxAttempts - t.attempts && o.remainingAttempts >= 1)
      && (o == LockedNow <==> s.attempts == MaxAttempts - 1)
  {
  }

  /**
   * From the initial state, three wrong passwords lock the account for
   * fifteen minutes from the third, and the correct password is refused
   * until then.
   */
  lemma ThreeStrikes(p1: string, p2: string, p3: string, t1: int, t2: int, t3: int, later: int)
    requires p1 != CorrectPassword && p2 != CorrectPassword && p3 != CorrectPassword
    requires 0 <= t3 && t3 <= later < t3 + LockMillis
    ensures var (s1, o1) := Validate(Initial, p1, t1);
      var (s2, o2) := Validate(s1, p2, t2);
      var (s3, o3) := Validate(s2, p3, t3);
      o1 == Wrong(2) && o2 == Wrong(1) && o3 == LockedNow
      && s3.lockUntil == Some(t3 + LockMillis)
      && Validate(s3, CorrectPassword, later).1.Locked?
      && Validate(s3, CorrectPassword, later).1.remainingMinutes <= 15
  {
    var ms := t3 + LockMillis - later;
    assert 0 < ms <= LockMillis;
    assert CeilMinutes(ms) <= 15 by {
      assert (ms + 59999) / 60000 <= (LockMillis + 59999) / 60000;
    }
  }

  /** Once the lock's time has come, the correct password is accepted again. */
  lemma ExpiredLockClears(s: AuthData, now: int)
    requires HasLock(s) && now >= s.lockUntil.value
    ensures Validate(s, CorrectPassword, now) == (s.(isAuthenticated := true, attempts := 0, lockUntil := None), Success)
  {
  }

  /** `AuthState` with `isLocked`, `validatePassword` and `logout` updating it. */
  class Auth {
    var isAuthenticated: bool
    var attempts: int
    var lockUntil: Option<int>

    function Data(): AuthData
      reads this
    {
      AuthData(isAuthenticated, attempts, lockUntil)
    }

    constructor ()
      ensures Data() == Initial
    {
      isAuthenticated, attempts, lockUntil := false, 0, None;
    }

    method IsLocked(now: int) returns (remainingMinutes: Option<int>)
      modifies this
      ensures (Data(), remainingMinutes) == CheckLock(old(Data()), now)
    {
      remainingMinutes := None;
      if lockUntil.Some? && lockUntil.value != 0 {
        if now < lockUntil.value {
          remainingMinutes := Some(CeilMinutes(lockUntil.value - now));
        } else {
          lockUntil := None;
          attempts := 0;
        }
      }
    }

    method ValidatePassword(password: string, now: int) returns (outcome: Outcome)
      modifies this
      ensures (Data(), outcome) == Validate(old(Data()), password, now)
    {
      var lock := IsLocked(now);
      if lock.Some? {
        return Locked(lock.value);
      }
      if password == CorrectPassword {
        isAuthenticated := true;
        attempts := 0;
        return Success;
      }
      attempts := attempts + 1;
      if attempts >= MaxAttempts {
        lockUntil := Some(now + LockMillis);
        return LockedNow;
      }
      outcome := Wrong(MaxAttempts - attempts);
    }

    /** `logout()`: only the authenticated flag changes. */
    method Logout()
      modifies this
      ensures Data() == old(Data()).(isAuthenticated := false)
    {
      isAuthenticated := false;
    }
  }
}
