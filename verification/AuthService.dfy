/** The lockout service over its account table and attempt log. */
module AuthService {
  import opened Common
  import opened LockoutSpec

  datatype Attempt = Attempt(email: string, success: bool, time: int)

  class Lockout {
    var accounts: Accounts
    var attempts: seq<Attempt>

    constructor (emails: set<string>)
      ensures accounts == Run(emails, []) && attempts == []
    {
      accounts := map e | e in emails :: CLEAN;
      attempts := [];
    }

    method IsAccountLocked(email: string, now: int) returns (locked: bool)
      ensures locked == Locked(accounts, email, now)
    {
      if email !in accounts {
        return false;
      }
      var user := accounts[email];
      if user.lockedUntil.Some? && user.lockedUntil.value > now {
        return true;
      }
      return false;
    }

    /** Log the failure, count it, and lock the account from the fifth one on. */
    method RecordFailedAttempt(email: string, now: int) returns (locked: bool)
      modifies this
      ensures accounts == Step(old(accounts), Failure(email, now))
      ensures attempts == old(attempts) + if email in old(accounts) then [Attempt(email, false, now)] else []
      ensures locked == (email in accounts && accounts[email].failed >= MAX_FAILED_ATTEMPTS)
      ensures locked ==> Locked(accounts, email, now)
    {
      if email !in accounts {
        return false;
      }
      var user := accounts[email];
      attempts := attempts + [Attempt(email, false, now)];
      var failed := user.failed + 1;
      var lockedUntil := user.lockedUntil;
      locked := false;
      if failed >= MAX_FAILED_ATTEMPTS {
        lockedUntil := Some(now + LOCKOUT_SECONDS);
        locked := true;
      }
      accounts := accounts[email := Account(failed, lockedUntil)];
    }

    /** Clear the account's failures and lock; also the administrator's unlock. */
    method RecordSuccessfulAttempt(email: string)
      modifies this`accounts
      ensures accounts == Step(old(accounts), Success(email))
    {
      if email in accounts {
        accounts := accounts[email := CLEAN];
      }
    }
  }
}
