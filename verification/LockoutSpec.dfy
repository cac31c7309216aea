/** Login lockout: per-account counters against the full history of attempts. */
module LockoutSpec {
  import opened Common

  const MAX_FAILED_ATTEMPTS := 5
  const LOCKOUT_SECONDS := 900

  datatype Account = Account(failed: nat, lockedUntil: Option<int>)

  /** `Success` also stands for an administrator's unlock, which does the same. */
  datatype Event = Failure(email: string, time: int) | Success(email: string)

  type Accounts = map<string, Account>

  const CLEAN := Account(0, None)

  function Fail(a: Account, now: int): Account {
    var failed := a.failed + 1;
    Account(failed, if failed >= MAX_FAILED_ATTEMPTS then Some(now + LOCKOUT_SECONDS) else a.lockedUntil)
  }

  /** Attempts on unknown accounts change nothing. */
  function Step(s: Accounts, e: Event): Accounts {
    if e.email !in s then s
    else if e.Failure? then s[e.email := Fail(s[e.email], e.time)]
    else s[e.email := CLEAN]
  }

  predicate Locked(s: Accounts, email: string, now: int) {
    email in s && s[email].lockedUntil.Some? && now < s[email].lockedUntil.value
  }

  function Start(emails: set<string>): Accounts {
    map e | e in emails :: CLEAN
  }

  function Run(emails: set<string>, es: seq<Event>): Accounts {
    if es == [] then Start(emails) else Step(Run(emails, es[..|es| - 1]), es[|es| - 1])
  }

  // ----- the rule, stated on the history alone -----

  /** Times of the account's failures since its last success or unlock. */
  function Streak(es: seq<Event>, email: string): seq<int> {
    if es == [] then []
    else
      var e := es[|es| - 1];
      var streak := Streak(es[..|es| - 1], email);
      if e.email != email then streak
      else if e.Failure? then streak + [e.time] else []
  }

  ghost predicate LockedByRule(es: seq<Event>, email: string, now: int) {
    var streak := Streak(es, email);
    5 <= |streak| && now < streak[|streak| - 1] + 15 * 60
  }

  lemma {:induction false} AccountFromStreak(emails: set<string>, es: seq<Event>, email: string)
    ensures var (s, streak) := (Run(emails, es), Streak(es, email));
            && s.Keys == emails
            && (email in emails ==>
                  s[email] == Account(|streak|, if |streak| >= MAX_FAILED_ATTEMPTS
                                                then Some(streak[|streak| - 1] + LOCKOUT_SECONDS) else None))
  {
    if es != [] {
      AccountFromStreak(emails, es[..|es| - 1], email);
    }
  }

  /**
   For every history, a known account is locked exactly when at least five failures occurred since
   its last success or unlock and the latest of them is less than fifteen minutes old.
   */
  lemma LockedExactly(emails: set<string>, es: seq<Event>, email: string, now: int)
    ensures Locked(Run(emails, es), email, now) <==> email in emails && LockedByRule(es, email, now)
  {
    AccountFromStreak(emails, es, email);
  }

  /** A lock that has run out does not clear the streak: the next failure locks at once. */
  lemma RelocksAtOnce(emails: set<string>, es: seq<Event>, email: string, now: int)
    requires email in emails && 5 <= |Streak(es, email)|
    ensures Locked(Run(emails, es + [Failure(email, now)]), email, now)
  {
    var e := Failure(email, now);
    assert (es + [e])[..|es|] == es;
    LockedExactly(emails, es + [e], email, now);
  }

  lemma {:induction false} StreakIgnoresOthers(es: seq<Event>, others: seq<Event>, email: string)
    requires forall i :: 0 <= i < |others| ==> others[i].email != email
    ensures Streak(es + others, email) == Streak(es, email)
  {
    if others == [] {
      assert es + others == es;
    } else {
      var n := |others| - 1;
      assert (es + others)[..|es + others| - 1] == es + others[..n];
      StreakIgnoresOthers(es, others[..n], email);
    }
  }

  /** Attempts on other accounts change neither the stored account nor whether it is locked. */
  lemma AccountsIndependent(emails: set<string>, es: seq<Event>, others: seq<Event>, email: string, now: int)
    requires forall i :: 0 <= i < |others| ==> others[i].email != email
    ensures var (s, t) := (Run(emails, es), Run(emails, es + others));
            && (email in t <==> email in s)
            && (email in s ==> t[email] == s[email])
            && (Locked(t, email, now) <==> Locked(s, email, now))
  {
    StreakIgnoresOthers(es, others, email);
    AccountFromStreak(emails, es, email);
    AccountFromStreak(emails, es + others, email);
  }
}
