/** What one login attempt does to an account: the lockout counter, the second factor, and its secret. */
module LoginRules {
  import opened MfaSecrets
  import opened Options

  /** `maxAttempts` and the lockout, in seconds. */
  datatype Policy = Policy(maxAttempts: int, lockout: int, cipher: Cipher, totp: (string, string) -> bool)

  datatype Account = Account(
    failed: nat, lockedUntil: Option<int>, mfaEnabled: bool, mfaSecret: Option<string>, lastLogin: Option<int>)

  /** One request: whether the password fits, the code if any, when the lock is looked at and when the row is written. */
  datatype Attempt = Attempt(password: bool, code: Option<string>, checked: int, written: int, salt: string)

  datatype Response = Blocked | BadPassword | BadCode | ServerError | LoggedIn

  predicate Locked(a: Account, now: int) { a.lockedUntil.Some? && a.lockedUntil.value > now }

  /** The second factor: none when the stored secret cannot be read. */
  function CodeFits(p: Policy, a: Account, code: Option<string>): Option<bool> {
    if code.None? || code.value == "" then Some(false)
    else if a.mfaSecret.None? then None
    else
      match Reveal(p.cipher, a.mfaSecret.value)
      case None => None
      case Some(secret) => Some(p.totp(secret, code.value))
  }

  function Answer(p: Policy, a: Account, t: Attempt): Response {
    if Locked(a, t.checked) then Blocked
    else if !t.password then BadPassword
    else if !a.mfaEnabled then LoggedIn
    else
      match CodeFits(p, a, t.code)
      case None => ServerError
      case Some(fits) => if fits then LoggedIn else BadCode
  }

  predicate Failure(r: Response) { r.BadPassword? || r.BadCode? }

  function CountFailure(p: Policy, a: Account, now: int): Account {
    var failed := a.failed + 1;
    a.(failed := failed, lockedUntil := if failed >= p.maxAttempts then Some(now + p.lockout) else a.lockedUntil)
  }

  function Hardened(p: Policy, secret: Option<string>, salt: string): Option<string> {
    if secret.Some? && !IsProtected(secret.value) then Some(Protect(p.cipher, secret.value, salt)) else secret
  }

  function Succeed(p: Policy, a: Account, t: Attempt): Account {
    a.(failed := 0, lockedUntil := None, lastLogin := Some(t.written),
       mfaSecret := if a.mfaEnabled then Hardened(p, a.mfaSecret, t.salt) else a.mfaSecret)
  }

  function After(p: Policy, a: Account, t: Attempt): Account {
    var r := Answer(p, a, t);
    if Failure(r) then CountFailure(p, a, t.written)
    else if r.LoggedIn? then Succeed(p, a, t)
    else a
  }

  // ---------- runs ----------

  datatype Evaluated = Evaluated(checked: int, written: int)

  /** An account with the failures evaluated since it was last reset. */
  datatype Session = Session(account: Account, failures: seq<Evaluated>)

  /** Erasing an account resets its counter too, and takes the second factor away. */
  datatype Step = Login(attempt: Attempt) | Erase

  function Next(p: Policy, s: Session, step: Step): Session {
    match step
    case Login(t) =>
      var r := Answer(p, s.account, t);
      Session(After(p, s.account, t),
              if Failure(r) then s.failures + [Evaluated(t.checked, t.written)]
              else if r.LoggedIn? then []
              else s.failures)
    case Erase => Session(s.account.(failed := 0, lockedUntil := None, mfaEnabled := false, mfaSecret := None), [])
  }

  function Run(p: Policy, s: Session, steps: seq<Step>): Session {
    if steps == [] then s else Next(p, Run(p, s, steps[..|steps| - 1]), steps[|steps| - 1])
  }

  /** Nobody writes before looking. */
  predicate Timely(steps: seq<Step>) {
    forall i :: 0 <= i < |steps| && steps[i].Login? ==> steps[i].attempt.checked <= steps[i].attempt.written
  }

  function Fresh(a: Account): Session { Session(a.(failed := 0, lockedUntil := None), []) }
}
