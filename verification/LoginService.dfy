/** The login endpoint over a user row it updates in place. */
module LoginService {
  import opened LoginRules
  import opened MfaSecrets
  import opened Options

  class User {
    var failedAttempts: nat
    var lockedUntil: Option<int>
    var mfaEnabled: bool
    var mfaSecret: Option<string>
    var lastLogin: Option<int>

    ghost function View(): Account
      reads this
    {
      Account(failedAttempts, lockedUntil, mfaEnabled, mfaSecret, lastLogin)
    }

    constructor (a: Account)
      ensures View() == a
    {
      failedAttempts := a.failed;
      lockedUntil := a.lockedUntil;
      mfaEnabled := a.mfaEnabled;
      mfaSecret := a.mfaSecret;
      lastLogin := a.lastLogin;
    }

    method RecordFailure(p: Policy, now: int)
      modifies this`failedAttempts, this`lockedUntil
      ensures View() == CountFailure(p, old(View()), now)
    {
      failedAttempts := failedAttempts + 1;
      if failedAttempts >= p.maxAttempts {
        lockedUntil := Some(now + p.lockout);
      }
    }

    method Login(p: Policy, t: Attempt) returns (response: Response)
      modifies this
      ensures response == Answer(p, old(View()), t)
      ensures View() == After(p, old(View()), t)
    {
      if lockedUntil.Some? && lockedUntil.value > t.checked {
        return Blocked;
      }
      if !t.password {
        RecordFailure(p, t.written);
        return BadPassword;
      }
      if mfaEnabled {
        if t.code.None? || t.code.value == "" {
          RecordFailure(p, t.written);
          return BadCode;
        }
        if mfaSecret.None? {
          return ServerError;
        }
        var secret := Reveal(p.cipher, mfaSecret.value);
        if secret.None? {
          return ServerError;
        }
        if !p.totp(secret.value, t.code.value) {
          RecordFailure(p, t.written);
          return BadCode;
        }
        if !IsProtected(mfaSecret.value) {
          mfaSecret := Some(Protect(p.cipher, mfaSecret.value, t.salt));
        }
      }
      failedAttempts := 0;
      lockedUntil := None;
      lastLogin := Some(t.written);
      return LoggedIn;
    }
  }
}
