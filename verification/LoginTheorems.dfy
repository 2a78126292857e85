/** How many wrong guesses the lockout leaves, over any run of logins. */
module LoginTheorems {
  import opened LoginRules
  import opened MfaSecrets
  import opened Options

  /** The failure that first locks the account. */
  function Threshold(p: Policy): nat
    ensures Threshold(p) >= 1
  {
    if p.maxAttempts < 1 then 1 else p.maxAttempts
  }

  /** From the threshold on, each failure is evaluated only after the previous one's lock ran out. */
  predicate Spaced(p: Policy, fs: seq<Evaluated>) {
    && (forall i :: 0 <= i < |fs| ==> fs[i].checked <= fs[i].written)
    && (forall i, j :: 0 <= i && j == i + 1 && Threshold(p) <= j < |fs| ==> fs[i].written + p.lockout <= fs[j].checked)
  }

  predicate Inv(p: Policy, s: Session) {
    && s.account.failed == |s.failures|
    && s.account.lockedUntil == (if |s.failures| < Threshold(p) then None
                                 else Some(s.failures[|s.failures| - 1].written + p.lockout))
    && Spaced(p, s.failures)
  }

  lemma NextKeepsInv(p: Policy, s: Session, step: Step)
    requires Inv(p, s) && (step.Login? ==> step.attempt.checked <= step.attempt.written)
    ensures Inv(p, Next(p, s, step))
  {}

  lemma {:induction false} RunKeepsInv(p: Policy, a: Account, steps: seq<Step>)
    requires Timely(steps)
    ensures Inv(p, Run(p, Fresh(a), steps))
  {
    if steps != [] {
      RunKeepsInv(p, a, steps[..|steps| - 1]);
      NextKeepsInv(p, Run(p, Fresh(a), steps[..|steps| - 1]), steps[|steps| - 1]);
    }
  }

  lemma {:induction false} SpacedFrom(p: Policy, fs: seq<Evaluated>, k: nat)
    requires Spaced(p, fs) && Threshold(p) <= k <= |fs|
    ensures fs[k - 1].written >= fs[Threshold(p) - 1].written + (k - Threshold(p)) * p.lockout
    ensures k > Threshold(p) ==> fs[k - 1].checked >= fs[Threshold(p) - 1].written + (k - Threshold(p)) * p.lockout
  {
    if k > Threshold(p) {
      SpacedFrom(p, fs, k - 1);
      assert fs[k - 2].written + p.lockout <= fs[k - 1].checked;
      assert (k - Threshold(p)) * p.lockout == (k - 1 - Threshold(p)) * p.lockout + p.lockout;
    }
  }

  /**
    Since the last success, the k-th failure is not evaluated before (k - threshold) lockouts
    have passed since the failure at the threshold, whether passwords or codes were wrong.
   */
  lemma KthFailureWaits(p: Policy, a: Account, steps: seq<Step>, k: nat)
    requires Timely(steps)
    requires Threshold(p) < k <= |Run(p, Fresh(a), steps).failures|
    ensures var fs := Run(p, Fresh(a), steps).failures;
            fs[k - 1].checked >= fs[Threshold(p) - 1].written + (k - Threshold(p)) * p.lockout
  {
    RunKeepsInv(p, a, steps);
    SpacedFrom(p, Run(p, Fresh(a), steps).failures, k);
  }

  // ---------- guesses per interval ----------

  function Guesses(fs: seq<Evaluated>, from: int, to: int): nat {
    if fs == [] then 0
    else
      var last := |fs| - 1;
      Guesses(fs[..last], from, to) + (if from <= fs[last].checked <= to then 1 else 0)
  }

  lemma {:induction false} GuessesAreFewer(fs: seq<Evaluated>, from: int, to: int)
    ensures Guesses(fs, from, to) <= |fs|
  {
    if fs != [] {
      GuessesAreFewer(fs[..|fs| - 1], from, to);
    }
  }

  lemma SpacedPrefix(p: Policy, fs: seq<Evaluated>)
    requires Spaced(p, fs) && fs != []
    ensures Spaced(p, fs[..|fs| - 1])
  {}

  lemma LateStep(was: int, from: int, to: int, prev: int, now: int, lockout: int)
    requires lockout >= 0 && prev + lockout <= now
    requires was > 0 ==> from + (was - 1) * lockout <= to && from + (was - 1) * lockout <= prev
    ensures var late := was + (if from <= now <= to then 1 else 0);
            late > 0 ==> from + (late - 1) * lockout <= to && from + (late - 1) * lockout <= now
  {
    assert was * lockout == (was - 1) * lockout + lockout;
  }

  /** The guesses from the threshold on. */
  function Late(p: Policy, fs: seq<Evaluated>, from: int, to: int): int { Guesses(fs, from, to) - (Threshold(p) - 1) }

  /** They are a lockout apart. */
  lemma {:induction false} LateGuesses(p: Policy, fs: seq<Evaluated>, from: int, to: int)
    requires Spaced(p, fs) && p.lockout >= 0 && |fs| >= Threshold(p)
    ensures var late := Late(p, fs, from, to);
            late > 0 ==> from + (late - 1) * p.lockout <= to && from + (late - 1) * p.lockout <= fs[|fs| - 1].checked
  {
    var n := |fs|;
    if n == Threshold(p) {
      GuessesAreFewer(fs[..n - 1], from, to);
    } else {
      SpacedPrefix(p, fs);
      LateGuesses(p, fs[..n - 1], from, to);
      assert fs[n - 2].written + p.lockout <= fs[n - 1].checked;
      LateStep(Late(p, fs[..n - 1], from, to), from, to, fs[n - 2].checked, fs[n - 1].checked, p.lockout);
    }
  }

  lemma GuessesOfSpaced(p: Policy, fs: seq<Evaluated>, from: int, to: int)
    requires Spaced(p, fs) && p.lockout >= 0 && Guesses(fs, from, to) > Threshold(p)
    ensures (Guesses(fs, from, to) - Threshold(p)) * p.lockout <= to - from
  {
    GuessesAreFewer(fs, from, to);
    LateGuesses(p, fs, from, to);
    assert Late(p, fs, from, to) - 1 == Guesses(fs, from, to) - Threshold(p);
  }

  /** Between two successes, the guesses in an interval beyond the threshold need a lockout each. */
  lemma GuessesPerInterval(p: Policy, a: Account, steps: seq<Step>, from: int, to: int)
    requires Timely(steps) && p.lockout >= 0
    ensures var guesses := Guesses(Run(p, Fresh(a), steps).failures, from, to);
            guesses > Threshold(p) ==> (guesses - Threshold(p)) * p.lockout <= to - from
  {
    var fs := Run(p, Fresh(a), steps).failures;
    RunKeepsInv(p, a, steps);
    if Guesses(fs, from, to) > Threshold(p) {
      GuessesOfSpaced(p, fs, from, to);
    }
  }

  // ---------- the second factor ----------

  /** Logging in leaves a readable secret readable as itself, and protected. */
  lemma LoginKeepsSecret(p: Policy, a: Account, t: Attempt, secret: string)
    requires Inverts(p.cipher) && ':' !in t.salt
    requires a.mfaSecret.Some? && Reveal(p.cipher, a.mfaSecret.value) == Some(secret)
    ensures var b := After(p, a, t);
            && b.mfaSecret.Some? && Reveal(p.cipher, b.mfaSecret.value) == Some(secret)
            && (a.mfaEnabled && Answer(p, a, t).LoggedIn? ==> IsProtected(b.mfaSecret.value))
  {
    if !IsProtected(a.mfaSecret.value) {
      RevealUndoesProtect(p.cipher, a.mfaSecret.value, t.salt);
    }
  }

  /** The code was given, the stored secret can be read, and they fit. */
  predicate SecondFactorHolds(p: Policy, a: Account, t: Attempt) {
    && a.mfaSecret.Some? && t.code.Some? && t.code.value != ""
    && Reveal(p.cipher, a.mfaSecret.value).Some?
    && p.totp(Reveal(p.cipher, a.mfaSecret.value).value, t.code.value)
  }

  /** Exactly an unlocked account, the password and, with the second factor on, a code that fits get in. */
  lemma LoginNeedsBoth(p: Policy, a: Account, t: Attempt)
    ensures Answer(p, a, t).LoggedIn? <==>
              !Locked(a, t.checked) && t.password && (a.mfaEnabled ==> SecondFactorHolds(p, a, t))
    ensures Answer(p, a, t).LoggedIn? ==> After(p, a, t).failed == 0 && After(p, a, t).lockedUntil.None?
    ensures Answer(p, a, t).Blocked? || Answer(p, a, t).ServerError? ==> After(p, a, t) == a
    ensures Failure(Answer(p, a, t)) ==> After(p, a, t).failed == a.failed + 1 && After(p, a, t).mfaSecret == a.mfaSecret
  {}

  /** The request gets past the lock and the password, and brings a code that is needed. */
  predicate ReachesCode(a: Account, t: Attempt) {
    && !(a.lockedUntil.Some? && a.lockedUntil.value > t.checked)
    && t.password && a.mfaEnabled && t.code.Some? && t.code.value != ""
  }

  /** A stored secret that is missing, or marked as protected without its three parts. */
  predicate Unusable(secret: Option<string>) {
    secret.None? || ("v1:" <= secret.value && ':' !in secret.value[3..])
  }

  /** Which answer each request gets, and what a failure writes. */
  lemma AnswersAre(p: Policy, a: Account, t: Attempt)
    ensures Answer(p, a, t).Blocked? <==> a.lockedUntil.Some? && a.lockedUntil.value > t.checked
    ensures Answer(p, a, t).BadPassword? <==> !Answer(p, a, t).Blocked? && !t.password
    ensures Answer(p, a, t).ServerError? <==> ReachesCode(a, t) && Unusable(a.mfaSecret)
    ensures Answer(p, a, t).BadCode? <==>
              && !Answer(p, a, t).Blocked? && t.password && a.mfaEnabled
              && !SecondFactorHolds(p, a, t) && !Answer(p, a, t).ServerError?
    ensures var b := After(p, a, t);
            && b.lastLogin == (if Answer(p, a, t).LoggedIn? then Some(t.written) else a.lastLogin)
            && (Answer(p, a, t).BadPassword? || Answer(p, a, t).BadCode? ==>
                  b.lockedUntil == if b.failed >= p.maxAttempts then Some(t.written + p.lockout) else a.lockedUntil)
  {
    if a.mfaSecret.Some? { RevealFails(p.cipher, a.mfaSecret.value); }
  }

  /** Erasing an account lifts its lock, forgets its failures and takes its second factor away. */
  lemma ErasingResets(p: Policy, s: Session)
    ensures var e := Next(p, s, Erase);
            && e.failures == [] && e.account.failed == 0 && e.account.lockedUntil.None?
            && !e.account.mfaEnabled && e.account.mfaSecret.None? && e.account.lastLogin == s.account.lastLogin
  {}
}
