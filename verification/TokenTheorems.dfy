/** Single use of refresh tokens and the reach of revocations, over every interleaving. */
module TokenTheorems {
  import opened Options
  import opened TokenRules

  /** Every issued token carries its identity, an expiry, and one set of claims per `jti`. */
  ghost predicate GoodBook(book: map<string, Claims>) {
    forall jti :: jti in book ==>
      jti != "" && book[jti].jti == jti && book[jti].sub != "" && book[jti].exp.Some?
  }

  function ExpMs(book: map<string, Claims>, jti: string): int
    requires jti in book && book[jti].exp.Some?
  {
    book[jti].exp.value * 1000
  }

  // ---------- the invariant ----------

  /** A TTL that was read earlier still reaches `exp` when the command lands later. */
  predicate Reaches(p: Claims, ttl: int, now: nat) {
    p.exp.Some? && ttl >= 1 && now + ttl * 1000 >= p.exp.value * 1000
  }

  ghost predicate CallsOk(book: map<string, Claims>, s: System) {
    forall call :: call in s.calls ==>
      && s.calls[call].claims.jti in book && s.calls[call].claims == book[s.calls[call].claims.jti]
      && (s.calls[call].Consuming? || s.calls[call].Revoking? ==>
            Reaches(s.calls[call].claims, s.calls[call].ttl, s.now))
  }

  /** The marker of a spent `jti` outlives the token. */
  ghost predicate SpentOk(book: map<string, Claims>, s: System)
    requires GoodBook(book)
  {
    forall jti :: jti in s.spent ==>
      && jti in book
      && RevokedJti(jti) in s.redis && s.redis[RevokedJti(jti)].expiresAt >= ExpMs(book, jti)
  }

  ghost predicate UsesOk(book: map<string, Claims>, s: System)
    requires GoodBook(book)
  {
    && (forall i :: 0 <= i < |s.uses| ==> s.uses[i].jti in s.spent && s.uses[i].jti in book)
    && (forall i, j :: 0 <= i < j < |s.uses| && s.uses[i].jti == s.uses[j].jti ==>
          s.uses[j].at >= ExpMs(book, s.uses[j].jti))
  }

  ghost predicate UserOk(c: Settings, s: System, r: UserRevocation) {
    var k := RevokedAfter(r.user);
    && k in s.redis && s.redis[k].mark.After? && r.at <= s.redis[k].mark.ms <= s.now
    && s.redis[k].expiresAt == s.redis[k].mark.ms + Retention(c) * 1000
  }

  ghost predicate Inv(c: Settings, book: map<string, Claims>, s: System) {
    && GoodBook(book) && CallsOk(book, s) && SpentOk(book, s) && UsesOk(book, s)
    && (forall i :: 0 <= i < |s.userRevocations| ==> UserOk(c, s, s.userRevocations[i]))
  }

  /** The arithmetic behind everything: a TTL counted from the floor of the clock reaches `exp`. */
  lemma TtlReachesExp(p: Claims, now: nat)
    requires p.exp.Some?
    ensures Reaches(p, Ttl(p, now), now)
    ensures Ttl(p, now) == 1 || now + Ttl(p, now) * 1000 < p.exp.value * 1000 + 1000
  {
  }

  lemma SendSetKeeps(c: Settings, book: map<string, Claims>, s: System, call: nat)
    requires Inv(c, book, s)
    ensures Inv(c, book, Next(c, book, s, SendSet(call)))
  {
    if call in s.calls && s.calls[call].Consuming? {
      var p := s.calls[call].claims;
      var t := Next(c, book, s, SendSet(call));
      if !Live(s.redis, s.now, RevokedJti(p.jti)) {
        assert Reaches(p, s.calls[call].ttl, s.now);
        assert p.jti in s.spent ==> s.now >= ExpMs(book, p.jti);
        assert UsesOk(book, t);
      }
    }
  }

  lemma SendSetExKeeps(c: Settings, book: map<string, Claims>, s: System, call: nat)
    requires Inv(c, book, s)
    ensures Inv(c, book, Next(c, book, s, SendSetEx(call)))
  {
  }

  lemma RevokeUserKeeps(c: Settings, book: map<string, Claims>, s: System, user: string)
    requires Inv(c, book, s)
    ensures Inv(c, book, Next(c, book, s, RevokeUser(user)))
  {
  }

  /** A step that leaves the store and the records alone needs only its calls to be good. */
  lemma QuietStepKeeps(c: Settings, book: map<string, Claims>, s: System, t: System)
    requires Inv(c, book, s) && CallsOk(book, t) && s.now <= t.now
    requires t.redis == s.redis && t.uses == s.uses && t.spent == s.spent && t.userRevocations == s.userRevocations
    ensures Inv(c, book, t)
  {
    assert forall i :: 0 <= i < |t.userRevocations| ==> UserOk(c, s, s.userRevocations[i]);
  }

  lemma CallStepKeeps(c: Settings, book: map<string, Claims>, s: System, step: Step)
    requires Inv(c, book, s) && (step.Decode? || step.Check? || step.ReadClock? || step.StartRevoke?)
    ensures CallsOk(book, Next(c, book, s, step))
  {
    if step.ReadClock? && step.call in s.calls && s.calls[step.call].Checked? {
      TtlReachesExp(s.calls[step.call].claims, s.now);
    } else if step.StartRevoke? && step.jti in book {
      TtlReachesExp(book[step.jti], s.now);
    }
  }

  lemma NextKeepsInv(c: Settings, book: map<string, Claims>, s: System, step: Step)
    requires Inv(c, book, s)
    ensures Inv(c, book, Next(c, book, s, step))
  {
    match step
    case SendSet(call) => SendSetKeeps(c, book, s, call);
    case SendSetEx(call) => SendSetExKeeps(c, book, s, call);
    case RevokeUser(user) => RevokeUserKeeps(c, book, s, user);
    case Tick(_) => QuietStepKeeps(c, book, s, Next(c, book, s, step));
    case _ =>
      CallStepKeeps(c, book, s, step);
      QuietStepKeeps(c, book, s, Next(c, book, s, step));
  }

  lemma {:induction false} RunKeepsInv(c: Settings, book: map<string, Claims>, now: nat, steps: seq<Step>)
    requires GoodBook(book)
    ensures Inv(c, book, Run(c, book, Start(now), steps))
  {
    if steps != [] {
      RunKeepsInv(c, book, now, steps[..|steps| - 1]);
      NextKeepsInv(c, book, Run(c, book, Start(now), steps[..|steps| - 1]), steps[|steps| - 1]);
    }
  }

  // ---------- single use: section 4.1.7 of RFC 7519 ----------

  /** The uses of one token that landed before its expiry. */
  function EarlyUses(book: map<string, Claims>, uses: seq<Use>, jti: string): nat
    requires jti in book && book[jti].exp.Some?
  {
    if uses == [] then 0
    else
      var u := uses[|uses| - 1];
      EarlyUses(book, uses[..|uses| - 1], jti) + (if u.jti == jti && u.at < ExpMs(book, jti) then 1 else 0)
  }

  lemma {:induction false} EarlyUsesAtMostOne(book: map<string, Claims>, uses: seq<Use>, jti: string)
    requires jti in book && book[jti].exp.Some?
    requires forall i, j :: 0 <= i < j < |uses| && uses[i].jti == jti && uses[j].jti == jti ==>
               uses[j].at >= ExpMs(book, jti)
    ensures EarlyUses(book, uses, jti) <= 1
    ensures EarlyUses(book, uses, jti) == 1 ==> exists i :: 0 <= i < |uses| && uses[i].jti == jti
  {
    if uses != [] {
      var last := |uses| - 1;
      EarlyUsesAtMostOne(book, uses[..last], jti);
      if EarlyUses(book, uses[..last], jti) == 1 {
        var i :| 0 <= i < last && uses[..last][i].jti == jti;
        assert uses[i].jti == jti;
      }
      if uses[last].jti == jti {}
    }
  }

  /**
    Main result: whatever calls interleave, revocations overwriting markers included, at most
    one use of a refresh token lands before the token expires.
   */
  lemma SingleUse(c: Settings, book: map<string, Claims>, now: nat, steps: seq<Step>, jti: string)
    requires GoodBook(book) && jti in book
    ensures EarlyUses(book, Run(c, book, Start(now), steps).uses, jti) <= 1
  {
    RunKeepsInv(c, book, now, steps);
    EarlyUsesAtMostOne(book, Run(c, book, Start(now), steps).uses, jti);
  }

  /** A token that was used or revoked is reported revoked until it expires, in every later state. */
  lemma SpentStaysRevoked(c: Settings, book: map<string, Claims>, now: nat, steps: seq<Step>, jti: string)
    requires GoodBook(book) && jti in book
    requires var s := Run(c, book, Start(now), steps); jti in s.spent && s.now < ExpMs(book, jti)
    ensures var s := Run(c, book, Start(now), steps); IsRevoked(s.redis, s.now, book[jti])
  {
    RunKeepsInv(c, book, now, steps);
  }

  lemma RunNext(c: Settings, book: map<string, Claims>, s: System, steps: seq<Step>, step: Step)
    ensures Run(c, book, s, steps + [step]) == Next(c, book, Run(c, book, s, steps), step)
  {
    assert (steps + [step])[..|steps|] == steps;
  }

  /** Two refreshes of one token that both pass the check and read the clock before either sends SET. */
  function BothRead(jti: string): seq<Step> {
    [] + [Decode(0, jti)] + [Decode(1, jti)] + [Check(0)] + [Check(1)] + [ReadClock(0)] + [ReadClock(1)]
  }

  lemma BothDecoded(c: Settings, book: map<string, Claims>, now: nat, jti: string)
    requires GoodBook(book) && jti in book && !Expired(book[jti], now)
    ensures Run(c, book, Start(now), [] + [Decode(0, jti)] + [Decode(1, jti)])
         == Start(now).(calls := map[0 := Decoded(book[jti]), 1 := Decoded(book[jti])])
  {
    RunNext(c, book, Start(now), [], Decode(0, jti));
    RunNext(c, book, Start(now), [] + [Decode(0, jti)], Decode(1, jti));
  }

  lemma BothChecked(c: Settings, book: map<string, Claims>, now: nat, jti: string)
    requires GoodBook(book) && jti in book
    ensures var p := book[jti];
            var s := Start(now).(calls := map[0 := Decoded(p), 1 := Decoded(p)]);
            Next(c, book, Next(c, book, s, Check(0)), Check(1)) == Start(now).(calls := map[0 := Checked(p), 1 := Checked(p)])
  {
    assert !IsRevoked(map[], now, book[jti]);
  }

  lemma BothReadClock(c: Settings, book: map<string, Claims>, now: nat, jti: string)
    requires GoodBook(book) && jti in book
    ensures var p, ttl := book[jti], Ttl(book[jti], now);
            var s := Start(now).(calls := map[0 := Checked(p), 1 := Checked(p)]);
            Next(c, book, Next(c, book, s, ReadClock(0)), ReadClock(1))
              == Start(now).(calls := map[0 := Consuming(p, ttl), 1 := Consuming(p, ttl)])
  {
  }

  lemma BothReadIsReached(c: Settings, book: map<string, Claims>, now: nat, jti: string)
    requires GoodBook(book) && jti in book && !Expired(book[jti], now)
    ensures var p, ttl := book[jti], Ttl(book[jti], now);
            Run(c, book, Start(now), BothRead(jti)) == Start(now).(calls := map[0 := Consuming(p, ttl), 1 := Consuming(p, ttl)])
  {
    var a := [] + [Decode(0, jti)] + [Decode(1, jti)];
    BothDecoded(c, book, now, jti);
    RunNext(c, book, Start(now), a, Check(0));
    RunNext(c, book, Start(now), a + [Check(0)], Check(1));
    BothChecked(c, book, now, jti);
    RunNext(c, book, Start(now), a + [Check(0)] + [Check(1)], ReadClock(0));
    RunNext(c, book, Start(now), a + [Check(0)] + [Check(1)] + [ReadClock(0)], ReadClock(1));
    BothReadClock(c, book, now, jti);
  }

  lemma BothLand(c: Settings, book: map<string, Claims>, s: System, p: Claims)
    requires 0 in s.calls && 1 in s.calls && s.calls[0] == s.calls[1] == Consuming(p, 1)
    requires RevokedJti(p.jti) !in s.redis
    ensures Next(c, book, Next(c, book, Next(c, book, s, SendSet(0)), Tick(1000)), SendSet(1)).uses
         == s.uses + [Use(p.jti, s.now)] + [Use(p.jti, s.now + 1000)]
  {
  }

  /**
    The bound is exact: of any token that was issued, two refreshes that read the clock a
    second before `exp` can both succeed, the second one landing at `exp` itself.
   */
  lemma SecondUseCanLandAtExpiry(c: Settings, book: map<string, Claims>, jti: string)
    requires GoodBook(book) && jti in book && book[jti].exp.value >= 1
    ensures var exp := book[jti].exp.value;
            Run(c, book, Start((exp - 1) * 1000), BothRead(jti) + [SendSet(0)] + [Tick(1000)] + [SendSet(1)]).uses
              == [Use(jti, (exp - 1) * 1000), Use(jti, exp * 1000)]
  {
    var now := (book[jti].exp.value - 1) * 1000;
    var start, steps := Start(now), BothRead(jti);
    assert Ttl(book[jti], now) == 1;
    BothReadIsReached(c, book, now, jti);
    RunNext(c, book, start, steps, SendSet(0));
    RunNext(c, book, start, steps + [SendSet(0)], Tick(1000));
    RunNext(c, book, start, steps + [SendSet(0)] + [Tick(1000)], SendSet(1));
    BothLand(c, book, Run(c, book, start, steps), book[jti]);
  }

  // ---------- user-wide revocation ----------

  /** `exp` lies at most the token's lifetime after `iat_ms`. */
  lemma LifetimeFromIssue(sub: string, jti: string, lifetime: nat, t1: nat, t2: nat)
    requires t1 <= t2
    ensures var p := Issue(sub, jti, lifetime, t1, t2);
            p.exp.value * 1000 <= IssuedAtMs(p) + lifetime * 1000
  {
  }

  /** Tokens that cannot outlive a user-wide revocation made after they were issued. */
  predicate WithinRetention(c: Settings, p: Claims) {
    p.exp.Some? && p.exp.value * 1000 <= IssuedAtMs(p) + Retention(c) * 1000
  }

  /** Refresh tokens always qualify; access tokens when their TTL is no longer than the retention. */
  lemma IssuedTokensQualify(c: Settings, sub: string, jti: string, t1: nat, t2: nat)
    requires t1 <= t2
    ensures WithinRetention(c, RefreshClaims(c, sub, jti, t1, t2))
    ensures c.accessMinutes * 60 <= Retention(c) ==> WithinRetention(c, AccessClaims(c, sub, jti, t1, t2))
  {
    LifetimeFromIssue(sub, jti, c.accessMinutes * 60, t1, t2);
    LifetimeFromIssue(sub, jti, c.refreshDays * 24 * 60 * 60, t1, t2);
  }

  /**
    Main result: once a user was revoked at R, every token of the user issued no later than R
    is reported revoked until its own expiry, through any later steps, further revocations included.
   */
  lemma UserRevocationReaches(c: Settings, book: map<string, Claims>, now: nat, steps: seq<Step>, r: UserRevocation, p: Claims)
    requires GoodBook(book)
    requires var s := Run(c, book, Start(now), steps); r in s.userRevocations && !Expired(p, s.now)
    requires p.sub == r.user && IssuedAtMs(p) <= r.at && WithinRetention(c, p)
    ensures var s := Run(c, book, Start(now), steps); IsRevoked(s.redis, s.now, p)
  {
    RunKeepsInv(c, book, now, steps);
    var s := Run(c, book, Start(now), steps);
    var i :| 0 <= i < |s.userRevocations| && s.userRevocations[i] == r;
    assert UserOk(c, s, s.userRevocations[i]);
  }

  /** So a refresh that checks after R goes no further. */
  lemma RevokedRefreshStops(c: Settings, book: map<string, Claims>, now: nat, steps: seq<Step>, r: UserRevocation, call: nat)
    requires GoodBook(book)
    requires var s := Run(c, book, Start(now), steps);
             && r in s.userRevocations && call in s.calls && s.calls[call].Decoded?
             && var p := s.calls[call].claims;
                !Expired(p, s.now) && p.sub == r.user && IssuedAtMs(p) <= r.at && WithinRetention(c, p)
    ensures call !in Run(c, book, Start(now), steps + [Check(call)]).calls
  {
    var s := Run(c, book, Start(now), steps);
    UserRevocationReaches(c, book, now, steps, r, s.calls[call].claims);
    assert (steps + [Check(call)])[..|steps|] == steps;
  }

  // ---------- no revocation without a cause ----------

  /** A recorded revocation of the user, not before the token was issued. */
  ghost predicate RevokedSince(revocations: seq<UserRevocation>, user: string, issued: int) {
    exists i :: 0 <= i < |revocations| && revocations[i].user == user && issued <= revocations[i].at
  }

  /** A user mark carries the instant of a recorded revocation. */
  ghost predicate HasCause(s: System, user: string, mark: Mark) {
    mark.After? && exists i :: 0 <= i < |s.userRevocations| && s.userRevocations[i].user == user && s.userRevocations[i].at == mark.ms
  }

  /** Every marker in the store was put there by a use, a logout or a user revocation. */
  ghost predicate Caused(s: System) {
    && (forall jti :: RevokedJti(jti) in s.redis ==> jti in s.spent)
    && (forall user :: RevokedAfter(user) in s.redis ==> HasCause(s, user, s.redis[RevokedAfter(user)].mark))
  }

  lemma CausesStay(s: System, t: System)
    requires Caused(s) && t.redis == s.redis && t.spent == s.spent && t.userRevocations == s.userRevocations
    ensures Caused(t)
  {
    forall user | RevokedAfter(user) in t.redis
      ensures HasCause(t, user, t.redis[RevokedAfter(user)].mark)
    {
      assert HasCause(s, user, s.redis[RevokedAfter(user)].mark);
    }
  }

  lemma MarkingKeepsCauses(c: Settings, book: map<string, Claims>, s: System, step: Step)
    requires Caused(s) && (step.SendSet? || step.SendSetEx?)
    ensures Caused(Next(c, book, s, step))
  {
    var t := Next(c, book, s, step);
    forall user | RevokedAfter(user) in t.redis
      ensures HasCause(t, user, t.redis[RevokedAfter(user)].mark)
    {
      assert HasCause(s, user, s.redis[RevokedAfter(user)].mark);
    }
  }

  lemma RevokingUserKeepsCauses(c: Settings, book: map<string, Claims>, s: System, user: string)
    requires Caused(s)
    ensures Caused(Next(c, book, s, RevokeUser(user)))
  {
    var t := Next(c, book, s, RevokeUser(user));
    assert t.userRevocations[|s.userRevocations|] == UserRevocation(user, s.now);
    forall u | RevokedAfter(u) in t.redis
      ensures HasCause(t, u, t.redis[RevokedAfter(u)].mark)
    {
      if u != user {
        assert HasCause(s, u, s.redis[RevokedAfter(u)].mark);
        var i :| 0 <= i < |s.userRevocations| && s.userRevocations[i].user == u && s.userRevocations[i].at == s.redis[RevokedAfter(u)].mark.ms;
        assert t.userRevocations[i] == s.userRevocations[i];
      }
    }
  }

  lemma {:induction false} RunKeepsCauses(c: Settings, book: map<string, Claims>, now: nat, steps: seq<Step>)
    ensures Caused(Run(c, book, Start(now), steps))
  {
    if steps != [] {
      var before, step := steps[..|steps| - 1], steps[|steps| - 1];
      var s := Run(c, book, Start(now), before);
      RunKeepsCauses(c, book, now, before);
      match step
      case SendSet(_) => MarkingKeepsCauses(c, book, s, step);
      case SendSetEx(_) => MarkingKeepsCauses(c, book, s, step);
      case RevokeUser(user) => RevokingUserKeepsCauses(c, book, s, user);
      case _ => CausesStay(s, Next(c, book, s, step));
    }
  }

  /** Claims with an identity, not spent and issued after every revocation of their user, are not reported revoked. */
  lemma NotRevokedWithoutCause(c: Settings, book: map<string, Claims>, now: nat, steps: seq<Step>, p: Claims)
    requires p.jti != "" && p.sub != ""
    requires var s := Run(c, book, Start(now), steps);
             p.jti !in s.spent && !RevokedSince(s.userRevocations, p.sub, IssuedAtMs(p))
    ensures var s := Run(c, book, Start(now), steps); !IsRevoked(s.redis, s.now, p)
  {
    RunKeepsCauses(c, book, now, steps);
    var s := Run(c, book, Start(now), steps);
    if RevokedAfter(p.sub) in s.redis {
      assert HasCause(s, p.sub, s.redis[RevokedAfter(p.sub)].mark);
    }
  }

  /** When a token was issued: its `iat_ms`, else its `iat`, else the beginning of time. */
  ghost predicate WasIssued(p: Claims, ms: int) {
    || (ms != 0 && p.iatMs == Some(ms))
    || (p.iatMs in [None, Some(0)] && exists sec :: p.iat == Some(sec) && ms == sec * 1000)
    || (p.iatMs in [None, Some(0)] && p.iat.None? && ms == 0)
  }

  /**
    Main result: until it expires, a token whose life after its issue fits the retention is
    reported revoked exactly when it was used or revoked itself, or its user was revoked at the
    instant of its issue or later.
   */
  lemma RevokedExactly(c: Settings, book: map<string, Claims>, now: nat, steps: seq<Step>, jti: string, issued: int)
    requires GoodBook(book) && jti in book && WasIssued(book[jti], issued)
    requires ExpMs(book, jti) <= issued + Retention(c) * 1000
    requires Run(c, book, Start(now), steps).now < ExpMs(book, jti)
    ensures var s := Run(c, book, Start(now), steps);
            IsRevoked(s.redis, s.now, book[jti]) <==> jti in s.spent || RevokedSince(s.userRevocations, book[jti].sub, issued)
  {
    var s, p := Run(c, book, Start(now), steps), book[jti];
    assert IssuedAtMs(p) == issued;
    if jti in s.spent {
      SpentStaysRevoked(c, book, now, steps, jti);
    } else if RevokedSince(s.userRevocations, p.sub, issued) {
      var i :| 0 <= i < |s.userRevocations| && s.userRevocations[i].user == p.sub && issued <= s.userRevocations[i].at;
      UserRevocationReaches(c, book, now, steps, s.userRevocations[i], p);
    } else {
      NotRevokedWithoutCause(c, book, now, steps, p);
    }
  }

  /** A refresh nothing comes between. */
  lemma UndisturbedRun(c: Settings, book: map<string, Claims>, s: System, steps: seq<Step>, call: nat, jti: string)
    ensures Run(c, book, s, steps + [Decode(call, jti)] + [Check(call)] + [ReadClock(call)] + [SendSet(call)])
         == Next(c, book, Next(c, book, Next(c, book, Next(c, book, Run(c, book, s, steps), Decode(call, jti)), Check(call)), ReadClock(call)), SendSet(call))
  {
    RunNext(c, book, s, steps, Decode(call, jti));
    RunNext(c, book, s, steps + [Decode(call, jti)], Check(call));
    RunNext(c, book, s, steps + [Decode(call, jti)] + [Check(call)], ReadClock(call));
    RunNext(c, book, s, steps + [Decode(call, jti)] + [Check(call)] + [ReadClock(call)], SendSet(call));
  }

  /** After any run, an unexpired token that is not revoked can be used once: an undisturbed refresh succeeds. */
  lemma UnrevokedTokenCanBeUsed(c: Settings, book: map<string, Claims>, now: nat, steps: seq<Step>, call: nat, jti: string)
    requires GoodBook(book) && jti in book
    requires var s := Run(c, book, Start(now), steps);
             && call !in s.calls && !Expired(book[jti], s.now) && jti !in s.spent
             && !RevokedSince(s.userRevocations, book[jti].sub, IssuedAtMs(book[jti]))
    ensures var s := Run(c, book, Start(now), steps);
            var t := Run(c, book, Start(now), steps + [Decode(call, jti)] + [Check(call)] + [ReadClock(call)] + [SendSet(call)]);
            t.uses == s.uses + [Use(jti, s.now)] && jti in t.spent && t.now == s.now
  {
    UndisturbedRun(c, book, Start(now), steps, call, jti);
    NotRevokedWithoutCause(c, book, now, steps, book[jti]);
    RunKeepsCauses(c, book, now, steps);
  }

  /** An issued token passes decoding for exactly its lifetime in whole seconds, with the identity it was issued for. */
  lemma IssuedTokensLast(c: Settings, sub: string, jti: string, t1: nat, t2: nat, now: nat)
    requires jti != "" && sub != ""
    ensures var p := AccessClaims(c, sub, jti, t1, t2);
            p.sub == sub && p.jti == jti && p.iatMs == Some(t2)
            && (Decodable(p, now) <==> now / 1000 < t1 / 1000 + c.accessMinutes * 60)
    ensures var p := RefreshClaims(c, sub, jti, t1, t2);
            p.sub == sub && p.jti == jti && p.iatMs == Some(t2)
            && (Decodable(p, now) <==> now / 1000 < t1 / 1000 + c.refreshDays * 24 * 60 * 60)
  {
    SecondsLeft(now, t1 / 1000 + c.accessMinutes * 60);
    SecondsLeft(now, t1 / 1000 + c.refreshDays * 24 * 60 * 60);
  }

  lemma SecondsLeft(now: nat, exp: nat)
    ensures exp * 1000 <= now <==> exp <= now / 1000
  {}

  /** A user-wide revocation is kept a minute longer than a refresh token lives. */
  lemma RetentionOutlivesRefresh(c: Settings, sub: string, jti: string, t1: nat, t2: nat)
    ensures var p := RefreshClaims(c, sub, jti, t1, t2); p.exp == Some(t1 / 1000 + Retention(c) - 60)
  {}

  /** Claims without an identity are always refused, and an expired token does not get as far as the check. */
  lemma UnusableTokensStop(c: Settings, book: map<string, Claims>, s: System, call: nat, jti: string, p: Claims)
    requires GoodBook(book)
    ensures p.jti == "" || p.sub == "" ==> IsRevoked(s.redis, s.now, p)
    ensures jti !in book || ExpMs(book, jti) <= s.now ==> Next(c, book, s, Decode(call, jti)) == s
  {}

  /** A logout nothing comes between revokes its token at once, whatever state it finds. */
  lemma RevokingSpends(c: Settings, book: map<string, Claims>, s: System, call: nat, jti: string)
    requires GoodBook(book) && jti in book && call !in s.calls
    ensures var t := Next(c, book, Next(c, book, s, StartRevoke(call, jti)), SendSetEx(call));
            && t.spent == s.spent + {jti} && t.now == s.now && t.userRevocations == s.userRevocations
            && IsRevoked(t.redis, t.now, book[jti])
  {}
}
