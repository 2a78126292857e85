/**
  Token claims, the expiring key/value store behind token revocation, and the commands the
  token code sends to it.  Store times are milliseconds, claim times seconds.
 */
module TokenRules {

  import opened Options

  /** An empty `jti` or `sub` stands for a missing one. */
  datatype Claims = Claims(jti: string, sub: string, exp: Option<int>, iat: Option<int>, iatMs: Option<int>)

  datatype Settings = Settings(accessMinutes: nat, refreshDays: nat)

  /** How long a user-wide revocation is kept. */
  function Retention(c: Settings): nat { c.refreshDays * 24 * 60 * 60 + 60 }

  // ---------- issuing: section 4.1 of RFC 7519 ----------

  /** Claims built from two clock readings: one for `iat` and `exp`, a later one for `iat_ms`. */
  function Issue(sub: string, jti: string, lifetime: nat, t1: nat, t2: nat): Claims {
    Claims(jti, sub, Some(t1 / 1000 + lifetime), Some(t1 / 1000), Some(t2))
  }

  function AccessClaims(c: Settings, sub: string, jti: string, t1: nat, t2: nat): Claims {
    Issue(sub, jti, c.accessMinutes * 60, t1, t2)
  }

  function RefreshClaims(c: Settings, sub: string, jti: string, t1: nat, t2: nat): Claims {
    Issue(sub, jti, c.refreshDays * 24 * 60 * 60, t1, t2)
  }

  /** Decoding rejects a token from the second of its `exp` on. */
  predicate Expired(p: Claims, now: nat) { p.exp.Some? && p.exp.value * 1000 <= now }

  /** Decoding also insists on the claims the token code reads. */
  predicate Decodable(p: Claims, now: nat) {
    p.jti != "" && p.sub != "" && p.exp.Some? && p.iat.Some? && !Expired(p, now)
  }

  // ---------- reading claims ----------

  function Ttl(p: Claims, now: nat): (ttl: int)
    ensures ttl >= 1
  {
    if p.exp.None? then 1
    else if p.exp.value - now / 1000 > 1 then p.exp.value - now / 1000 else 1
  }

  function IssuedAtMs(p: Claims): int {
    if p.iatMs.Some? && p.iatMs.value != 0 then p.iatMs.value
    else if p.iat.Some? then p.iat.value * 1000
    else 0
  }

  // ---------- the store ----------

  datatype Key = RevokedJti(jti: string) | RevokedAfter(user: string)

  datatype Mark = Revoked | RefreshConsumed | After(ms: int)

  datatype Entry = Entry(mark: Mark, expiresAt: int)

  type Redis = map<Key, Entry>

  predicate Live(r: Redis, now: int, k: Key) { k in r && now < r[k].expiresAt }

  function SetEx(r: Redis, now: int, k: Key, seconds: int, mark: Mark): Redis {
    r[k := Entry(mark, now + seconds * 1000)]
  }

  /** SET with NX: only when the key is not live. */
  function SetNx(r: Redis, now: int, k: Key, seconds: int, mark: Mark): (Redis, bool) {
    if Live(r, now, k) then (r, false) else (SetEx(r, now, k, seconds, mark), true)
  }

  /** One MGET over both keys; claims without an identity are refused. */
  predicate IsRevoked(r: Redis, now: int, p: Claims) {
    || p.jti == "" || p.sub == ""
    || Live(r, now, RevokedJti(p.jti))
    || (var k := RevokedAfter(p.sub);
        Live(r, now, k) && r[k].mark.After? && IssuedAtMs(p) <= r[k].mark.ms)
  }

  // ---------- interleaved calls ----------

  /**
    A call in progress.  A refresh decodes, then checks revocation, then reads the clock for
    the TTL, then sends SET; any other call may run between two of these steps.
   */
  datatype Call =
    | Decoded(claims: Claims)
    | Checked(claims: Claims)
    | Consuming(claims: Claims, ttl: int)
    | Revoking(claims: Claims, ttl: int)

  datatype Use = Use(jti: string, at: nat)

  datatype UserRevocation = UserRevocation(user: string, at: nat)

  /** `uses`, `spent` and `userRevocations` record what happened; no step reads them. */
  datatype System = System(
    now: nat,
    redis: Redis,
    calls: map<nat, Call>,
    uses: seq<Use>,
    spent: set<string>,
    userRevocations: seq<UserRevocation>)

  datatype Step =
    | Tick(ms: nat)
    | Decode(call: nat, jti: string)
    | Check(call: nat)
    | ReadClock(call: nat)
    | SendSet(call: nat)
    | StartRevoke(call: nat, jti: string)
    | SendSetEx(call: nat)
    | RevokeUser(user: string)

  function Dropped(calls: map<nat, Call>, call: nat): map<nat, Call> { calls - {call} }

  /** `book` holds the claims of every token ever issued, by `jti`; a step that cannot happen changes nothing. */
  function Next(c: Settings, book: map<string, Claims>, s: System, step: Step): System {
    match step
    case Tick(ms) => s.(now := s.now + ms)
    case Decode(call, jti) =>
      if call in s.calls || jti !in book || Expired(book[jti], s.now) then s
      else s.(calls := s.calls[call := Decoded(book[jti])])
    case Check(call) =>
      if call !in s.calls || !s.calls[call].Decoded? then s
      else if IsRevoked(s.redis, s.now, s.calls[call].claims) then s.(calls := Dropped(s.calls, call))
      else s.(calls := s.calls[call := Checked(s.calls[call].claims)])
    case ReadClock(call) =>
      if call !in s.calls || !s.calls[call].Checked? then s
      else
        var p := s.calls[call].claims;
        s.(calls := s.calls[call := Consuming(p, Ttl(p, s.now))])
    case SendSet(call) =>
      if call !in s.calls || !s.calls[call].Consuming? then s
      else
        var p := s.calls[call].claims;
        var (redis, done) := SetNx(s.redis, s.now, RevokedJti(p.jti), s.calls[call].ttl, RefreshConsumed);
        var t := s.(redis := redis, calls := Dropped(s.calls, call));
        if done then t.(uses := t.uses + [Use(p.jti, s.now)], spent := t.spent + {p.jti}) else t
    case StartRevoke(call, jti) =>
      if call in s.calls || jti !in book then s
      else s.(calls := s.calls[call := Revoking(book[jti], Ttl(book[jti], s.now))])
    case SendSetEx(call) =>
      if call !in s.calls || !s.calls[call].Revoking? then s
      else
        var p := s.calls[call].claims;
        s.(redis := SetEx(s.redis, s.now, RevokedJti(p.jti), s.calls[call].ttl, Revoked),
           calls := Dropped(s.calls, call), spent := s.spent + {p.jti})
    case RevokeUser(user) =>
      s.(redis := SetEx(s.redis, s.now, RevokedAfter(user), Retention(c), After(s.now)),
         userRevocations := s.userRevocations + [UserRevocation(user, s.now)])
  }

  function Run(c: Settings, book: map<string, Claims>, s: System, steps: seq<Step>): System {
    if steps == [] then s
    else Next(c, book, Run(c, book, s, steps[..|steps| - 1]), steps[|steps| - 1])
  }

  function Start(now: nat): System { System(now, map[], map[], [], {}, []) }
}
