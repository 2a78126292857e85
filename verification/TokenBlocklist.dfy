/**
  The token code as it runs, one call at a time, over a store it updates in place.  Each
  method is a run of the interleaved machine of `TokenRules` in which no other call intervenes.
 */
module TokenBlocklist {
  import opened Options
  import opened TokenRules
  import opened TokenTheorems

  datatype UserState = Missing | Inactive | Active

  datatype Response =
    | Refreshed(access: Claims, refresh: Claims)
    | InvalidToken
    | WrongType
    | RevokedOrReused
    | UserInactive
    | ServiceUnavailable

  /** What becomes of a SET: answered, never sent, or carried out with its answer lost. */
  datatype Delivery = Answered | NotSent | AnswerLost

  /** Whether the store answers the check, and what becomes of the SET after it. */
  datatype Network = Network(check: bool, mark: Delivery)

  datatype Consumption = Consumed | Refused | Unavailable

  class Blocklist {
    const settings: Settings
    var redis: Redis

    constructor (settings: Settings)
      ensures this.settings == settings && redis == map[]
    {
      this.settings := settings;
      redis := map[];
    }

    method IsTokenRevoked(p: Claims, now: nat) returns (revoked: bool)
      ensures revoked == IsRevoked(redis, now, p)
    {
      if p.jti == "" || p.sub == "" {
        return true;
      }
      var byToken := RevokedJti(p.jti) in redis && now < redis[RevokedJti(p.jti)].expiresAt;
      if byToken {
        return true;
      }
      var k := RevokedAfter(p.sub);
      revoked := k in redis && now < redis[k].expiresAt && redis[k].mark.After? && IssuedAtMs(p) <= redis[k].mark.ms;
    }

    method RevokeToken(p: Claims, read: nat, landed: nat)
      requires read <= landed
      modifies this
      ensures p.jti == "" ==> redis == old(redis)
      ensures p.jti != "" ==> redis == SetEx(old(redis), landed, RevokedJti(p.jti), Ttl(p, read), Revoked)
      ensures !Expired(p, landed) && p.exp.Some? ==> IsRevoked(redis, landed, p)
    {
      if p.jti != "" {
        redis := redis[RevokedJti(p.jti) := Entry(Revoked, landed + Ttl(p, read) * 1000)];
      }
    }

    method RevokeUserTokens(user: string, now: nat)
      modifies this
      ensures redis == SetEx(old(redis), now, RevokedAfter(user), Retention(settings), After(now))
    {
      redis := redis[RevokedAfter(user) := Entry(After(now), now + Retention(settings) * 1000)];
    }

    /** Consumed exactly when the token was neither revoked nor used; then it is used from now on. */
    method ConsumeRefreshToken(p: Claims, checked: nat, read: nat, landed: nat, net: Network) returns (r: Consumption)
      requires checked <= read <= landed
      modifies this
      ensures r.Refused? <==>
                && net.check
                && (IsRevoked(old(redis), checked, p) || (net.mark.Answered? && Live(old(redis), landed, RevokedJti(p.jti))))
      ensures r.Unavailable? <==> !net.check || (!IsRevoked(old(redis), checked, p) && !net.mark.Answered?)
      ensures redis == if Marks(old(redis), p, checked, landed, net)
                       then SetEx(old(redis), landed, RevokedJti(p.jti), Ttl(p, read), RefreshConsumed) else old(redis)
      ensures r.Consumed? ==> Marks(old(redis), p, checked, landed, net)
      ensures r.Consumed? && p.exp.Some? && !Expired(p, landed) ==> IsRevoked(redis, landed, p)
    {
      if !net.check {
        return Unavailable;
      }
      var revoked := IsTokenRevoked(p, checked);
      if revoked || p.jti == "" {
        return Refused;
      }
      if net.mark.NotSent? {
        return Unavailable;
      }
      var k := RevokedJti(p.jti);
      if k in redis && landed < redis[k].expiresAt {
        return if net.mark.Answered? then Refused else Unavailable;
      }
      redis := redis[k := Entry(RefreshConsumed, landed + Ttl(p, read) * 1000)];
      r := if net.mark.Answered? then Consumed else Unavailable;
    }

    /** The refresh endpoint.  The token is spent before the user is looked up, and even when the answer is lost. */
    method Refresh(p: Claims, isRefresh: bool, user: UserState, jtis: (string, string),
                   checked: nat, read: nat, landed: nat, issued: nat, net: Network)
      returns (response: Response)
      requires checked <= read <= landed <= issued
      modifies this
      ensures response.InvalidToken? <==> !Decodable(p, checked)
      ensures response.WrongType? <==> Decodable(p, checked) && !isRefresh
      ensures response.RevokedOrReused? <==>
                && Decodable(p, checked) && isRefresh && net.check
                && (IsRevoked(old(redis), checked, p) || (net.mark.Answered? && Live(old(redis), landed, RevokedJti(p.jti))))
      ensures response.ServiceUnavailable? <==>
                && Decodable(p, checked) && isRefresh
                && (!net.check || (!IsRevoked(old(redis), checked, p) && !net.mark.Answered?))
      ensures redis == if Decodable(p, checked) && isRefresh && Marks(old(redis), p, checked, landed, net)
                       then SetEx(old(redis), landed, RevokedJti(p.jti), Ttl(p, read), RefreshConsumed) else old(redis)
      ensures response.Refreshed? ==>
                && user.Active?
                && response.access == AccessClaims(settings, p.sub, jtis.0, issued, issued)
                && response.refresh == RefreshClaims(settings, p.sub, jtis.1, issued, issued)
      ensures response.UserInactive? ==> !user.Active?
    {
      if !Decodable(p, checked) {
        return InvalidToken;
      }
      if !isRefresh {
        return WrongType;
      }
      var consumed := ConsumeRefreshToken(p, checked, read, landed, net);
      if consumed.Unavailable? {
        return ServiceUnavailable;
      }
      if consumed.Refused? {
        return RevokedOrReused;
      }
      if !user.Active? {
        return UserInactive;
      }
      response := Refreshed(AccessClaims(settings, p.sub, jtis.0, issued, issued),
                            RefreshClaims(settings, p.sub, jtis.1, issued, issued));
    }

    /** The SET reaches the store and finds no live marker. */
    static predicate Marks(redis: Redis, p: Claims, checked: nat, landed: nat, net: Network) {
      net.check && !IsRevoked(redis, checked, p) && !net.mark.NotSent? && !Live(redis, landed, RevokedJti(p.jti))
    }

    /** A call without interference is the machine's decode, check, clock and SET steps in a row. */
    lemma CallIsARun(book: map<string, Claims>, s: System, call: nat, jti: string)
      requires GoodBook(book) && jti in book && call !in s.calls && !Expired(book[jti], s.now)
      ensures var s1 := Next(settings, book, s, Decode(call, jti));
              var s2 := Next(settings, book, s1, Check(call));
              var s3 := Next(settings, book, s2, ReadClock(call));
              var t := Next(settings, book, s3, SendSet(call));
              var p := book[jti];
              var consumed := !IsRevoked(s.redis, s.now, p) && !Live(s.redis, s.now, RevokedJti(jti));
              && t.calls == s.calls
              && t.redis == (if consumed then SetEx(s.redis, s.now, RevokedJti(jti), Ttl(p, s.now), RefreshConsumed) else s.redis)
              && t.uses == (if consumed then s.uses + [Use(jti, s.now)] else s.uses)
    {
      var p := book[jti];
      assert Dropped(s.calls[call := Decoded(p)], call) == s.calls;
      assert Dropped(s.calls[call := Decoded(p)][call := Checked(p)][call := Consuming(p, Ttl(p, s.now))], call) == s.calls;
    }
  }
}
