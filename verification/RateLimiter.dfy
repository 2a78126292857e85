/** The limiter dependency as it runs for one request at a time, over a bucket it updates in place. */
module RateLimiter {
  import opened Options
  import opened RateLimitRules
  import opened RateLimitTheorems

  datatype Response = Allowed | TooManyRequests | Unavailable

  /** Whether each command reaches the store and answers. */
  datatype Weather = Weather(incr: bool, expire: bool)

  class Buckets {
    const config: Config
    var bucket: Option<Bucket>

    constructor (config: Config)
      ensures this.config == config && bucket == None
    {
      this.config := config;
      bucket := None;
    }

    /** INCR at `t1`; for the first request of a life, EXPIRE at `t2`. */
    method Dependency(t1: int, t2: int, w: Weather) returns (response: Response)
      requires t1 <= t2
      modifies this
      ensures !w.incr ==> response == Unavailable && bucket == old(bucket)
      ensures w.incr ==>
                var b := Incremented(old(bucket), t1);
                && (response.Allowed? <==> b.count <= config.limit && (b.count == 1 ==> w.expire))
                && (response.Unavailable? <==> b.count == 1 && !w.expire)
                && bucket == if b.count == 1 && w.expire then Expiring(Some(b), t2, config.window) else Some(b)
    {
      if !w.incr {
        return Unavailable;
      }
      if bucket.Some? && (bucket.value.expiresAt.None? || t1 < bucket.value.expiresAt.value) {
        bucket := Some(bucket.value.(count := bucket.value.count + 1));
      } else {
        bucket := Some(Bucket(1, None));
      }
      var count := bucket.value.count;
      if count == 1 {
        if !w.expire {
          return Unavailable;
        }
        bucket := if Alive(bucket.value, t2) then Some(bucket.value.(expiresAt := Some(t2 + config.window * 1000))) else None;
      }
      response := if count > config.limit then TooManyRequests else Allowed;
    }

    /** A request without interference is INCR, a pause and EXPIRE of the interleaved machine. */
    lemma DependencyIsARun(s: Limiter, request: nat, pause: nat)
      requires Inv(config, s) && s.waiting.None?
      ensures var s1 := Next(config, s, Incr(request, true));
              var s2 := Next(config, s1, Tick(pause));
              var t := Next(config, s2, Expire(request, true));
              var b := Incremented(s.key, s.now);
              && t.key == (if b.count == 1 then Expiring(Some(b), s.now + pause, config.window) else Some(b))
              && t.waiting.None? && t.life.Some?
              && t.life.value.taken == (if s.key.Some? && Alive(s.key.value, s.now) then s.life.value.taken else [])
                                     + (if b.count > config.limit then [] else [if b.count == 1 then s.now + pause else s.now])
    {
      CountedKeeps(config, s);
    }
  }
}
