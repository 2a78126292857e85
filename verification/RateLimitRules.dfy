/**
  The fixed-window limiter on one bucket.  A request increments the bucket, and the first one
  then sets its expiry; either command may be lost, and any other request may come in between.
  Times are milliseconds.
 */
module RateLimitRules {
  import opened Options

  /** A bucket without an expiry lives until one is set. */
  datatype Bucket = Bucket(count: nat, expiresAt: Option<int>)

  predicate Alive(b: Bucket, now: int) { b.expiresAt.None? || now < b.expiresAt.value }

  /** INCR: an expired or missing bucket starts again at one. */
  function Incremented(key: Option<Bucket>, now: int): Bucket {
    if key.Some? && Alive(key.value, now) then key.value.(count := key.value.count + 1) else Bucket(1, None)
  }

  /** EXPIRE, on a bucket that is there. */
  function Expiring(key: Option<Bucket>, now: int, window: nat): Option<Bucket> {
    if key.Some? && Alive(key.value, now) then Some(key.value.(expiresAt := Some(now + window * 1000))) else None
  }

  /** One life of the bucket: its first increment, its end once that is set, and when it let requests through. */
  datatype Life = Life(start: int, end: Option<int>, taken: seq<int>)

  /** `waiting` is the request that still has to set the expiry; `life` and `past` only record. */
  datatype Limiter = Limiter(
    now: int, key: Option<Bucket>, waiting: Option<nat>, life: Option<Life>, past: seq<Life>)

  datatype Config = Config(limit: nat, window: nat)

  /** INCR by a request, with or without its reply; EXPIRE by the request that waits, or its loss. */
  datatype Step =
    | Tick(ms: nat)
    | Incr(request: nat, replied: bool)
    | Expire(request: nat, replied: bool)
    | Crash(request: nat)

  /** Lets a request through when its count allows. */
  function Admit(c: Config, s: Limiter, count: nat): Limiter {
    if count <= c.limit && s.life.Some? then s.(life := Some(s.life.value.(taken := s.life.value.taken + [s.now]))) else s
  }

  /** The bucket after INCR; when it starts again, so does the record. */
  function Counted(s: Limiter): Limiter {
    var key := Some(Incremented(s.key, s.now));
    if s.key.Some? && Alive(s.key.value, s.now) then s.(key := key)
    else s.(key := key, waiting := None, life := Some(Life(s.now, None, [])),
            past := if s.life.Some? then s.past + [s.life.value] else s.past)
  }

  function Ended(c: Config, s: Limiter): Limiter {
    var key := Expiring(s.key, s.now, c.window);
    if key.None? || s.life.None? then s.(waiting := None)
    else s.(key := key, waiting := None, life := Some(s.life.value.(end := key.value.expiresAt)))
  }

  function Next(c: Config, s: Limiter, step: Step): Limiter {
    match step
    case Tick(ms) => s.(now := s.now + ms)
    case Incr(request, replied) =>
      var t := Counted(s);
      var count := t.key.value.count;
      if !replied then t
      else if count == 1 then t.(waiting := Some(request))
      else Admit(c, t, count)
    case Expire(request, replied) =>
      if s.waiting != Some(request) then s
      else if replied then Admit(c, Ended(c, s), 1)
      else Ended(c, s)
    case Crash(request) => if s.waiting == Some(request) then s.(waiting := None) else s
  }

  function Run(c: Config, s: Limiter, steps: seq<Step>): Limiter {
    if steps == [] then s else Next(c, Run(c, s, steps[..|steps| - 1]), steps[|steps| - 1])
  }

  function Start(now: int): Limiter { Limiter(now, None, None, None, []) }
}
