/** Runs that reach the limiter's bounds, and exactly when a bucket starts again. */
module RateLimitExtremes {
  import opened Options
  import opened RateLimitRules
  import opened RateLimitTheorems

  // ---------- runs put together ----------

  lemma RunNext(c: Config, s: Limiter, steps: seq<Step>, step: Step)
    ensures Run(c, s, steps + [step]) == Next(c, Run(c, s, steps), step)
  {
    assert (steps + [step])[..|steps|] == steps;
  }

  lemma RunOne(c: Config, s: Limiter, step: Step)
    ensures Run(c, s, [step]) == Next(c, s, step)
  {
    assert [step][..0] == [];
  }

  lemma {:induction false} RunAppend(c: Config, s: Limiter, a: seq<Step>, b: seq<Step>)
    ensures Run(c, s, a + b) == Run(c, Run(c, s, a), b)
  {
    if b == [] {
      assert a + b == a;
    } else {
      var last := |b| - 1;
      RunAppend(c, s, a, b[..last]);
      assert a + b == (a + b[..last]) + [b[last]];
      RunNext(c, s, a + b[..last], b[last]);
    }
  }

  // ---------- the bound is reached ----------

  function Repeat(t: int, n: nat): (r: seq<int>)
    ensures |r| == n
  {
    if n == 0 then [] else Repeat(t, n - 1) + [t]
  }

  function Burst(n: nat): seq<Step> {
    if n == 0 then [] else Burst(n - 1) + [Incr(0, true)]
  }

  /** A life that t0 at one instant and let more through at another. */
  function Opened(c: Config, past: seq<Life>, t0: int, now: int, more: nat): Limiter {
    var end := Some(t0 + c.window * 1000);
    Limiter(now, Some(Bucket(1 + more, end)), None, Some(Life(t0, end, [t0] + Repeat(now, more))), past)
  }

  /** The first request of a life, its expiry set at once. */
  lemma FirstRequestOpens(c: Config, s: Limiter)
    requires s.key.None? || !Alive(s.key.value, s.now)
    requires c.limit >= 1 && c.window >= 1
    ensures Run(c, s, [Incr(0, true), Expire(0, true)]) == Opened(c, Lives(s), s.now, s.now, 0)
  {
    var steps := [Incr(0, true)] + [Expire(0, true)];
    assert steps == [Incr(0, true), Expire(0, true)];
    RunOne(c, s, Incr(0, true));
    RunNext(c, s, [Incr(0, true)], Expire(0, true));
    assert [] + [s.now] == [s.now] == [s.now] + [];
  }

  lemma {:induction false} BurstFills(c: Config, past: seq<Life>, t0: int, now: int, n: nat)
    requires 1 + n <= c.limit && t0 <= now < t0 + c.window * 1000
    ensures Run(c, Opened(c, past, t0, now, 0), Burst(n)) == Opened(c, past, t0, now, n)
  {
    if n > 0 {
      BurstFills(c, past, t0, now, n - 1);
      RunNext(c, Opened(c, past, t0, now, 0), Burst(n - 1), Incr(0, true));
      assert [t0] + Repeat(now, n - 1) + [now] == [t0] + Repeat(now, n);
    }
  }

  lemma {:induction false} InsideOfRepeat(first: seq<int>, t: int, n: nat, from: int, to: int)
    ensures Inside(first + Repeat(t, n), from, to) == Inside(first, from, to) + (if from <= t <= to then n else 0)
  {
    if n == 0 {
      assert first + Repeat(t, n) == first;
    } else {
      InsideOfRepeat(first, t, n - 1, from, to);
      assert first + Repeat(t, n) == (first + Repeat(t, n - 1)) + [t];
      assert (first + Repeat(t, n))[..|first| + n - 1] == first + Repeat(t, n - 1);
    }
  }

  lemma InsideOfOne(t: int, from: int, to: int)
    ensures Inside([t], from, to) == if from <= t <= to then 1 else 0
  {
    assert [t][..0] == [];
  }

  /** A whole life: it opens, and some time later more requests come at once. */
  function LifeSteps(ms: nat, n: nat): seq<Step> { [Incr(0, true), Expire(0, true)] + ([Tick(ms)] + Burst(n)) }

  lemma WaitThenBurst(c: Config, past: seq<Life>, t0: int, ms: nat, n: nat)
    requires 1 + n <= c.limit && ms < c.window * 1000
    ensures Run(c, Opened(c, past, t0, t0, 0), [Tick(ms)] + Burst(n)) == Opened(c, past, t0, t0 + ms, n)
  {
    var s := Opened(c, past, t0, t0, 0);
    RunAppend(c, s, [Tick(ms)], Burst(n));
    RunOne(c, s, Tick(ms));
    BurstFills(c, past, t0, t0 + ms, n);
  }

  lemma LifeRun(c: Config, s: Limiter, ms: nat, n: nat)
    requires s.key.None? || !Alive(s.key.value, s.now)
    requires 1 + n <= c.limit && ms < c.window * 1000
    ensures Run(c, s, LifeSteps(ms, n)) == Opened(c, Lives(s), s.now, s.now + ms, n)
  {
    FirstRequestOpens(c, s);
    WaitThenBurst(c, Lives(s), s.now, ms, n);
    RunAppend(c, s, [Incr(0, true), Expire(0, true)], [Tick(ms)] + Burst(n));
  }

  /** Two lives back to back: the first fills up late, the second at once. */
  function TwoLives(c: Config): seq<Step>
    requires c.limit >= 1 && c.window >= 1
  {
    LifeSteps(c.window * 1000 - 1, c.limit - 1) + ([Tick(2)] + LifeSteps(0, c.limit - 1))
  }

  lemma TickThen(c: Config, s: Limiter, ms: nat, rest: seq<Step>)
    ensures Run(c, s, [Tick(ms)] + rest) == Run(c, s.(now := s.now + ms), rest)
  {
    RunAppend(c, s, [Tick(ms)], rest);
    RunOne(c, s, Tick(ms));
  }

  lemma NextLife(c: Config, s: Limiter, n: nat)
    requires s.key.Some? && s.life.Some? && !Alive(s.key.value, s.now + 2)
    requires 1 + n <= c.limit && c.window >= 1
    ensures Run(c, s, [Tick(2)] + LifeSteps(0, n)) == Opened(c, s.past + [s.life.value], s.now + 2, s.now + 2, n)
  {
    TickThen(c, s, 2, LifeSteps(0, n));
    LifeRun(c, s.(now := s.now + 2), 0, n);
  }

  lemma LifeThen(c: Config, s: Limiter, ms: nat, n: nat, rest: seq<Step>)
    requires s.key.None? || !Alive(s.key.value, s.now)
    requires 1 + n <= c.limit && ms < c.window * 1000
    ensures Run(c, s, LifeSteps(ms, n) + rest) == Run(c, Opened(c, Lives(s), s.now, s.now + ms, n), rest)
  {
    LifeRun(c, s, ms, n);
    RunAppend(c, s, LifeSteps(ms, n), rest);
  }

  lemma TwoLivesRun(c: Config)
    requires c.limit >= 1 && c.window >= 1
    ensures var w, n := c.window * 1000, c.limit - 1;
            Run(c, Start(0), TwoLives(c)) == Opened(c, [Opened(c, [], 0, w - 1, n).life.value], w + 1, w + 1, n)
  {
    var w, n := c.window * 1000, c.limit - 1;
    LifeThen(c, Start(0), w - 1, n, [Tick(2)] + LifeSteps(0, n));
    NextLife(c, Opened(c, [], 0, w - 1, n), n);
  }

  lemma AcceptedOfTwo(a: Life, b: Life, from: int, to: int)
    ensures Accepted([a, b], from, to) == Inside(a.taken, from, to) + Inside(b.taken, from, to)
  {
    assert [a, b][..1] == [a] && [a][..0] == [];
    assert Accepted([a], from, to) == Accepted([a][..0], from, to) + Inside(a.taken, from, to);
  }

  lemma InsideOfLife(t0: int, t: int, n: nat, from: int, to: int)
    ensures Inside([t0] + Repeat(t, n), from, to) == (if from <= t0 <= to then 1 else 0) + (if from <= t <= to then n else 0)
  {
    InsideOfRepeat([t0], t, n, from, to);
    InsideOfOne(t0, from, to);
  }

  function LifeOf(c: Config, t0: int, t: int, more: nat): Life {
    Life(t0, Some(t0 + c.window * 1000), [t0] + Repeat(t, more))
  }

  lemma LivesOfTwo(c: Config)
    requires c.limit >= 1 && c.window >= 1
    ensures var w, n := c.window * 1000, c.limit - 1;
            Lives(Run(c, Start(0), TwoLives(c))) == [LifeOf(c, 0, w - 1, n), LifeOf(c, w + 1, w + 1, n)]
  {
    TwoLivesRun(c);
  }

  lemma TwoLivesAccept(c: Config, w: nat, n: nat)
    requires w >= 3
    ensures Accepted([LifeOf(c, 0, w - 1, n), LifeOf(c, w + 1, w + 1, n)], w - 1, w - 1 + w - 1) == 2 * n + 1
  {
    var from, to := w - 1, w - 1 + w - 1;
    AcceptedOfTwo(LifeOf(c, 0, w - 1, n), LifeOf(c, w + 1, w + 1, n), from, to);
    InsideOfLife(0, w - 1, n, from, to);
    InsideOfLife(w + 1, w + 1, n, from, to);
  }

  /** For every limit and window, some run lets one less than twice the limit through in less than one window. */
  lemma BoundIsTight(c: Config)
    requires c.limit >= 1 && c.window >= 1
    ensures var from := c.window * 1000 - 1;
            Accepted(Lives(Run(c, Start(0), TwoLives(c))), from, from + c.window * 1000 - 1) == 2 * c.limit - 1
  {
    LivesOfTwo(c);
    TwoLivesAccept(c, c.window * 1000, c.limit - 1);
  }

  // ---------- when a bucket starts again ----------

  /** A bucket is lost when its expiry is not set and nobody is left to set it. */
  predicate Lost(s: Limiter) { s.key.Some? && s.key.value.expiresAt.None? && s.waiting.None? }

  /** A lost bucket never starts again, and once the limit is reached nobody gets through. */
  lemma {:induction false} LostStaysClosed(c: Config, s: Limiter, steps: seq<Step>)
    requires Inv(c, s) && Lost(s)
    ensures var t := Run(c, s, steps);
            && Inv(c, t) && Lost(t) && t.past == s.past && t.key.value.count >= s.key.value.count
            && (s.key.value.count >= c.limit ==> t.life == s.life)
  {
    if steps != [] {
      var last := |steps| - 1;
      LostStaysClosed(c, s, steps[..last]);
      NextKeepsInv(c, Run(c, s, steps[..last]), steps[last]);
    }
  }

  function Wait(now: int, end: int): nat { if end <= now then 0 else end - now }

  /** A bucket with an expiry starts again when someone asks after it. */
  lemma ExpiringReopens(c: Config, s: Limiter)
    requires Inv(c, s) && s.key.Some? && s.key.value.expiresAt.Some?
    ensures Run(c, s, [Tick(Wait(s.now, s.key.value.expiresAt.value)), Incr(0, true)]).past == s.past + [s.life.value]
  {
    var tick := Tick(Wait(s.now, s.key.value.expiresAt.value));
    RunOne(c, s, tick);
    RunNext(c, s, [tick], Incr(0, true));
    assert [tick] + [Incr(0, true)] == [tick, Incr(0, true)];
  }

  lemma WaitingReopens(c: Config, s: Limiter) returns (steps: seq<Step>)
    requires Inv(c, s) && s.waiting.Some?
    ensures Run(c, s, steps).past != s.past
  {
    var expire := Expire(s.waiting.value, false);
    var t := Next(c, s, expire);
    NextKeepsInv(c, s, expire);
    EndedKeeps(c, s);
    ExpiringReopens(c, t);
    var rest := [Tick(Wait(t.now, t.key.value.expiresAt.value)), Incr(0, true)];
    steps := [expire] + rest;
    RunAppend(c, s, [expire], rest);
    RunOne(c, s, expire);
  }

  /** A bucket can start again exactly when it is not lost. */
  lemma ReopensExactly(c: Config, s: Limiter)
    requires Inv(c, s) && s.key.Some?
    ensures (exists steps :: Run(c, s, steps).past != s.past) <==> s.key.value.expiresAt.Some? || s.waiting.Some?
  {
    if s.waiting.Some? {
      var steps := WaitingReopens(c, s);
    } else if s.key.value.expiresAt.Some? {
      ExpiringReopens(c, s);
    } else {
      forall steps
        ensures Run(c, s, steps).past == s.past
      {
        LostStaysClosed(c, s, steps);
      }
    }
  }

  /** A first request that crashes before its EXPIRE loses the bucket for good. */
  lemma CrashLosesTheBucket(c: Config, now: int, later: seq<Step>)
    requires c.window > 0
    ensures var s := Run(c, Start(now), [Incr(0, true), Crash(0)]);
            && Lost(s) && s.key == Some(Bucket(1, None))
            && var t := Run(c, Start(now), [Incr(0, true), Crash(0)] + later);
               Lost(t) && t.past == [] && t.life.Some? && |t.life.value.taken| <= c.limit
  {
    var steps := [Incr(0, true), Crash(0)];
    RunOne(c, Start(now), Incr(0, true));
    RunNext(c, Start(now), [Incr(0, true)], Crash(0));
    assert [Incr(0, true)] + [Crash(0)] == steps;
    RunKeepsInv(c, now, steps);
    LostStaysClosed(c, Run(c, Start(now), steps), later);
    RunAppend(c, Start(now), steps, later);
  }
}
