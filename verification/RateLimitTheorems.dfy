/** What the fixed-window limiter bounds, however its requests interleave. */
module RateLimitTheorems {
  import opened Options
  import opened RateLimitRules

  // ---------- counting ----------

  function Inside(times: seq<int>, from: int, to: int): nat {
    if times == [] then 0
    else
      var last := |times| - 1;
      Inside(times[..last], from, to) + (if from <= times[last] <= to then 1 else 0)
  }

  /** How many of the times lie after `t`. */
  function After(times: seq<int>, t: int): nat {
    if times == [] then 0
    else
      var last := |times| - 1;
      After(times[..last], t) + (if times[last] > t then 1 else 0)
  }

  lemma AfterOfMore(times: seq<int>, more: int, t: int)
    ensures After(times + [more], t) == After(times, t) + (if more > t then 1 else 0)
  {
    assert (times + [more])[..|times|] == times;
  }

  lemma {:induction false} NothingAfter(times: seq<int>, t: int)
    requires forall i :: 0 <= i < |times| ==> times[i] <= t
    ensures After(times, t) == 0
  {
    if times != [] { NothingAfter(times[..|times| - 1], t); }
  }

  lemma {:induction false} InsideIsAfter(times: seq<int>, from: int, to: int, t: int)
    requires t < from
    ensures Inside(times, from, to) <= After(times, t)
  {
    if times != [] { InsideIsAfter(times[..|times| - 1], from, to, t); }
  }

  lemma {:induction false} InsideIsAtMostAll(times: seq<int>, from: int, to: int)
    ensures Inside(times, from, to) <= |times|
    ensures Inside(times, from, to) > 0 ==> exists i :: 0 <= i < |times| && from <= times[i] <= to
  {
    if times != [] {
      var last := |times| - 1;
      InsideIsAtMostAll(times[..last], from, to);
      if Inside(times[..last], from, to) > 0 {
        var i :| 0 <= i < last && from <= times[..last][i] <= to;
        assert from <= times[i] <= to;
      }
    }
  }

  // ---------- the invariant ----------

  /** When the expiry of a life was set. */
  function Armed(c: Config, end: int): int { end - c.window * 1000 }

  /**
    At most the limit, all between start and end; the end is a window or more after the start;
    after the expiry was set, at most one less than the limit.
   */
  predicate GoodLife(c: Config, l: Life) {
    && |l.taken| <= c.limit
    && (forall i :: 0 <= i < |l.taken| ==> l.start <= l.taken[i] && (l.end.Some? ==> l.taken[i] < l.end.value))
    && (l.end.Some? ==> l.start <= Armed(c, l.end.value) && (c.limit > 0 ==> After(l.taken, Armed(c, l.end.value)) < c.limit))
  }

  /** One life is over before the next starts. */
  predicate Before(a: Life, b: Life) { a.end.Some? && a.end.value <= b.start }

  predicate GoodPast(c: Config, past: seq<Life>) {
    && (forall i :: 0 <= i < |past| ==> GoodLife(c, past[i]) && past[i].end.Some?)
    && (forall i, j :: 0 <= i < j < |past| ==> Before(past[i], past[j]))
  }

  /** The requests let through, and the one that still waits, fit under the count and the limit. */
  predicate Fits(c: Config, taken: nat, owed: nat, count: nat) {
    taken + owed <= count && (c.limit > 0 ==> taken + owed <= c.limit)
  }

  function Owed(s: Limiter): nat { if s.waiting.Some? then 1 else 0 }

  predicate GoodCurrent(c: Config, s: Limiter) {
    && s.key.Some? && s.life.Some? && GoodLife(c, s.life.value)
    && s.life.value.end == s.key.value.expiresAt && s.life.value.start <= s.now
    && 1 <= s.key.value.count && Fits(c, |s.life.value.taken|, Owed(s), s.key.value.count)
    && (s.key.value.expiresAt.Some? ==>
          s.waiting.None? && After(s.life.value.taken, Armed(c, s.key.value.expiresAt.value)) < s.key.value.count)
    && (forall i :: 0 <= i < |s.life.value.taken| ==> s.life.value.taken[i] <= s.now)
  }

  predicate Inv(c: Config, s: Limiter) {
    && c.window > 0 && GoodPast(c, s.past)
    && (s.key.None? ==> s.life.None? && s.waiting.None? && s.past == [])
    && (s.key.Some? ==> GoodCurrent(c, s) && forall i :: 0 <= i < |s.past| ==> Before(s.past[i], s.life.value))
  }

  // ---------- the steps ----------

  /** Taking one more request keeps a life good while it is under the limit and, once armed, one under it. */
  lemma TakenKeepsGood(c: Config, l: Life, now: int)
    requires GoodLife(c, l) && l.start <= now && (l.end.Some? ==> now < l.end.value)
    requires |l.taken| < c.limit
    requires l.end.Some? && now > Armed(c, l.end.value) ==> After(l.taken, Armed(c, l.end.value)) + 1 < c.limit
    ensures GoodLife(c, l.(taken := l.taken + [now]))
  {
    var taken := l.taken + [now];
    assert forall i :: 0 <= i < |taken| ==> taken[i] == if i < |l.taken| then l.taken[i] else now;
    if l.end.Some? {
      AfterOfMore(l.taken, now, Armed(c, l.end.value));
    }
  }

  /** A later request of the life, let through under the limit. */
  lemma AdmitKeeps(c: Config, s: Limiter)
    requires Inv(c, s) && s.key.Some? && Alive(s.key.value, s.now) && s.key.value.count > 1
    requires |s.life.value.taken| + Owed(s) < s.key.value.count
    requires s.key.value.expiresAt.Some? ==>
               After(s.life.value.taken, Armed(c, s.key.value.expiresAt.value)) + 1 < s.key.value.count
    ensures Inv(c, Admit(c, s, s.key.value.count))
  {
    var l := s.life.value;
    if s.key.value.count <= c.limit {
      TakenKeepsGood(c, l, s.now);
      if l.end.Some? {
        AfterOfMore(l.taken, s.now, Armed(c, l.end.value));
      }
    }
  }

  /** The first request of the life, let through once it has set the expiry. */
  lemma FirstAdmitKeeps(c: Config, s: Limiter)
    requires Inv(c, s) && s.key.Some? && s.waiting.None?
    requires s.key.value.expiresAt == Some(s.now + c.window * 1000)
    requires Fits(c, |s.life.value.taken|, 1, s.key.value.count)
    ensures Inv(c, Admit(c, s, 1))
  {
    if 1 <= c.limit {
      TakenKeepsGood(c, s.life.value, s.now);
      AfterOfMore(s.life.value.taken, s.now, s.now);
    }
  }

  lemma PastKeeps(c: Config, past: seq<Life>, l: Life)
    requires GoodPast(c, past) && GoodLife(c, l) && l.end.Some? && forall i :: 0 <= i < |past| ==> Before(past[i], l)
    ensures GoodPast(c, past + [l])
  {}

  lemma CountedKeeps(c: Config, s: Limiter)
    requires Inv(c, s)
    ensures Inv(c, Counted(s)) && Counted(s).key.Some? && Alive(Counted(s).key.value, s.now)
    ensures var t := Counted(s);
            && |t.life.value.taken| + Owed(t) < t.key.value.count
            && (t.key.value.expiresAt.Some? ==>
                  After(t.life.value.taken, Armed(c, t.key.value.expiresAt.value)) + 1 < t.key.value.count)
            && (t.key.value.count == 1 ==> t.life.value.taken == [] && t.key.value.expiresAt.None? && t.waiting.None?)
  {
    if s.key.Some? && !Alive(s.key.value, s.now) {
      PastKeeps(c, s.past, s.life.value);
    }
  }

  lemma EndedKeeps(c: Config, s: Limiter)
    requires Inv(c, s) && s.waiting.Some?
    ensures Inv(c, Ended(c, s))
    ensures var t := Ended(c, s);
            && t.waiting.None? && t.key.Some? && t.key.value.expiresAt == Some(t.now + c.window * 1000)
            && Fits(c, |t.life.value.taken|, 1, t.key.value.count)
  {
    NothingAfter(s.life.value.taken, s.now);
  }

  lemma NextKeepsInv(c: Config, s: Limiter, step: Step)
    requires Inv(c, s)
    ensures Inv(c, Next(c, s, step))
  {
    match step
    case Incr(request, replied) =>
      CountedKeeps(c, s);
      var t := Counted(s);
      if replied && t.key.value.count > 1 {
        AdmitKeeps(c, t);
      }
    case Expire(request, replied) =>
      if s.waiting == Some(request) {
        EndedKeeps(c, s);
        if replied {
          FirstAdmitKeeps(c, Ended(c, s));
        }
      }
    case _ =>
  }

  lemma {:induction false} RunKeepsInv(c: Config, now: int, steps: seq<Step>)
    requires c.window > 0
    ensures Inv(c, Run(c, Start(now), steps))
  {
    if steps != [] {
      RunKeepsInv(c, now, steps[..|steps| - 1]);
      NextKeepsInv(c, Run(c, Start(now), steps[..|steps| - 1]), steps[|steps| - 1]);
    }
  }

  // ---------- the bounds ----------

  /** How many requests the lives let through in a closed interval. */
  function Accepted(lives: seq<Life>, from: int, to: int): nat {
    if lives == [] then 0
    else
      var last := |lives| - 1;
      Accepted(lives[..last], from, to) + Inside(lives[last].taken, from, to)
  }

  function Lives(s: Limiter): seq<Life> { if s.life.Some? then s.past + [s.life.value] else s.past }

  predicate Ordered(lives: seq<Life>) {
    forall i, j :: 0 <= i < j < |lives| ==> Before(lives[i], lives[j])
  }

  predicate AllGood(c: Config, lives: seq<Life>) {
    forall i :: 0 <= i < |lives| ==> GoodLife(c, lives[i])
  }

  /** A life that lets something through inside the interval reaches into it. */
  lemma ReachesIn(c: Config, l: Life, from: int, to: int)
    requires GoodLife(c, l) && Inside(l.taken, from, to) > 0
    ensures l.start <= to && (l.end.Some? ==> from < l.end.value)
  {
    InsideIsAtMostAll(l.taken, from, to);
  }

  /** Lives over before the interval contribute nothing. */
  lemma {:induction false} NothingBefore(c: Config, lives: seq<Life>, from: int, to: int)
    requires AllGood(c, lives)
    requires forall i :: 0 <= i < |lives| ==> lives[i].end.Some? && lives[i].end.value <= from
    ensures Accepted(lives, from, to) == 0
  {
    if lives != [] {
      var last := |lives| - 1;
      NothingBefore(c, lives[..last], from, to);
      if Inside(lives[last].taken, from, to) > 0 {
        ReachesIn(c, lives[last], from, to);
      }
    }
  }

  /** In an interval no longer than the window only the last two lives that reach it matter. */
  lemma BeforeTheLastTwo(c: Config, lives: seq<Life>, from: int, to: int)
    requires AllGood(c, lives) && Ordered(lives) && to <= from + c.window * 1000
    requires |lives| >= 2 && lives[|lives| - 1].start <= to
    ensures Accepted(lives[..|lives| - 1], from, to) == Inside(lives[|lives| - 2].taken, from, to)
  {
    var n := |lives|;
    assert Before(lives[n - 2], lives[n - 1]);
    forall i | 0 <= i < n - 2
      ensures lives[i].end.Some? && lives[i].end.value <= from
    {
      assert Before(lives[i], lives[n - 2]);
    }
    NothingBefore(c, lives[..n - 2], from, to);
    assert lives[..n - 1][..n - 2] == lives[..n - 2];
  }

  /** The life before one that starts inside a window lets at most one less than the limit through in it. */
  lemma EarlierLifeWasArmed(c: Config, a: Life, b: Life, from: int, to: int)
    requires GoodLife(c, a) && Before(a, b) && b.start <= to < from + c.window * 1000 && c.limit > 0
    ensures Inside(a.taken, from, to) < c.limit
  {
    InsideIsAfter(a.taken, from, to, Armed(c, a.end.value));
  }

  lemma {:induction false} TwoLivesAtMost(c: Config, lives: seq<Life>, from: int, to: int)
    requires AllGood(c, lives) && Ordered(lives) && to <= from + c.window * 1000
    ensures Accepted(lives, from, to) <= 2 * c.limit
    ensures c.limit > 0 && to < from + c.window * 1000 ==> Accepted(lives, from, to) < 2 * c.limit
  {
    if lives != [] {
      var last := |lives| - 1;
      var init := lives[..last];
      InsideIsAtMostAll(lives[last].taken, from, to);
      if Inside(lives[last].taken, from, to) == 0 {
        TwoLivesAtMost(c, init, from, to);
      } else if last > 0 {
        ReachesIn(c, lives[last], from, to);
        BeforeTheLastTwo(c, lives, from, to);
        InsideIsAtMostAll(lives[last - 1].taken, from, to);
        if c.limit > 0 && to < from + c.window * 1000 {
          EarlierLifeWasArmed(c, lives[last - 1], lives[last], from, to);
        }
      }
    }
  }

  lemma RunLivesAreGood(c: Config, now: int, steps: seq<Step>)
    requires c.window > 0
    ensures var lives := Lives(Run(c, Start(now), steps)); AllGood(c, lives) && Ordered(lives)
  {
    RunKeepsInv(c, now, steps);
    var s := Run(c, Start(now), steps);
    assert forall i :: 0 <= i < |s.past| ==> Lives(s)[i] == s.past[i];
  }

  /**
    In every run, an interval as long as the window, both ends counted, lets at most twice the
    limit through; one end left out, at most one less than that.
   */
  lemma WindowBound(c: Config, now: int, steps: seq<Step>, from: int)
    requires c.window > 0
    ensures var lives := Lives(Run(c, Start(now), steps));
            && Accepted(lives, from, from + c.window * 1000) <= 2 * c.limit
            && (c.limit > 0 ==> Accepted(lives, from, from + c.window * 1000 - 1) <= 2 * c.limit - 1)
  {
    RunLivesAreGood(c, now, steps);
    TwoLivesAtMost(c, Lives(Run(c, Start(now), steps)), from, from + c.window * 1000);
    TwoLivesAtMost(c, Lives(Run(c, Start(now), steps)), from, from + c.window * 1000 - 1);
  }

  /** Each life of the bucket lets at most the limit through, and lasts a window or more. */
  lemma LifeBound(c: Config, now: int, steps: seq<Step>, i: nat)
    requires c.window > 0 && i < |Lives(Run(c, Start(now), steps))|
    ensures var l := Lives(Run(c, Start(now), steps))[i];
            |l.taken| <= c.limit && (l.end.Some? ==> l.end.value - l.start >= c.window * 1000)
  {
    RunLivesAreGood(c, now, steps);
  }

  // ---------- who gets through ----------

  /** How many requests were let through in all. */
  function Admitted(lives: seq<Life>): nat {
    if lives == [] then 0 else Admitted(lives[..|lives| - 1]) + |lives[|lives| - 1].taken|
  }

  lemma AdmittedOfMore(past: seq<Life>, l: Life)
    ensures Admitted(past + [l]) == Admitted(past) + |l.taken|
  {
    assert (past + [l])[..|past|] == past;
  }

  lemma AdmittedOf(s: Limiter)
    ensures Admitted(Lives(s)) == Admitted(s.past) + (if s.life.Some? then |s.life.value.taken| else 0)
  {
    if s.life.Some? { AdmittedOfMore(s.past, s.life.value); }
  }

  /** The step carries a reply to a request that may go on: a later one of a life, or the first one's expiry. */
  predicate Replies(s: Limiter, step: Step) {
    match step
    case Incr(_, replied) => replied && s.key.Some? && Alive(s.key.value, s.now)
    case Expire(request, replied) => replied && s.waiting == Some(request)
    case _ => false
  }

  /** The place of the request in its life. */
  function Place(s: Limiter, step: Step): nat {
    if step.Incr? && s.key.Some? then s.key.value.count + 1 else 1
  }

  lemma AdmitAdmits(c: Config, s: Limiter, count: nat)
    requires s.life.Some?
    ensures Admitted(Lives(Admit(c, s, count))) == Admitted(Lives(s)) + (if count <= c.limit then 1 else 0)
  {
    AdmittedOf(s);
    AdmittedOf(Admit(c, s, count));
  }

  lemma CountingAdmitsNobody(s: Limiter)
    ensures Admitted(Lives(Counted(s))) == Admitted(Lives(s))
  {
    AdmittedOf(s);
    AdmittedOf(Counted(s));
    if s.life.Some? { AdmittedOfMore(s.past, s.life.value); }
  }

  lemma EndingKeepsRecord(c: Config, s: Limiter)
    ensures var t := Ended(c, s);
            && t.past == s.past && (t.life.Some? <==> s.life.Some?)
            && (s.life.Some? ==> t.life.value.taken == s.life.value.taken)
  {}

  lemma EndingAdmitsNobody(c: Config, s: Limiter)
    ensures Admitted(Lives(Ended(c, s))) == Admitted(Lives(s))
  {
    EndingKeepsRecord(c, s);
    AdmittedOf(s);
    AdmittedOf(Ended(c, s));
  }

  /** One step lets one request through exactly when it carries such a reply and the place is within the limit. */
  lemma StepAdmitsExactly(c: Config, s: Limiter, step: Step)
    requires Inv(c, s)
    ensures Admitted(Lives(Next(c, s, step)))
         == Admitted(Lives(s)) + (if Replies(s, step) && Place(s, step) <= c.limit then 1 else 0)
  {
    match step
    case Incr(_, replied) =>
      CountingAdmitsNobody(s);
      CountedKeeps(c, s);
      AdmitAdmits(c, Counted(s), Counted(s).key.value.count);
      AdmittedOf(Counted(s));
      AdmittedOf(Counted(s).(waiting := Some(step.request)));
    case Expire(request, replied) =>
      if s.waiting == Some(request) {
        EndedKeeps(c, s);
        EndingAdmitsNobody(c, s);
        AdmitAdmits(c, Ended(c, s), 1);
      }
    case _ =>
      AdmittedOf(s);
      AdmittedOf(Next(c, s, step));
  }
}
