/** Conservation, agreement of cached and recomputed summaries, and what a run does to mappings and alerts. */
module ComplianceTheorems {
  import opened ComplianceRules

  // ---------- conservation ----------

  function MatchedCount(env: Env, items: seq<Item>): nat {
    if items == [] then 0
    else MatchedCount(env, items[..|items| - 1]) + (if Matched(env, items[|items| - 1]) then 1 else 0)
  }

  /** The results a run added are those after the first `from`. */
  function CountResults(results: seq<Result>, from: nat, framework: string, s: Status): nat {
    if |results| <= from then 0
    else
      var r := results[|results| - 1];
      CountResults(results[..|results| - 1], from, framework, s)
        + (if r.control.framework == framework && r.status == s then 1 else 0)
  }

  function CountStatus(results: seq<Result>, from: nat, s: Status): nat {
    if |results| <= from then 0
    else CountStatus(results[..|results| - 1], from, s) + (if results[|results| - 1].status == s then 1 else 0)
  }

  /** Counters, tables and links of a run describe the same results. */
  ghost predicate Conserved(env: Env, t: Tables, s: Audit, n: nat) {
    && t.results <= s.results && t.evidence <= s.evidence && t.supports <= s.supports
    && |s.results| == |t.results| + n && |s.evidence| == |t.evidence| + n && |s.supports| == |t.supports| + n
    && s.evidenceCount == n
    && (forall k :: |t.results| <= k < |s.results| ==> s.results[k].run == env.run)
    && (forall k :: |t.evidence| <= k < |s.evidence| ==>
          s.evidence[k] == EvidenceFor(s.results[|t.results| + (k - |t.evidence|)]))
    && (forall k :: |t.supports| <= k < |s.supports| ==>
          var nth := k - |t.supports|;
          s.supports[k] == Support(|t.results| + nth, |t.evidence| + nth))
  }

  function EvidenceFor(r: Result): Evidence { Evidence(r.control, r.asset) }

  lemma {:induction false} StepsConserve(env: Env, t: Tables, items: seq<Item>)
    ensures Conserved(env, t, Steps(env, Begin(t), items), MatchedCount(env, items))
  {
    if items != [] {
      StepsConserve(env, t, items[..|items| - 1]);
    }
  }

  /** What one pair adds to the tables and counters, apart from mappings and alerts. */
  lemma StepAdds(env: Env, s: Audit, x: Item)
    ensures var s', a := Step(env, s, x), Assess(env, x.control, x.asset);
            if Matched(env, x) then
              && s'.results == s.results + [Result(env.run, x.control, env.catalog[x.control], x.asset.id, a.status, a.score)]
              && s'.statusCounts == Bump(s.statusCounts, a.status)
              && s'.frameworkCounts ==
                   s.frameworkCounts[x.control.framework := Bump(Of(s.frameworkCounts, x.control.framework), a.status)]
            else s' == s
  {
  }

  lemma CountNext(results: seq<Result>, r: Result, from: nat, framework: string, status: Status)
    requires from <= |results|
    ensures CountResults(results + [r], from, framework, status)
         == CountResults(results, from, framework, status)
              + (if r.control.framework == framework && r.status == status then 1 else 0)
    ensures CountStatus(results + [r], from, status)
         == CountStatus(results, from, status) + (if r.status == status then 1 else 0)
  {
    assert (results + [r])[..|results|] == results;
  }

  lemma {:induction false} CountersAgree(env: Env, t: Tables, items: seq<Item>, framework: string, status: Status)
    ensures var s := Steps(env, Begin(t), items);
            && |t.results| <= |s.results|
            && Count(Of(s.frameworkCounts, framework), status) == CountResults(s.results, |t.results|, framework, status)
            && Count(s.statusCounts, status) == CountStatus(s.results, |t.results|, status)
  {
    if items != [] {
      var x := items[|items| - 1];
      CountersAgree(env, t, items[..|items| - 1], framework, status);
      CountersStep(env, t, Steps(env, Begin(t), items[..|items| - 1]), x, framework, status);
    }
  }

  lemma CountersStep(env: Env, t: Tables, s: Audit, x: Item, framework: string, status: Status)
    requires |t.results| <= |s.results|
    requires Count(Of(s.frameworkCounts, framework), status) == CountResults(s.results, |t.results|, framework, status)
    requires Count(s.statusCounts, status) == CountStatus(s.results, |t.results|, status)
    ensures var s' := Step(env, s, x);
            && |t.results| <= |s'.results|
            && Count(Of(s'.frameworkCounts, framework), status) == CountResults(s'.results, |t.results|, framework, status)
            && Count(s'.statusCounts, status) == CountStatus(s'.results, |t.results|, status)
  {
    StepAdds(env, s, x);
    if Matched(env, x) {
      CountNext(s.results, Step(env, s, x).results[|s.results|], |t.results|, framework, status);
    }
  }

  lemma {:induction false} StatusesSum(env: Env, t: Tables, items: seq<Item>)
    ensures var s := Steps(env, Begin(t), items);
            && Total(s.statusCounts) == |s.results| - |t.results|
            && s.noncompliant == Total(s.statusCounts) - Count(s.statusCounts, Compliant)
  {
    if items != [] {
      StatusesSum(env, t, items[..|items| - 1]);
      StatusesStep(env, Steps(env, Begin(t), items[..|items| - 1]), items[|items| - 1]);
    }
  }

  lemma StatusesStep(env: Env, s: Audit, x: Item)
    ensures var s', a := Step(env, s, x), Assess(env, x.control, x.asset).status;
            if Matched(env, x) then
              && Total(s'.statusCounts) == Total(s.statusCounts) + 1
              && |s'.results| == |s.results| + 1
              && Count(s'.statusCounts, Compliant) == Count(s.statusCounts, Compliant) + (if a.Compliant? then 1 else 0)
              && s'.noncompliant == s.noncompliant + (if a.Compliant? then 0 else 1)
            else s' == s
  {
    TotalOfBump(s.statusCounts, Assess(env, x.control, x.asset).status);
  }

  lemma TotalOfBump(m: Counts, s: Status)
    ensures Total(Bump(m, s)) == Total(m) + 1
  {
  }

  /** Sum of one status over a list of frameworks. */
  function SumOver(m: map<string, Counts>, frameworks: seq<string>, s: Status): nat {
    if frameworks == [] then 0
    else SumOver(m, frameworks[..|frameworks| - 1], s) + Count(Of(m, frameworks[|frameworks| - 1]), s)
  }

  ghost predicate Distinct<T>(xs: seq<T>) {
    forall i, j :: 0 <= i < j < |xs| ==> xs[i] != xs[j]
  }

  lemma {:induction false} SumOverBump(m: map<string, Counts>, frameworks: seq<string>, f: string, a: Status, s: Status)
    requires Distinct(frameworks)
    ensures SumOver(m[f := Bump(Of(m, f), a)], frameworks, s)
         == SumOver(m, frameworks, s) + (if f in frameworks && s == a then 1 else 0)
  {
    if frameworks != [] {
      var last := |frameworks| - 1;
      SumOverBump(m, frameworks[..last], f, a, s);
      assert f in frameworks <==> f in frameworks[..last] || f == frameworks[last];
    }
  }

  lemma {:induction false} FrameworksSum(env: Env, t: Tables, items: seq<Item>, frameworks: seq<string>, status: Status)
    requires Distinct(frameworks) && forall k :: 0 <= k < |items| ==> items[k].control.framework in frameworks
    ensures var s := Steps(env, Begin(t), items);
            SumOver(s.frameworkCounts, frameworks, status) == Count(s.statusCounts, status)
  {
    if items == [] {
      NothingSums(frameworks, status);
    } else {
      var last := |items| - 1;
      FrameworksSum(env, t, items[..last], frameworks, status);
      var s := Steps(env, Begin(t), items[..last]);
      var x := items[last];
      SumOverBump(s.frameworkCounts, frameworks, x.control.framework, Assess(env, x.control, x.asset).status, status);
    }
  }

  lemma {:induction false} NothingSums(frameworks: seq<string>, s: Status)
    ensures SumOver(map[], frameworks, s) == 0
  {
    if frameworks != [] { NothingSums(frameworks[..|frameworks| - 1], s); }
  }

  // ---------- how many pairs the loops visit ----------

  function MatchedControls(env: Env, framework: string, controls: seq<string>): nat {
    if controls == [] then 0
    else
      var last := |controls| - 1;
      MatchedControls(env, framework, controls[..last]) + (if Control(framework, controls[last]) in env.catalog then 1 else 0)
  }

  function MatchedInAll(env: Env, frameworks: seq<Framework>): nat {
    if frameworks == [] then 0
    else
      var f := frameworks[|frameworks| - 1];
      MatchedInAll(env, frameworks[..|frameworks| - 1]) + MatchedControls(env, f.code, f.controls)
  }

  lemma {:induction false} MatchedAppend(env: Env, xs: seq<Item>, ys: seq<Item>)
    ensures MatchedCount(env, xs + ys) == MatchedCount(env, xs) + MatchedCount(env, ys)
  {
    if ys == [] {
      assert xs + ys == xs;
    } else {
      var last := |ys| - 1;
      MatchedAppend(env, xs, ys[..last]);
      assert (xs + ys)[..|xs| + last] == xs + ys[..last];
    }
  }

  lemma {:induction false} MatchedInControls(env: Env, a: Asset, framework: string, controls: seq<string>)
    ensures MatchedCount(env, ControlItems(a, framework, controls)) == MatchedControls(env, framework, controls)
  {
    if controls != [] {
      var last := |controls| - 1;
      MatchedInControls(env, a, framework, controls[..last]);
      var x := Item(a, Control(framework, controls[last]));
      MatchedAppend(env, ControlItems(a, framework, controls[..last]), [x]);
      assert [x][..0] == [];
    }
  }

  lemma {:induction false} MatchedInFrameworks(env: Env, a: Asset, frameworks: seq<Framework>)
    ensures MatchedCount(env, FrameworkItems(a, frameworks)) == MatchedInAll(env, frameworks)
  {
    if frameworks != [] {
      var last := |frameworks| - 1;
      MatchedInFrameworks(env, a, frameworks[..last]);
      MatchedInControls(env, a, frameworks[last].code, frameworks[last].controls);
      MatchedAppend(env, FrameworkItems(a, frameworks[..last]),
                    ControlItems(a, frameworks[last].code, frameworks[last].controls));
    }
  }

  lemma Times(n: nat, m: nat)
    ensures (n + 1) * m == n * m + m
  {
  }

  lemma {:induction false} MatchedInItems(env: Env, assets: seq<Asset>, frameworks: seq<Framework>)
    ensures MatchedCount(env, Items(assets, frameworks)) == |assets| * MatchedInAll(env, frameworks)
  {
    if assets != [] {
      var last := |assets| - 1;
      MatchedInItems(env, assets[..last], frameworks);
      MatchedInFrameworks(env, assets[last], frameworks);
      MatchedAppend(env, Items(assets[..last], frameworks), FrameworkItems(assets[last], frameworks));
      Times(last, MatchedInAll(env, frameworks));
    }
  }

  function Codes(frameworks: seq<Framework>): (c: seq<string>)
    ensures |c| == |frameworks| && forall i :: 0 <= i < |c| ==> c[i] == frameworks[i].code
  {
    seq(|frameworks|, i requires 0 <= i < |frameworks| => frameworks[i].code)
  }

  lemma {:induction false} ControlItemsAre(a: Asset, framework: string, controls: seq<string>)
    ensures var xs := ControlItems(a, framework, controls);
            |xs| == |controls| && forall k :: 0 <= k < |xs| ==> xs[k] == Item(a, Control(framework, controls[k]))
  {
    if controls != [] { ControlItemsAre(a, framework, controls[..|controls| - 1]); }
  }

  lemma {:induction false} FrameworkItemsAre(a: Asset, frameworks: seq<Framework>)
    ensures forall x :: x in FrameworkItems(a, frameworks) ==>
              x.asset == a && exists j :: 0 <= j < |frameworks| && frameworks[j].code == x.control.framework
  {
    if frameworks != [] {
      var last := |frameworks| - 1;
      var f := frameworks[last];
      FrameworkItemsAre(a, frameworks[..last]);
      ControlItemsAre(a, f.code, f.controls);
      forall x | x in FrameworkItems(a, frameworks)
        ensures x.asset == a && exists j :: 0 <= j < |frameworks| && frameworks[j].code == x.control.framework
      {
        if x in ControlItems(a, f.code, f.controls) {
          assert frameworks[last].code == x.control.framework;
        } else {
          var j :| 0 <= j < last && frameworks[..last][j].code == x.control.framework;
          assert frameworks[j].code == x.control.framework;
        }
      }
    }
  }

  lemma {:induction false} ItemsAre(assets: seq<Asset>, frameworks: seq<Framework>)
    ensures forall x :: x in Items(assets, frameworks) ==>
              x.asset in assets && x.control.framework in Codes(frameworks)
  {
    if assets != [] {
      var last := |assets| - 1;
      ItemsAre(assets[..last], frameworks);
      FrameworkItemsAre(assets[last], frameworks);
      forall x | x in Items(assets, frameworks)
        ensures x.asset in assets && x.control.framework in Codes(frameworks)
      {
        if x in FrameworkItems(assets[last], frameworks) {
          var j :| 0 <= j < |frameworks| && frameworks[j].code == x.control.framework;
          assert Codes(frameworks)[j] == x.control.framework;
        }
      }
    }
  }

  /**
    Main result on conservation: a run adds one result, one evidence item and one link for
    each asset and matched control; the counters say exactly how many results have each
    status, overall and per framework, and the framework counters sum to the overall ones.
   */
  lemma AuditConserves(env: Env, t: Tables, assets: seq<Asset>, frameworks: seq<Framework>, framework: string, status: Status)
    requires Distinct(Codes(frameworks))
    ensures var s := RunAudit(env, t, assets, frameworks);
            var n := |assets| * MatchedInAll(env, frameworks);
            && Conserved(env, t, s, n)
            && Total(s.statusCounts) == n && s.noncompliant == n - Count(s.statusCounts, Compliant)
            && Count(s.statusCounts, status) == CountStatus(s.results, |t.results|, status)
            && Count(Of(s.frameworkCounts, framework), status) == CountResults(s.results, |t.results|, framework, status)
            && SumOver(s.frameworkCounts, Codes(frameworks), status) == Count(s.statusCounts, status)
  {
    var items := Items(assets, frameworks);
    ItemsAre(assets, frameworks);
    forall k | 0 <= k < |items|
      ensures items[k].control.framework in Codes(frameworks)
    {
      assert items[k] in items;
    }
    MatchedInItems(env, assets, frameworks);
    StepsConserve(env, t, items);
    StatusesSum(env, t, items);
    CountersAgree(env, t, items, framework, status);
    FrameworksSum(env, t, items, Codes(frameworks), status);
  }

  // ---------- cached against recomputed summaries ----------

  /** The results of one run, as the summary query joins them. */
  function OfRun(results: seq<Result>, run: nat): seq<Result> {
    if results == [] then []
    else
      var r := results[|results| - 1];
      OfRun(results[..|results| - 1], run) + (if r.run == run then [r] else [])
  }

  predicate InGroup(r: Result, g: Group) {
    r.control.framework == g.framework && r.version == g.version && r.status == g.status
  }

  function GroupSize(rows: seq<Result>, g: Group): nat {
    if rows == [] then 0
    else GroupSize(rows[..|rows| - 1], g) + (if InGroup(rows[|rows| - 1], g) then 1 else 0)
  }

  predicate SameGroup(g: Group, h: Group) {
    g.framework == h.framework && g.version == h.version && g.status == h.status
  }

  /** What GROUP BY returns, in any order. */
  ghost predicate Groups(groups: seq<Group>, rows: seq<Result>) {
    && (forall i, j :: 0 <= i < j < |groups| ==> !SameGroup(groups[i], groups[j]))
    && (forall i :: 0 <= i < |groups| ==> groups[i].count == GroupSize(rows, groups[i]) > 0)
    && (forall k :: 0 <= k < |rows| ==> exists i :: 0 <= i < |groups| && InGroup(rows[k], groups[i]))
  }

  function Without(rows: seq<Result>, g: Group): seq<Result> {
    if rows == [] then []
    else
      var r := rows[|rows| - 1];
      var rest := Without(rows[..|rows| - 1], g);
      if InGroup(r, g) then rest else rest + [r]
  }

  lemma {:induction false} WithoutCounts(rows: seq<Result>, g: Group, framework: string, s: Status)
    ensures CountResults(rows, 0, framework, s) == CountResults(Without(rows, g), 0, framework, s)
              + (if g.framework == framework && g.status == s then GroupSize(rows, g) else 0)
  {
    if rows != [] {
      var last := |rows| - 1;
      WithoutCounts(rows[..last], g, framework, s);
      if !InGroup(rows[last], g) {
        CountNext(Without(rows[..last], g), rows[last], 0, framework, s);
      }
    }
  }

  lemma {:induction false} WithoutSizes(rows: seq<Result>, g: Group, h: Group)
    requires !SameGroup(g, h)
    ensures GroupSize(Without(rows, g), h) == GroupSize(rows, h)
  {
    if rows != [] {
      var last := |rows| - 1;
      WithoutSizes(rows[..last], g, h);
      var rest := Without(rows[..last], g);
      assert (rest + [rows[last]])[..|rest|] == rest;
    }
  }

  lemma {:induction false} WithoutRows(rows: seq<Result>, g: Group)
    ensures forall r :: r in Without(rows, g) <==> r in rows && !InGroup(r, g)
  {
    if rows != [] {
      var last := |rows| - 1;
      WithoutRows(rows[..last], g);
      assert rows == rows[..last] + [rows[last]];
    }
  }

  function SumGroups(groups: seq<Group>, framework: string, s: Status): nat {
    if groups == [] then 0
    else
      var g := groups[|groups| - 1];
      SumGroups(groups[..|groups| - 1], framework, s) + (if g.framework == framework && g.status == s then g.count else 0)
  }

  lemma GroupsWithoutLast(groups: seq<Group>, rows: seq<Result>)
    requires groups != [] && Groups(groups, rows)
    ensures Groups(groups[..|groups| - 1], Without(rows, groups[|groups| - 1]))
  {
    var last := |groups| - 1;
    var g := groups[last];
    var rest := Without(rows, g);
    forall i | 0 <= i < last
      ensures groups[i].count == GroupSize(rest, groups[i]) > 0
    {
      WithoutSizes(rows, g, groups[i]);
    }
    forall k | 0 <= k < |rest|
      ensures exists i :: 0 <= i < last && InGroup(rest[k], groups[..last][i])
    {
      var i := GroupOfRest(groups, rows, rest[k]);
      assert groups[..last][i] == groups[i];
    }
  }

  lemma GroupOfRest(groups: seq<Group>, rows: seq<Result>, r: Result) returns (i: nat)
    requires groups != [] && Groups(groups, rows) && r in Without(rows, groups[|groups| - 1])
    ensures i < |groups| - 1 && InGroup(r, groups[i])
  {
    WithoutRows(rows, groups[|groups| - 1]);
    var m :| 0 <= m < |rows| && rows[m] == r;
    var j :| 0 <= j < |groups| && InGroup(rows[m], groups[j]);
    i := j;
  }

  lemma RowHasGroup(groups: seq<Group>, rows: seq<Result>, k: nat) returns (i: nat)
    requires Groups(groups, rows) && k < |rows|
    ensures i < |groups| && InGroup(rows[k], groups[i])
  {
    var row := rows[k];
    assert exists i :: 0 <= i < |groups| && InGroup(row, groups[i]);
    i :| 0 <= i < |groups| && InGroup(row, groups[i]);
  }

  /** Adding up the groups gives back the counts over the rows. */
  lemma {:induction false} GroupsAddUp(groups: seq<Group>, rows: seq<Result>, framework: string, s: Status)
    requires Groups(groups, rows)
    ensures SumGroups(groups, framework, s) == CountResults(rows, 0, framework, s)
  {
    if rows != [] {
      var i := RowHasGroup(groups, rows, 0);
    }
    if groups != [] {
      var last := |groups| - 1;
      GroupsWithoutLast(groups, rows);
      GroupsAddUp(groups[..last], Without(rows, groups[last]), framework, s);
      WithoutCounts(rows, groups[last], framework, s);
    }
  }

  lemma {:induction false} SummariseCounts(groups: seq<Group>, framework: string, s: Status)
    ensures Count(Of(Summarise(groups), framework), s)
         == SumGroups(groups, framework, s) + (if s.NotApplicable? then SumGroups(groups, framework, Na) else 0)
  {
    if groups != [] { SummariseCounts(groups[..|groups| - 1], framework, s); }
  }

  lemma {:induction false} SummariseKeys(groups: seq<Group>)
    ensures forall f :: f in Summarise(groups) <==> exists i :: 0 <= i < |groups| && groups[i].framework == f
  {
    if groups != [] {
      var last := |groups| - 1;
      SummariseKeys(groups[..last]);
      forall f
        ensures f in Summarise(groups) <==> exists i :: 0 <= i < |groups| && groups[i].framework == f
      {
        if f in Summarise(groups[..last]) {
          var i :| 0 <= i < last && groups[..last][i].framework == f;
          assert groups[i].framework == f;
        }
        if f == groups[last].framework {}
      }
    }
  }

  // ---------- the run's own rows ----------

  lemma {:induction false} OfRunIsFresh(env: Env, t: Tables, items: seq<Item>)
    requires forall k :: 0 <= k < |t.results| ==> t.results[k].run != env.run
    ensures var s := Steps(env, Begin(t), items);
            |t.results| <= |s.results| && OfRun(s.results, env.run) == s.results[|t.results|..]
  {
    StepsConserve(env, t, items);
    if items == [] {
      NoneOfRun(t.results, env.run);
    } else {
      var before := items[..|items| - 1];
      OfRunIsFresh(env, t, before);
      StepsConserve(env, t, before);
      var s, s' := Steps(env, Begin(t), before), Steps(env, Begin(t), items);
      if s'.results != s.results {
        assert s'.results[..|s.results|] == s.results;
        assert s'.results[|t.results|..] == s.results[|t.results|..] + [s'.results[|s.results|]];
      }
    }
  }

  lemma {:induction false} NoneOfRun(results: seq<Result>, run: nat)
    requires forall k :: 0 <= k < |results| ==> results[k].run != run
    ensures OfRun(results, run) == []
  {
    if results != [] { NoneOfRun(results[..|results| - 1], run); }
  }

  lemma {:induction false} CountFrom(results: seq<Result>, from: nat, framework: string, s: Status)
    requires from <= |results|
    ensures CountResults(results, from, framework, s) == CountResults(results[from..], 0, framework, s)
  {
    if |results| > from {
      var last := |results| - 1;
      CountFrom(results[..last], from, framework, s);
      assert results[from..][..last - from] == results[..last][from..];
    }
  }

  lemma {:induction false} FrameworkSeen(env: Env, t: Tables, items: seq<Item>, framework: string)
    ensures var s := Steps(env, Begin(t), items);
            framework in s.frameworkCounts <==>
              exists k :: |t.results| <= k < |s.results| && s.results[k].control.framework == framework
  {
    if items != [] {
      var before := items[..|items| - 1];
      FrameworkSeen(env, t, before, framework);
      StepsConserve(env, t, before);
      var s, s' := Steps(env, Begin(t), before), Steps(env, Begin(t), items);
      if s'.results != s.results {
        var n := |s.results|;
        assert s'.results == s.results + [s'.results[n]];
        if framework in s.frameworkCounts {
          var k :| |t.results| <= k < n && s.results[k].control.framework == framework;
          assert s'.results[k].control.framework == framework;
        }
        if s'.results[n].control.framework == framework {}
      }
    }
  }

  lemma {:induction false} OnlyAssessedStatuses(env: Env, t: Tables, items: seq<Item>, framework: string, s: Status)
    requires s.Na? || s.NotApplicable? || s.Exception? || s.NotAssessed? || s.Unknown?
    ensures Count(Of(Steps(env, Begin(t), items).frameworkCounts, framework), s) == 0
  {
    if items != [] { OnlyAssessedStatuses(env, t, items[..|items| - 1], framework, s); }
  }

  /**
    Main result on the cache: right after a run, whatever order the grouped query returns its
    rows in, the endpoint's summary covers the same frameworks as the stored one and shows
    the same total and the same percentage for each.
   */
  lemma CacheAgrees(env: Env, t: Tables, assets: seq<Asset>, frameworks: seq<Framework>, groups: seq<Group>, framework: string)
    requires forall k :: 0 <= k < |t.results| ==> t.results[k].run != env.run
    requires Groups(groups, OfRun(RunAudit(env, t, assets, frameworks).results, env.run))
    ensures var cached := RunAudit(env, t, assets, frameworks).frameworkCounts;
            var recomputed := Summarise(groups);
            && (framework in cached <==> framework in recomputed)
            && Finalized(Of(recomputed, framework)).total == FrameworkSummary(Of(cached, framework)).total
            && Finalized(Of(recomputed, framework)).percentage == FrameworkSummary(Of(cached, framework)).percentage
  {
    var items := Items(assets, frameworks);
    var s := Steps(env, Begin(t), items);
    forall st: Status
      ensures Count(Of(Summarise(groups), framework), st) == Count(Of(s.frameworkCounts, framework), st)
    {
      SameCounts(env, t, items, groups, framework, st);
    }
    OnlyAssessedStatuses(env, t, items, framework, Na);
    SameFrameworks(env, t, items, groups, framework);
    SameSummary(Of(Summarise(groups), framework), Of(s.frameworkCounts, framework));
  }

  lemma SameSummary(m: Counts, n: Counts)
    requires (forall st: Status :: Count(m, st) == Count(n, st)) && Count(n, Na) == 0
    ensures Finalized(m).total == FrameworkSummary(n).total
    ensures Finalized(m).percentage == FrameworkSummary(n).percentage
  {
  }

  lemma SameCounts(env: Env, t: Tables, items: seq<Item>, groups: seq<Group>, framework: string, st: Status)
    requires forall k :: 0 <= k < |t.results| ==> t.results[k].run != env.run
    requires Groups(groups, OfRun(Steps(env, Begin(t), items).results, env.run))
    ensures Count(Of(Summarise(groups), framework), st)
         == Count(Of(Steps(env, Begin(t), items).frameworkCounts, framework), st)
  {
    var s := Steps(env, Begin(t), items);
    OfRunIsFresh(env, t, items);
    SummariseCounts(groups, framework, st);
    GroupsAddUp(groups, s.results[|t.results|..], framework, st);
    GroupsAddUp(groups, s.results[|t.results|..], framework, Na);
    CountFrom(s.results, |t.results|, framework, st);
    CountFrom(s.results, |t.results|, framework, Na);
    CountersAgree(env, t, items, framework, st);
    CountersAgree(env, t, items, framework, Na);
    OnlyAssessedStatuses(env, t, items, framework, Na);
  }

  lemma SameFrameworks(env: Env, t: Tables, items: seq<Item>, groups: seq<Group>, framework: string)
    requires forall k :: 0 <= k < |t.results| ==> t.results[k].run != env.run
    requires Groups(groups, OfRun(Steps(env, Begin(t), items).results, env.run))
    ensures framework in Steps(env, Begin(t), items).frameworkCounts <==> framework in Summarise(groups)
  {
    var s := Steps(env, Begin(t), items);
    OfRunIsFresh(env, t, items);
    var rows := s.results[|t.results|..];
    SummariseKeys(groups);
    FrameworkSeen(env, t, items, framework);
    if framework in s.frameworkCounts {
      var k :| |t.results| <= k < |s.results| && s.results[k].control.framework == framework;
      assert rows[k - |t.results|] == s.results[k];
      var i :| 0 <= i < |groups| && InGroup(rows[k - |t.results|], groups[i]);
      assert groups[i].framework == framework;
    }
    if framework in Summarise(groups) {
      var i :| 0 <= i < |groups| && groups[i].framework == framework;
      assert GroupSize(rows, groups[i]) > 0;
      var k := MemberOfGroup(rows, groups[i]);
      assert s.results[|t.results| + k].control.framework == framework;
    }
  }

  lemma {:induction false} MemberOfGroup(rows: seq<Result>, g: Group) returns (k: nat)
    requires GroupSize(rows, g) > 0
    ensures k < |rows| && InGroup(rows[k], g)
  {
    var last := |rows| - 1;
    if InGroup(rows[last], g) {
      k := last;
    } else {
      k := MemberOfGroup(rows[..last], g);
    }
  }
}
