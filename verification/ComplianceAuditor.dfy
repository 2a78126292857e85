/** The audit task as it runs: three nested loops over tables, counters and a mapping index kept in place. */
module ComplianceAuditor {
  import opened ComplianceResults
  import opened ComplianceRules
  import opened ComplianceTheorems

  class Auditor {
    var results: seq<Result>
    var evidence: seq<Evidence>
    var supports: seq<Support>
    var mappings: seq<Mapping>
    var byKey: map<Key, nat>
    var alerts: seq<Alert>
    var statusCounts: Counts
    var frameworkCounts: map<string, Counts>
    var noncompliant: nat
    var evidenceCount: nat

    ghost function View(): Audit
      reads this
    {
      Audit(results, evidence, supports, Projection(mappings, byKey), alerts,
            statusCounts, frameworkCounts, noncompliant, evidenceCount)
    }

    /** A run starts with the tables as they are, an index of the mappings, and empty counters. */
    constructor (t: Tables)
      ensures View() == Begin(t)
    {
      results, evidence, supports, mappings, alerts := t.results, t.evidence, t.supports, t.mappings, t.alerts;
      byKey, statusCounts, frameworkCounts, noncompliant, evidenceCount := map[], map[], map[], 0, 0;
      new;
      BuildIndex();
    }

    /** Where each key's row sits. */
    method BuildIndex()
      modifies this`byKey
      ensures byKey == Index(mappings)
    {
      byKey := map[];
      for i := 0 to |mappings|
        invariant byKey == Index(mappings[..i])
      {
        IndexNext(mappings, i);
        byKey := byKey[mappings[i].key := i];
      }
      assert mappings[..|mappings|] == mappings;
    }

    method SaveMapping(m: Mapping)
      modifies this`mappings, this`byKey
      ensures Projection(mappings, byKey) == Project(Projection(old(mappings), old(byKey)), m)
    {
      if m.key in byKey && byKey[m.key] < |mappings| {
        mappings := mappings[byKey[m.key] := m];
      } else {
        byKey := byKey[m.key := |mappings|];
        mappings := mappings + [m];
      }
    }

    method ResolveAlerts(asset: nat, title: Title)
      modifies this`alerts
      ensures alerts == Resolved(old(alerts), asset, title)
    {
      ghost var was := alerts;
      for i := 0 to |alerts|
        invariant |alerts| == |was|
        invariant forall k :: 0 <= k < i ==> alerts[k] == Resolved(was, asset, title)[k]
        invariant forall k :: i <= k < |was| ==> alerts[k] == was[k]
      {
        if OpenGap(alerts[i], asset, title) {
          alerts := alerts[i := alerts[i].(open := false)];
        }
      }
    }

    method SelectFirstOpen(asset: nat, title: Title) returns (i: nat)
      ensures i == FirstOpen(alerts, asset, title)
    {
      i := 0;
      while i < |alerts| && !OpenGap(alerts[i], asset, title)
        invariant i <= |alerts|
        invariant forall k :: 0 <= k < i ==> !OpenGap(alerts[k], asset, title)
      {
        i := i + 1;
      }
    }

    method UpdateAlerts(x: Item, status: Status, run: nat)
      modifies this`alerts
      ensures alerts == AlertsAfter(old(alerts), x, status, run)
    {
      if status.Compliant? {
        ResolveAlerts(x.asset.id, TitleOf(x));
      } else if Important(x.asset) {
        var i := SelectFirstOpen(x.asset.id, TitleOf(x));
        if i < |alerts| {
          alerts := alerts[i := alerts[i].(status := status, run := run)];
        } else {
          alerts := alerts + [Alert(true, x.asset.id, TitleOf(x), true, status, run)];
        }
      }
    }

    method CountStatuses(framework: string, status: Status)
      modifies this`statusCounts, this`frameworkCounts, this`noncompliant
      ensures statusCounts == Bump(old(statusCounts), status)
      ensures frameworkCounts == old(frameworkCounts)[framework := Bump(Of(old(frameworkCounts), framework), status)]
      ensures noncompliant == old(noncompliant) + (if status.Compliant? then 0 else 1)
    {
      statusCounts := Bump(statusCounts, status);
      frameworkCounts := frameworkCounts[framework := Bump(Of(frameworkCounts, framework), status)];
      if !status.Compliant? {
        noncompliant := noncompliant + 1;
      }
    }

    /** A result, its evidence, and the link between them. */
    method RecordResult(r: Result)
      modifies this`results, this`evidence, this`supports, this`evidenceCount
      ensures results == old(results) + [r]
      ensures evidence == old(evidence) + [Evidence(r.control, r.asset)]
      ensures supports == old(supports) + [Support(|old(results)|, |old(evidence)|)]
      ensures evidenceCount == old(evidenceCount) + 1
    {
      supports := supports + [Support(|results|, |evidence|)];
      results := results + [r];
      evidence := evidence + [Evidence(r.control, r.asset)];
      evidenceCount := evidenceCount + 1;
    }

    /** One control on one asset. */
    method AssessPair(env: Env, x: Item)
      modifies this
      ensures View() == Step(env, old(View()), x)
    {
      if x.control !in env.catalog {
        return;
      }
      var a := Assess(env, x.control, x.asset);
      var row := |results|;
      CountStatuses(x.control.framework, a.status);
      RecordResult(Result(env.run, x.control, env.catalog[x.control], x.asset.id, a.status, a.score));
      SaveMapping(Mapping(KeyOf(x), a.status, env.run, row));
      UpdateAlerts(x, a.status, env.run);
    }

    method AssessControls(env: Env, asset: Asset, framework: string, controls: seq<string>)
      modifies this
      ensures View() == Steps(env, old(View()), ControlItems(asset, framework, controls))
    {
      for i := 0 to |controls|
        invariant View() == Steps(env, old(View()), ControlItems(asset, framework, controls[..i]))
      {
        var x := Item(asset, Control(framework, controls[i]));
        assert controls[..i + 1][..i] == controls[..i];
        StepsNext(env, old(View()), ControlItems(asset, framework, controls[..i]), x);
        AssessPair(env, x);
      }
      assert controls[..|controls|] == controls;
    }

    method AssessFrameworks(env: Env, asset: Asset, frameworks: seq<Framework>)
      modifies this
      ensures View() == Steps(env, old(View()), FrameworkItems(asset, frameworks))
    {
      for i := 0 to |frameworks|
        invariant View() == Steps(env, old(View()), FrameworkItems(asset, frameworks[..i]))
      {
        assert frameworks[..i + 1][..i] == frameworks[..i];
        StepsAppend(env, old(View()), FrameworkItems(asset, frameworks[..i]),
                    ControlItems(asset, frameworks[i].code, frameworks[i].controls));
        AssessControls(env, asset, frameworks[i].code, frameworks[i].controls);
      }
      assert frameworks[..|frameworks|] == frameworks;
    }

    method AssessAssets(env: Env, assets: seq<Asset>, frameworks: seq<Framework>)
      modifies this
      ensures View() == Steps(env, old(View()), Items(assets, frameworks))
    {
      for i := 0 to |assets|
        invariant View() == Steps(env, old(View()), Items(assets[..i], frameworks))
      {
        assert assets[..i + 1][..i] == assets[..i];
        StepsAppend(env, old(View()), Items(assets[..i], frameworks), FrameworkItems(assets[i], frameworks));
        AssessFrameworks(env, assets[i], frameworks);
      }
      assert assets[..|assets|] == assets;
    }
  }

  lemma IndexNext(mappings: seq<Mapping>, i: nat)
    requires i < |mappings|
    ensures Index(mappings[..i + 1]) == Index(mappings[..i])[mappings[i].key := i]
  {
    assert mappings[..i + 1][..i] == mappings[..i];
  }

  lemma StepsNext(env: Env, s: Audit, xs: seq<Item>, x: Item)
    ensures Steps(env, s, xs + [x]) == Step(env, Steps(env, s, xs), x)
  {
    assert (xs + [x])[..|xs|] == xs;
  }

  lemma {:induction false} StepsAppend(env: Env, s: Audit, xs: seq<Item>, ys: seq<Item>)
    ensures Steps(env, s, xs + ys) == Steps(env, Steps(env, s, xs), ys)
  {
    if ys == [] {
      assert xs + ys == xs;
    } else {
      var last := |ys| - 1;
      StepsAppend(env, s, xs, ys[..last]);
      assert xs + ys == (xs + ys[..last]) + [ys[last]];
      StepsNext(env, s, xs + ys[..last], ys[last]);
    }
  }

  /** What the stored run says about itself. */
  datatype RunSummary = RunSummary(
    assets: nat, results: nat, evidenceItems: nat, noncompliant: nat,
    statusCounts: Counts, frameworks: map<string, Summary>)

  /** The whole task: the tables afterwards and the summary stored with the run. */
  method RunComplianceAudit(env: Env, t: Tables, assets: seq<Asset>, frameworks: seq<Framework>)
    returns (after: Tables, summary: RunSummary)
    ensures var s := RunAudit(env, t, assets, frameworks);
            && after == End(s)
            && summary.assets == |assets| && summary.results == Total(s.statusCounts)
            && summary.evidenceItems == s.evidenceCount && summary.noncompliant == s.noncompliant
            && summary.statusCounts == s.statusCounts
            && summary.frameworks.Keys == s.frameworkCounts.Keys
            && forall f :: f in summary.frameworks ==> summary.frameworks[f] == FrameworkSummary(s.frameworkCounts[f])
    ensures Distinct(Codes(frameworks)) ==>
              && summary.results == summary.evidenceItems == |assets| * MatchedInAll(env, frameworks)
              && |after.results| == |t.results| + summary.results
              && |after.evidence| == |t.evidence| + summary.results
              && |after.supports| == |t.supports| + summary.results
              && summary.noncompliant == summary.results - Count(summary.statusCounts, Compliant)
    ensures AllDeserved(env, |t.results|, assets, frameworks, after.results)
  {
    var auditor := new Auditor(t);
    auditor.AssessAssets(env, assets, frameworks);
    after := Tables(auditor.results, auditor.evidence, auditor.supports, auditor.mappings, auditor.alerts);
    var summaries := map f | f in auditor.frameworkCounts :: FrameworkSummary(auditor.frameworkCounts[f]);
    summary := RunSummary(|assets|, Total(auditor.statusCounts), auditor.evidenceCount, auditor.noncompliant,
                          auditor.statusCounts, summaries);
    if Distinct(Codes(frameworks)) {
      AuditConserves(env, t, assets, frameworks, "", Compliant);
    }
    AllResultsAreDeserved(env, t, assets, frameworks);
  }

  /** The endpoint's loop over the grouped rows. */
  method NewSummary(groups: seq<Group>) returns (summary: map<string, Summary>)
    ensures summary.Keys == Summarise(groups).Keys
    ensures forall f :: f in summary ==> summary[f] == Finalized(Of(Summarise(groups), f))
  {
    var counts: map<string, Counts> := map[];
    for i := 0 to |groups|
      invariant counts == Summarise(groups[..i])
    {
      assert groups[..i + 1][..i] == groups[..i];
      var g := groups[i];
      counts := counts[g.framework := Add(Of(counts, g.framework), g.status, g.count)];
    }
    assert groups[..|groups|] == groups;
    summary := map f | f in counts :: Finalized(counts[f]);
  }
}
