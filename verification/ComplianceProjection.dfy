/** What a run leaves behind in the mapping projection and the gap alerts, and why a second run is quiet. */
module ComplianceProjection {
  import opened ComplianceRules
  import opened Options
  import opened ComplianceTheorems

  // ---------- every pair is visited once ----------

  ghost predicate DistinctKeys(items: seq<Item>) {
    forall i, j :: 0 <= i < j < |items| ==> KeyOf(items[i]) != KeyOf(items[j])
  }

  /** Primary keys of the assets, dictionary keys of the catalogs. */
  ghost predicate GoodInput(assets: seq<Asset>, frameworks: seq<Framework>) {
    && (forall i, j :: 0 <= i < j < |assets| ==> assets[i].id != assets[j].id)
    && Distinct(Codes(frameworks))
    && (forall i :: 0 <= i < |frameworks| ==> Distinct(frameworks[i].controls))
  }

  lemma DistinctAppend(xs: seq<Item>, ys: seq<Item>)
    requires DistinctKeys(xs) && DistinctKeys(ys)
    requires forall x, y :: x in xs && y in ys ==> KeyOf(x) != KeyOf(y)
    ensures DistinctKeys(xs + ys)
  {
  }

  lemma {:induction false} FrameworkItemsDistinct(a: Asset, frameworks: seq<Framework>)
    requires Distinct(Codes(frameworks)) && forall i :: 0 <= i < |frameworks| ==> Distinct(frameworks[i].controls)
    ensures DistinctKeys(FrameworkItems(a, frameworks))
  {
    if frameworks != [] {
      var last := |frameworks| - 1;
      var f := frameworks[last];
      var xs, ys := FrameworkItems(a, frameworks[..last]), ControlItems(a, f.code, f.controls);
      assert Codes(frameworks[..last]) == Codes(frameworks)[..last];
      FrameworkItemsDistinct(a, frameworks[..last]);
      FrameworkItemsAre(a, frameworks[..last]);
      ControlItemsAre(a, f.code, f.controls);
      forall x, y | x in xs && y in ys
        ensures KeyOf(x) != KeyOf(y)
      {
        var j :| 0 <= j < last && frameworks[..last][j].code == x.control.framework;
        assert Codes(frameworks)[j] != Codes(frameworks)[last];
      }
      DistinctAppend(xs, ys);
    }
  }

  lemma {:induction false} ItemsDistinct(assets: seq<Asset>, frameworks: seq<Framework>)
    requires GoodInput(assets, frameworks)
    ensures DistinctKeys(Items(assets, frameworks))
  {
    if assets != [] {
      var last := |assets| - 1;
      var xs, ys := Items(assets[..last], frameworks), FrameworkItems(assets[last], frameworks);
      ItemsDistinct(assets[..last], frameworks);
      FrameworkItemsDistinct(assets[last], frameworks);
      ItemsAre(assets[..last], frameworks);
      FrameworkItemsAre(assets[last], frameworks);
      forall x, y | x in xs && y in ys
        ensures KeyOf(x) != KeyOf(y)
      {
        var i :| 0 <= i < last && assets[..last][i] == x.asset;
        assert assets[i].id != assets[last].id;
      }
      DistinctAppend(xs, ys);
    }
  }

  // ---------- mappings ----------

  ghost predicate Indexed(p: Projection) {
    && (forall k :: k in p.byKey ==> p.byKey[k] < |p.rows| && p.rows[p.byKey[k]].key == k)
    && (forall i :: 0 <= i < |p.rows| ==> p.rows[i].key in p.byKey)
  }

  ghost predicate UniqueMappings(rows: seq<Mapping>) {
    forall i, j :: 0 <= i < j < |rows| ==> rows[i].key != rows[j].key
  }

  /** The row a key leads to. */
  function RowOf(p: Projection, k: Key): Option<Mapping> {
    if k in p.byKey && p.byKey[k] < |p.rows| then Some(p.rows[p.byKey[k]]) else None
  }

  lemma ProjectKeeps(p: Projection, m: Mapping)
    requires Indexed(p)
    ensures Indexed(Project(p, m))
    ensures UniqueMappings(p.rows) ==> UniqueMappings(Project(p, m).rows)
    ensures RowOf(Project(p, m), m.key) == Some(m)
  {
  }

  lemma ProjectLeavesOthers(p: Projection, m: Mapping, k: Key)
    requires Indexed(p) && k != m.key
    ensures RowOf(Project(p, m), k) == RowOf(p, k)
  {
  }

  lemma {:induction false} StepsIndexed(env: Env, t: Tables, items: seq<Item>)
    ensures var p := Steps(env, Begin(t), items).projection;
            Indexed(p) && (UniqueMappings(t.mappings) ==> UniqueMappings(p.rows))
  {
    if items != [] {
      var x := items[|items| - 1];
      var s := Steps(env, Begin(t), items[..|items| - 1]);
      StepsIndexed(env, t, items[..|items| - 1]);
      ProjectKeeps(s.projection, Mapping(KeyOf(x), Assess(env, x.control, x.asset).status, env.run, |s.results|));
    }
  }

  /** How one assessed pair changes the row a key leads to. */
  lemma StepRow(env: Env, s: Audit, x: Item, key: Key)
    requires Indexed(s.projection)
    ensures var row := RowOf(Step(env, s, x).projection, key);
            if Matched(env, x) && key == KeyOf(x) then
              row == Some(Mapping(key, Assess(env, x.control, x.asset).status, env.run, |s.results|))
            else row == RowOf(s.projection, key)
  {
    if Matched(env, x) {
      var m := Mapping(KeyOf(x), Assess(env, x.control, x.asset).status, env.run, |s.results|);
      if key == KeyOf(x) { ProjectKeeps(s.projection, m); } else { ProjectLeavesOthers(s.projection, m, key); }
    }
  }

  /** The row of `x`'s key carries the status of `x`'s assessment in this run. */
  ghost predicate Mapped(env: Env, s: Audit, x: Item) {
    var row := RowOf(s.projection, KeyOf(x));
    row.Some? && row.value.status == Assess(env, x.control, x.asset).status && row.value.run == env.run
  }

  lemma {:induction false} MappingOfItem(env: Env, t: Tables, items: seq<Item>, k: nat)
    requires DistinctKeys(items) && k < |items| && Matched(env, items[k])
    ensures Mapped(env, Steps(env, Begin(t), items), items[k])
  {
    var last := |items| - 1;
    StepsIndexed(env, t, items[..last]);
    StepRow(env, Steps(env, Begin(t), items[..last]), items[last], KeyOf(items[k]));
    if k < last {
      MappingOfItem(env, t, items[..last], k);
      assert KeyOf(items[k]) != KeyOf(items[last]);
    }
  }

  /**
    Main result on mappings: after a run the mapping of every assessed pair has the status of
    this run's result; if no key was stored twice before, none is afterwards and there is no
    other mapping row for the pair.
   */
  lemma MappingsFollowResults(env: Env, t: Tables, assets: seq<Asset>, frameworks: seq<Framework>, x: Item)
    requires GoodInput(assets, frameworks) && x in Items(assets, frameworks) && Matched(env, x)
    ensures var rows := RunAudit(env, t, assets, frameworks).projection.rows;
            var status := Assess(env, x.control, x.asset).status;
            && (exists i :: 0 <= i < |rows| && rows[i].key == KeyOf(x) && rows[i].status == status)
            && (UniqueMappings(t.mappings) ==>
                  && UniqueMappings(rows)
                  && forall i :: 0 <= i < |rows| && rows[i].key == KeyOf(x) ==> rows[i].status == status)
  {
    var items := Items(assets, frameworks);
    ItemsDistinct(assets, frameworks);
    var k :| 0 <= k < |items| && items[k] == x;
    MappingOfItem(env, t, items, k);
    StepsIndexed(env, t, items);
    var p := Steps(env, Begin(t), items).projection;
    var i := p.byKey[KeyOf(x)];
    assert p.rows[i].key == KeyOf(x) && p.rows[i] == RowOf(p, KeyOf(x)).value;
  }

  // ---------- alerts ----------

  lemma {:induction false} SameOpen(a: seq<Alert>, b: seq<Alert>, asset: nat, title: Title)
    requires |a| == |b| && forall i :: 0 <= i < |a| ==> OpenGap(a[i], asset, title) == OpenGap(b[i], asset, title)
    ensures OpenGaps(a, asset, title) == OpenGaps(b, asset, title)
  {
    if a != [] { SameOpen(a[..|a| - 1], b[..|b| - 1], asset, title); }
  }

  lemma {:induction false} NoneOpen(a: seq<Alert>, asset: nat, title: Title)
    ensures OpenGaps(a, asset, title) == 0 <==> forall i :: 0 <= i < |a| ==> !OpenGap(a[i], asset, title)
  {
    if a != [] {
      var last := |a| - 1;
      NoneOpen(a[..last], asset, title);
      assert forall i :: 0 <= i < last ==> a[..last][i] == a[i];
    }
  }

  /** How many open alerts a pair should have after its assessment, given how many it had. */
  function Settled(status: Status, important: bool, n: nat): nat {
    if status.Compliant? then 0 else if important && n == 0 then 1 else n
  }

  lemma AlertsAfterOwn(alerts: seq<Alert>, x: Item, status: Status, run: nat)
    ensures OpenGaps(AlertsAfter(alerts, x, status, run), x.asset.id, TitleOf(x))
         == Settled(status, Important(x.asset), OpenGaps(alerts, x.asset.id, TitleOf(x)))
  {
    var asset, title, after := x.asset.id, TitleOf(x), AlertsAfter(alerts, x, status, run);
    NoneOpen(alerts, asset, title);
    NoneOpen(after, asset, title);
    if !status.Compliant? && Important(x.asset) {
      if FirstOpen(alerts, asset, title) < |alerts| {
        SameOpen(alerts, after, asset, title);
      } else {
        assert after[..|alerts|] == alerts;
      }
    }
  }

  lemma AlertsAfterOther(alerts: seq<Alert>, x: Item, status: Status, run: nat, asset: nat, title: Title)
    requires asset != x.asset.id || title != TitleOf(x)
    ensures OpenGaps(AlertsAfter(alerts, x, status, run), asset, title) == OpenGaps(alerts, asset, title)
  {
    var after := AlertsAfter(alerts, x, status, run);
    if |after| == |alerts| {
      SameOpen(alerts, after, asset, title);
    } else {
      assert after[..|alerts|] == alerts;
    }
  }

  /** Open alerts nobody assessed in this run are as they were. */
  lemma {:induction false} UntouchedAlerts(env: Env, s: Audit, items: seq<Item>, asset: nat, title: Title)
    requires forall k :: 0 <= k < |items| && Matched(env, items[k]) ==>
               items[k].asset.id != asset || TitleOf(items[k]) != title
    ensures OpenGaps(Steps(env, s, items).alerts, asset, title) == OpenGaps(s.alerts, asset, title)
  {
    if items != [] {
      var last := |items| - 1;
      UntouchedAlerts(env, s, items[..last], asset, title);
      var x := items[last];
      if Matched(env, x) {
        AlertsAfterOther(Steps(env, s, items[..last]).alerts, x, Assess(env, x.control, x.asset).status, env.run, asset, title);
      }
    }
  }

  lemma {:induction false} AlertsOfItem(env: Env, s: Audit, items: seq<Item>, k: nat)
    requires DistinctKeys(items) && k < |items| && Matched(env, items[k])
    ensures var x := items[k];
            OpenGaps(Steps(env, s, items).alerts, x.asset.id, TitleOf(x))
              == Settled(Assess(env, x.control, x.asset).status, Important(x.asset),
                         OpenGaps(s.alerts, x.asset.id, TitleOf(x)))
  {
    var last := |items| - 1;
    var before, x, y := items[..last], items[k], items[last];
    var mid := Steps(env, s, before);
    if k < last {
      AlertsOfItem(env, s, before, k);
      assert KeyOf(items[k]) != KeyOf(items[last]);
      if Matched(env, y) {
        AlertsAfterOther(mid.alerts, y, Assess(env, y.control, y.asset).status, env.run, x.asset.id, TitleOf(x));
      }
    } else {
      forall j | 0 <= j < last && Matched(env, before[j])
        ensures before[j].asset.id != x.asset.id || TitleOf(before[j]) != TitleOf(x)
      {
        assert KeyOf(items[j]) != KeyOf(items[k]);
      }
      UntouchedAlerts(env, s, before, x.asset.id, TitleOf(x));
      AlertsAfterOwn(mid.alerts, x, Assess(env, x.control, x.asset).status, env.run);
    }
  }

  ghost predicate AtMostOneOpen(alerts: seq<Alert>) {
    forall asset, title :: OpenGaps(alerts, asset, title) <= 1
  }

  /**
    Main result on alerts: a run leaves no open gap alert for a compliant pair, exactly one for
    a non-compliant pair on an important asset if there was at most one, and touches no others.
   */
  lemma AlertsFollowResults(env: Env, t: Tables, assets: seq<Asset>, frameworks: seq<Framework>)
    requires GoodInput(assets, frameworks)
    ensures var s := RunAudit(env, t, assets, frameworks);
            && (forall x :: x in Items(assets, frameworks) && Matched(env, x) ==>
                  OpenGaps(s.alerts, x.asset.id, TitleOf(x))
                    == Settled(Assess(env, x.control, x.asset).status, Important(x.asset),
                               OpenGaps(t.alerts, x.asset.id, TitleOf(x))))
            && (AtMostOneOpen(t.alerts) ==> AtMostOneOpen(s.alerts))
  {
    var items := Items(assets, frameworks);
    var s := RunAudit(env, t, assets, frameworks);
    ItemsDistinct(assets, frameworks);
    forall x | x in items && Matched(env, x)
      ensures OpenGaps(s.alerts, x.asset.id, TitleOf(x))
           == Settled(Assess(env, x.control, x.asset).status, Important(x.asset), OpenGaps(t.alerts, x.asset.id, TitleOf(x)))
    {
      var k :| 0 <= k < |items| && items[k] == x;
      AlertsOfItem(env, Begin(t), items, k);
    }
    if AtMostOneOpen(t.alerts) {
      forall asset, title
        ensures OpenGaps(s.alerts, asset, title) <= 1
      {
        if k :| 0 <= k < |items| && Matched(env, items[k]) && items[k].asset.id == asset && TitleOf(items[k]) == title {
          AlertsOfItem(env, Begin(t), items, k);
        } else {
          UntouchedAlerts(env, Begin(t), items, asset, title);
        }
      }
    }
  }

  // ---------- a second run ----------

  /** No alert was added, opened or resolved; only the details of open ones may differ. */
  ghost predicate Quiet(before: seq<Alert>, after: seq<Alert>) {
    |after| == |before| &&
    forall i :: 0 <= i < |before| ==> after[i] == before[i].(status := after[i].status, run := after[i].run)
  }

  /** The alerts already say what the assessment of `x` asks for. */
  predicate UpToDate(env: Env, alerts: seq<Alert>, x: Item) {
    var n := OpenGaps(alerts, x.asset.id, TitleOf(x));
    Settled(Assess(env, x.control, x.asset).status, Important(x.asset), n) == n
  }

  lemma QuietStep(env: Env, alerts: seq<Alert>, x: Item)
    requires UpToDate(env, alerts, x)
    ensures Quiet(alerts, AlertsAfter(alerts, x, Assess(env, x.control, x.asset).status, env.run))
  {
    NoneOpen(alerts, x.asset.id, TitleOf(x));
  }

  lemma QuietCounts(before: seq<Alert>, after: seq<Alert>, asset: nat, title: Title)
    requires Quiet(before, after)
    ensures OpenGaps(after, asset, title) == OpenGaps(before, asset, title)
  {
    SameOpen(before, after, asset, title);
  }

  lemma {:induction false} QuietSteps(env: Env, s: Audit, items: seq<Item>)
    requires forall k :: 0 <= k < |items| && Matched(env, items[k]) ==> UpToDate(env, s.alerts, items[k])
    ensures Quiet(s.alerts, Steps(env, s, items).alerts)
  {
    if items != [] {
      var last := |items| - 1;
      QuietSteps(env, s, items[..last]);
      var mid := Steps(env, s, items[..last]);
      if Matched(env, items[last]) {
        QuietCounts(s.alerts, mid.alerts, items[last].asset.id, TitleOf(items[last]));
        QuietStep(env, mid.alerts, items[last]);
      }
    }
  }

  /** Main result: a second run on unchanged assets adds and resolves no alert. */
  lemma SecondRunIsQuiet(env: Env, t: Tables, assets: seq<Asset>, frameworks: seq<Framework>, run: nat)
    requires GoodInput(assets, frameworks)
    ensures var first := RunAudit(env, t, assets, frameworks);
            var second := RunAudit(env.(run := run), End(first), assets, frameworks);
            Quiet(first.alerts, second.alerts)
  {
    var first := RunAudit(env, t, assets, frameworks);
    var items := Items(assets, frameworks);
    var again := env.(run := run);
    AlertsFollowResults(env, t, assets, frameworks);
    forall k | 0 <= k < |items| && Matched(again, items[k])
      ensures UpToDate(again, first.alerts, items[k])
    {
      assert items[k] in items && Matched(env, items[k]);
      assert Assess(again, items[k].control, items[k].asset) == Assess(env, items[k].control, items[k].asset);
    }
    QuietSteps(again, Begin(End(first)), items);
  }
}
