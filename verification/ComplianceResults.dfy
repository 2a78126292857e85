/**
  What an audit writes down, read off the assets, the rules and the stored rows: which pairs
  have a result, what each result says, and what that does to mappings and alerts.
 */
module ComplianceResults {
  import opened ComplianceRules
  import opened ComplianceTheorems
  import opened ComplianceProjection
  import opened Options
  import opened Texts

  // ---------- what a result must say ----------

  /** Nothing was observed: no value, a blank text or an empty collection. */
  ghost predicate Missing(a: Asset, field: string) {
    field in a.observed ==>
      || a.observed[field] == Nothing
      || a.observed[field] == Collection(0)
      || (a.observed[field].Text? && forall ch :: ch in a.observed[field].text ==> IsSpace(ch))
  }

  ghost function SeenFields(fields: set<string>, a: Asset): set<string> {
    set f | f in fields && !Missing(a, f)
  }

  /** `q` hundredths are nearest to n / d, an even number of them when two are equally near. */
  predicate Nearest(q: int, n: int, d: int) {
    && -d <= 200 * n - 2 * q * d <= d
    && (200 * n - 2 * q * d == d || 200 * n - 2 * q * d == -d ==> q % 2 == 0)
  }

  /** The status and score a pair deserves, from the verdict of its check and the evidence fields observed. */
  ghost predicate Deserves(verdict: Verdict, fields: set<string>, a: Asset, status: Status, score: nat) {
    var total, seen := |fields|, |SeenFields(fields, a)|;
    match status
    case Compliant => verdict == Holds && score == 100
    case Partial => verdict != Holds && 2 <= total && 0 < seen < total && Nearest(score, seen, total)
    case Gap => verdict != Holds && (total < 2 || seen == 0 || seen == total) && score == 0
    case _ => false
  }

  /** A control of one of the frameworks. */
  ghost predicate Offered(frameworks: seq<Framework>, c: Control) {
    exists j :: 0 <= j < |frameworks| && frameworks[j].code == c.framework && c.id in frameworks[j].controls
  }

  /** A result row of this run, about an asset and an offered control the catalog has. */
  ghost predicate ResultOf(env: Env, frameworks: seq<Framework>, a: Asset, r: Result) {
    && Offered(frameworks, r.control) && r.control in env.catalog
    && r.run == env.run && r.version == env.catalog[r.control] && r.asset == a.id
    && Deserves(env.check(r.control, a), if r.control in env.fields then env.fields[r.control] else {}, a, r.status, r.score)
  }

  // ---------- rounding ----------

  lemma HundredthsAreNearest(n: nat, d: nat)
    requires d > 0
    ensures Nearest(Hundredths(n, d), n, d)
  {
    var twice := 200 * n;
    var q, r := twice / (2 * d), twice % (2 * d);
    assert twice == 2 * d * q + r;
    Doubled(q, d);
  }

  lemma Doubled(q: int, d: int)
    ensures 2 * d * q == 2 * q * d && 2 * (q + 1) * d == 2 * q * d + 2 * d
  {}

  /** Both summaries show the nearest percentage, in hundredths, of compliant among applicable results. */
  lemma PercentagesAreNearest(m: Counts)
    ensures var applicable := Total(m) - Count(m, NotApplicable);
            if applicable > 0 then Nearest(FrameworkSummary(m).percentage, 100 * Count(m, Compliant), applicable)
            else FrameworkSummary(m).percentage == 0
    ensures var applicable := Finalized(m).total - Count(m, NotApplicable);
            if applicable > 0 then Nearest(Finalized(m).percentage, 100 * Count(m, Compliant), applicable)
            else Finalized(m).percentage == 0
  {
    var applicable, rest := Total(m) - Count(m, NotApplicable), Finalized(m).total - Count(m, NotApplicable);
    if applicable > 0 { HundredthsAreNearest(100 * Count(m, Compliant), applicable); }
    if rest > 0 { HundredthsAreNearest(100 * Count(m, Compliant), rest); }
  }

  // ---------- one assessment ----------

  lemma MissingIsUnobserved(a: Asset, field: string)
    ensures Missing(a, field) <==> !HasObservation(Observed(a, field))
  {}

  lemma SeenAreObserved(env: Env, c: Control, a: Asset)
    ensures SeenFields(FieldsOf(env, c), a) == PresentFields(env, c, a)
  {
    forall f | f in FieldsOf(env, c)
      ensures f in SeenFields(FieldsOf(env, c), a) <==> f in PresentFields(env, c, a)
    {
      MissingIsUnobserved(a, f);
    }
  }

  lemma AssessmentIsDeserved(env: Env, c: Control, a: Asset)
    ensures var s := Assess(env, c, a); Deserves(env.check(c, a), FieldsOf(env, c), a, s.status, s.score)
  {
    SeenAreObserved(env, c, a);
    var total, present := |FieldsOf(env, c)|, |PresentFields(env, c, a)|;
    Subset(PresentFields(env, c, a), FieldsOf(env, c));
    if 0 < total { HundredthsAreNearest(present, total); }
  }

  lemma Subset(s: set<string>, t: set<string>)
    requires s <= t
    ensures |s| <= |t|
  {
    if s != {} {
      var x :| x in s;
      Subset(s - {x}, t - {x});
    }
  }

  // ---------- the pairs ----------

  lemma {:induction false} FrameworkItemsExactly(a: Asset, frameworks: seq<Framework>, x: Item)
    ensures x in FrameworkItems(a, frameworks) <==> x.asset == a && Offered(frameworks, x.control)
  {
    if frameworks != [] {
      var last := |frameworks| - 1;
      var f, rest := frameworks[last], frameworks[..last];
      FrameworkItemsExactly(a, rest, x);
      ControlItemsAre(a, f.code, f.controls);
      OfferedNext(frameworks, x.control);
      var own := ControlItems(a, f.code, f.controls);
      if x.asset == a && f.code == x.control.framework && x.control.id in f.controls {
        var k :| 0 <= k < |f.controls| && f.controls[k] == x.control.id;
        assert own[k] == x;
      }
    }
  }

  lemma OfferedNext(frameworks: seq<Framework>, c: Control)
    requires frameworks != []
    ensures var last := |frameworks| - 1;
            Offered(frameworks, c) <==>
              Offered(frameworks[..last], c) || (frameworks[last].code == c.framework && c.id in frameworks[last].controls)
  {
    var last := |frameworks| - 1;
    var rest := frameworks[..last];
    if j :| 0 <= j < |rest| && rest[j].code == c.framework && c.id in rest[j].controls {
      assert frameworks[j] == rest[j];
    }
    if j :| 0 <= j < last && frameworks[j].code == c.framework && c.id in frameworks[j].controls {
      assert rest[j] == frameworks[j];
    }
  }

  lemma ItemsNext(assets: seq<Asset>, frameworks: seq<Framework>, x: Item)
    requires assets != []
    ensures var last := |assets| - 1;
            x in Items(assets, frameworks) <==> x in Items(assets[..last], frameworks) || x in FrameworkItems(assets[last], frameworks)
  {}

  /** The loops visit exactly the assets and the controls the frameworks offer. */
  lemma {:induction false} ItemsExactly(assets: seq<Asset>, frameworks: seq<Framework>, x: Item)
    ensures x in Items(assets, frameworks) <==> x.asset in assets && Offered(frameworks, x.control)
  {
    if assets != [] {
      var last := |assets| - 1;
      ItemsExactly(assets[..last], frameworks, x);
      FrameworkItemsExactly(assets[last], frameworks, x);
      ItemsNext(assets, frameworks, x);
      assert x.asset in assets <==> x.asset in assets[..last] || x.asset == assets[last];
    }
  }

  // ---------- results ----------

  /** The result an item brings. */
  function ResultFor(env: Env, x: Item): Result
    requires Matched(env, x)
  {
    var a := Assess(env, x.control, x.asset);
    Result(env.run, x.control, env.catalog[x.control], x.asset.id, a.status, a.score)
  }

  lemma {:induction false} AddedResult(env: Env, t: Tables, items: seq<Item>, k: nat) returns (i: nat)
    requires |t.results| <= k < |Steps(env, Begin(t), items).results|
    ensures i < |items| && Matched(env, items[i]) && Steps(env, Begin(t), items).results[k] == ResultFor(env, items[i])
  {
    var last := |items| - 1;
    var s := Steps(env, Begin(t), items[..last]);
    StepAdds(env, s, items[last]);
    if k < |s.results| {
      i := AddedResult(env, t, items[..last], k);
    } else {
      i := last;
    }
  }

  lemma {:induction false} ResultOfItem(env: Env, t: Tables, items: seq<Item>, i: nat) returns (k: nat)
    requires i < |items| && Matched(env, items[i])
    ensures |t.results| <= k < |Steps(env, Begin(t), items).results|
    ensures Steps(env, Begin(t), items).results[k] == ResultFor(env, items[i])
  {
    var last := |items| - 1;
    var s := Steps(env, Begin(t), items[..last]);
    StepsConserve(env, t, items[..last]);
    StepAdds(env, s, items[last]);
    if i < last {
      k := ResultOfItem(env, t, items[..last], i);
    } else {
      k := |s.results|;
    }
  }

  lemma ResultForIsResultOf(env: Env, assets: seq<Asset>, frameworks: seq<Framework>, x: Item)
    requires x in Items(assets, frameworks) && Matched(env, x)
    ensures x.asset in assets && ResultOf(env, frameworks, x.asset, ResultFor(env, x))
  {
    ItemsExactly(assets, frameworks, x);
    AssessmentIsDeserved(env, x.control, x.asset);
  }

  /** The row is about one of the assets and says what that asset deserves. */
  ghost predicate IsDeserved(env: Env, assets: seq<Asset>, frameworks: seq<Framework>, r: Result) {
    exists a :: a in assets && ResultOf(env, frameworks, a, r)
  }

  /** Main result on results: every row a run adds is about one of the assets and says what that asset deserves. */
  lemma AddedResultsAreDeserved(env: Env, t: Tables, assets: seq<Asset>, frameworks: seq<Framework>, k: nat)
    requires |t.results| <= k < |RunAudit(env, t, assets, frameworks).results|
    ensures IsDeserved(env, assets, frameworks, RunAudit(env, t, assets, frameworks).results[k])
  {
    var items := Items(assets, frameworks);
    var i := AddedResult(env, t, items, k);
    ResultForIsResultOf(env, assets, frameworks, items[i]);
  }

  /** So is each from this row on. */
  ghost predicate AllDeserved(env: Env, from: nat, assets: seq<Asset>, frameworks: seq<Framework>, results: seq<Result>) {
    forall k :: from <= k < |results| ==> IsDeserved(env, assets, frameworks, results[k])
  }

  lemma AllResultsAreDeserved(env: Env, t: Tables, assets: seq<Asset>, frameworks: seq<Framework>)
    ensures AllDeserved(env, |t.results|, assets, frameworks, RunAudit(env, t, assets, frameworks).results)
  {
    forall k: nat | |t.results| <= k < |RunAudit(env, t, assets, frameworks).results|
      ensures IsDeserved(env, assets, frameworks, RunAudit(env, t, assets, frameworks).results[k])
    {
      AddedResultsAreDeserved(env, t, assets, frameworks, k);
    }
  }

  /** And every asset has such a row for every offered control the catalog has. */
  lemma EveryPairHasItsResult(env: Env, t: Tables, assets: seq<Asset>, frameworks: seq<Framework>, a: Asset, c: Control) returns (k: nat)
    requires a in assets && Offered(frameworks, c) && c in env.catalog
    ensures |t.results| <= k < |RunAudit(env, t, assets, frameworks).results|
    ensures var r := RunAudit(env, t, assets, frameworks).results[k]; r.control == c && ResultOf(env, frameworks, a, r)
  {
    var items := Items(assets, frameworks);
    ItemsExactly(assets, frameworks, Item(a, c));
    var i: nat :| i < |items| && items[i] == Item(a, c);
    k := ResultOfItem(env, t, items, i);
    ResultForIsResultOf(env, assets, frameworks, items[i]);
  }

  /** No pair has two. */
  lemma {:induction false} AddedKeysDiffer(env: Env, t: Tables, items: seq<Item>, j: nat, k: nat)
    requires DistinctKeys(items) && |t.results| <= j < k < |Steps(env, Begin(t), items).results|
    ensures var rs := Steps(env, Begin(t), items).results; rs[j].control != rs[k].control || rs[j].asset != rs[k].asset
  {
    var last := |items| - 1;
    var before := items[..last];
    var s := Steps(env, Begin(t), before);
    StepAdds(env, s, items[last]);
    if k < |s.results| {
      AddedKeysDiffer(env, t, before, j, k);
    } else {
      var i := AddedResult(env, t, before, j);
      assert KeyOf(items[i]) != KeyOf(items[last]);
    }
  }

  lemma AddedResultsAreDistinct(env: Env, t: Tables, assets: seq<Asset>, frameworks: seq<Framework>, j: nat, k: nat)
    requires GoodInput(assets, frameworks)
    requires |t.results| <= j < k < |RunAudit(env, t, assets, frameworks).results|
    ensures var rs := RunAudit(env, t, assets, frameworks).results; rs[j].control != rs[k].control || rs[j].asset != rs[k].asset
  {
    ItemsDistinct(assets, frameworks);
    AddedKeysDiffer(env, t, Items(assets, frameworks), j, k);
  }

  // ---------- mappings ----------

  /** The row a key leads to points at a result of this pair with the same status. */
  ghost predicate PointsAtResult(env: Env, from: nat, s: Audit, x: Item) {
    var row := RowOf(s.projection, KeyOf(x));
    && row.Some? && row.value.key == KeyOf(x) && row.value.run == env.run
    && from <= row.value.result < |s.results|
    && var r := s.results[row.value.result];
       r.control == x.control && r.asset == x.asset.id && r.status == row.value.status
  }

  lemma {:induction false} MappingPointsAtResult(env: Env, t: Tables, items: seq<Item>, k: nat)
    requires DistinctKeys(items) && k < |items| && Matched(env, items[k])
    ensures PointsAtResult(env, |t.results|, Steps(env, Begin(t), items), items[k])
  {
    var last := |items| - 1;
    var s := Steps(env, Begin(t), items[..last]);
    StepsIndexed(env, t, items[..last]);
    StepsConserve(env, t, items[..last]);
    StepRow(env, s, items[last], KeyOf(items[k]));
    StepAdds(env, s, items[last]);
    if k < last {
      MappingPointsAtResult(env, t, items[..last], k);
      assert KeyOf(items[k]) != KeyOf(items[last]);
    }
  }

  /** Main result on mappings: the mapping of each pair is this run's and repeats the status of the result row it points at. */
  lemma MappingsRepeatResults(env: Env, t: Tables, assets: seq<Asset>, frameworks: seq<Framework>, a: Asset, c: Control) returns (i: nat)
    requires GoodInput(assets, frameworks) && a in assets && Offered(frameworks, c) && c in env.catalog
    ensures var s := RunAudit(env, t, assets, frameworks);
            && i < |s.projection.rows|
            && var m := s.projection.rows[i];
               && m.key == Key(c, a.id) && m.run == env.run && |t.results| <= m.result < |s.results|
               && s.results[m.result].status == m.status
               && s.results[m.result].control == c && s.results[m.result].asset == a.id
  {
    var items, x := Items(assets, frameworks), Item(a, c);
    ItemsExactly(assets, frameworks, x);
    ItemsDistinct(assets, frameworks);
    var k: nat :| k < |items| && items[k] == x;
    MappingPointsAtResult(env, t, items, k);
    i := Steps(env, Begin(t), items).projection.byKey[KeyOf(x)];
  }

  // ---------- alerts ----------

  /** The open gap alerts of one asset under one title. */
  ghost function OpenAt(alerts: seq<Alert>, asset: nat, title: Title): set<nat> {
    set i: nat | i < |alerts| && alerts[i].gap && alerts[i].open && alerts[i].asset == asset && alerts[i].title == title
  }

  lemma {:induction false} OpenAtCounts(alerts: seq<Alert>, asset: nat, title: Title)
    ensures |OpenAt(alerts, asset, title)| == OpenGaps(alerts, asset, title)
  {
    if alerts == [] {
      assert OpenAt(alerts, asset, title) == {};
    } else {
      var last := |alerts| - 1;
      OpenAtCounts(alerts[..last], asset, title);
      OpenAtNext(alerts, asset, title);
    }
  }

  lemma OpenAtNext(alerts: seq<Alert>, asset: nat, title: Title)
    requires alerts != []
    ensures var last := |alerts| - 1;
            |OpenAt(alerts, asset, title)|
              == |OpenAt(alerts[..last], asset, title)| + (if OpenGap(alerts[last], asset, title) then 1 else 0)
  {
    var last := |alerts| - 1;
    var before := OpenAt(alerts[..last], asset, title);
    assert OpenAt(alerts, asset, title) == if OpenGap(alerts[last], asset, title) then before + {last} else before;
  }

  /**
    Main result on alerts: a pair whose check holds ends with no open gap alert; one on an
    important asset whose check does not hold ends with those it had, or with one; any other
    keeps what it had.
   */
  lemma AlertsFollowChecks(env: Env, t: Tables, assets: seq<Asset>, frameworks: seq<Framework>, a: Asset, c: Control)
    requires GoodInput(assets, frameworks) && a in assets && Offered(frameworks, c) && c in env.catalog
    ensures var was := |OpenAt(t.alerts, a.id, Title(c, a.name))|;
            var now := |OpenAt(RunAudit(env, t, assets, frameworks).alerts, a.id, Title(c, a.name))|;
            if env.check(c, a) == Holds then now == 0
            else if a.criticality in ["critical", "tier-1", "high"] then now == (if was == 0 then 1 else was)
            else now == was
  {
    var x := Item(a, c);
    ItemsExactly(assets, frameworks, x);
    AlertsFollowResults(env, t, assets, frameworks);
    OpenAtCounts(t.alerts, a.id, TitleOf(x));
    OpenAtCounts(RunAudit(env, t, assets, frameworks).alerts, a.id, TitleOf(x));
    AssessmentIsDeserved(env, c, a);
  }

  /** A pair of the run that closes this alert. */
  ghost predicate ClosedBy(env: Env, items: seq<Item>, alert: Alert) {
    exists k :: 0 <= k < |items| && Closes(env, items[k], alert)
  }

  predicate Closes(env: Env, x: Item, alert: Alert) {
    && x.control in env.catalog && env.check(x.control, x.asset) == Holds
    && alert.gap && alert.asset == x.asset.id && alert.title == Title(x.control, x.asset.name)
  }

  lemma OneItemAndOldAlert(env: Env, s: Audit, x: Item, i: nat)
    requires i < |s.alerts|
    ensures var u := Step(env, s, x).alerts;
            && i < |u| && u[i] == s.alerts[i].(open := u[i].open, status := u[i].status, run := u[i].run)
            && (u[i].open <==> s.alerts[i].open && !Closes(env, x, s.alerts[i]))
  {
    AssessmentIsDeserved(env, x.control, x.asset);
  }

  lemma {:induction false} OldAlerts(env: Env, s: Audit, items: seq<Item>, i: nat)
    requires i < |s.alerts|
    ensures var u := Steps(env, s, items).alerts;
            && i < |u| && u[i] == s.alerts[i].(open := u[i].open, status := u[i].status, run := u[i].run)
            && (u[i].open <==> s.alerts[i].open && !ClosedBy(env, items, s.alerts[i]))
  {
    if items != [] {
      var last := |items| - 1;
      OldAlerts(env, s, items[..last], i);
      OneItemAndOldAlert(env, Steps(env, s, items[..last]), items[last], i);
      ClosedByNext(env, items, s.alerts[i], Steps(env, s, items[..last]).alerts[i]);
    }
  }

  lemma ClosedByNext(env: Env, items: seq<Item>, alert: Alert, later: Alert)
    requires items != [] && later == alert.(open := later.open, status := later.status, run := later.run)
    ensures var last := |items| - 1;
            ClosedBy(env, items, alert) <==> ClosedBy(env, items[..last], alert) || Closes(env, items[last], later)
  {
    var last := |items| - 1;
    assert Closes(env, items[last], alert) == Closes(env, items[last], later);
    assert forall k :: 0 <= k < last ==> items[..last][k] == items[k];
    if k :| 0 <= k < last && Closes(env, items[..last][k], alert) { assert Closes(env, items[k], alert); }
    if k :| 0 <= k < last && Closes(env, items[k], alert) { assert Closes(env, items[..last][k], alert); }
  }

  /** An alert that was there keeps its identity, and a run closes it exactly when the check of its own pair holds. */
  lemma OldAlertsCloseExactly(env: Env, t: Tables, assets: seq<Asset>, frameworks: seq<Framework>, i: nat)
    requires i < |t.alerts|
    ensures var u := RunAudit(env, t, assets, frameworks).alerts;
            && i < |u| && u[i].gap == t.alerts[i].gap && u[i].asset == t.alerts[i].asset && u[i].title == t.alerts[i].title
            && (u[i].open <==> && t.alerts[i].open
                               && !exists a, c :: && a in assets && Offered(frameworks, c) && Closes(env, Item(a, c), t.alerts[i]))
  {
    var items := Items(assets, frameworks);
    OldAlerts(env, Begin(t), items, i);
    if k :| 0 <= k < |items| && Closes(env, items[k], t.alerts[i]) {
      ItemsExactly(assets, frameworks, items[k]);
      assert items[k] == Item(items[k].asset, items[k].control);
    }
    if a, c :| a in assets && Offered(frameworks, c) && Closes(env, Item(a, c), t.alerts[i]) {
      ItemsExactly(assets, frameworks, Item(a, c));
      var k :| 0 <= k < |items| && items[k] == Item(a, c);
      assert Closes(env, items[k], t.alerts[i]);
    }
  }

  /** The first open gap alert of the pair tells of this run's assessment. */
  ghost predicate Told(env: Env, alerts: seq<Alert>, x: Item) {
    exists i :: FirstOfPair(alerts, x, i)
      && alerts[i].run == env.run && alerts[i].status == Assess(env, x.control, x.asset).status
  }

  predicate FirstOfPair(alerts: seq<Alert>, x: Item, i: int) {
    && 0 <= i < |alerts| && OpenGap(alerts[i], x.asset.id, TitleOf(x))
    && forall j :: 0 <= j < i ==> !OpenGap(alerts[j], x.asset.id, TitleOf(x))
  }

  lemma OwnStepTells(env: Env, s: Audit, x: Item)
    requires Matched(env, x) && env.check(x.control, x.asset) != Holds && Important(x.asset)
    ensures Told(env, Step(env, s, x).alerts, x)
  {
    AssessmentIsDeserved(env, x.control, x.asset);
    var i := FirstOpen(s.alerts, x.asset.id, TitleOf(x));
    assert FirstOfPair(Step(env, s, x).alerts, x, i);
  }

  lemma OtherStepKeepsTelling(env: Env, s: Audit, x: Item, y: Item)
    requires KeyOf(x) != KeyOf(y) && Told(env, s.alerts, x)
    ensures Told(env, Step(env, s, y).alerts, x)
  {
    var u := Step(env, s, y).alerts;
    var i :| FirstOfPair(s.alerts, x, i) && s.alerts[i].run == env.run && s.alerts[i].status == Assess(env, x.control, x.asset).status;
    forall j | 0 <= j <= i
      ensures OpenGap(u[j], x.asset.id, TitleOf(x)) == OpenGap(s.alerts[j], x.asset.id, TitleOf(x))
      ensures OpenGap(s.alerts[j], x.asset.id, TitleOf(x)) ==> u[j] == s.alerts[j]
    {}
    assert FirstOfPair(u, x, i);
  }

  lemma {:induction false} ItemIsTold(env: Env, s: Audit, items: seq<Item>, k: nat)
    requires DistinctKeys(items) && k < |items| && Matched(env, items[k])
    requires env.check(items[k].control, items[k].asset) != Holds && Important(items[k].asset)
    ensures Told(env, Steps(env, s, items).alerts, items[k])
  {
    var last := |items| - 1;
    if k == last {
      OwnStepTells(env, Steps(env, s, items[..last]), items[last]);
    } else {
      ItemIsTold(env, s, items[..last], k);
      assert KeyOf(items[k]) != KeyOf(items[last]);
      OtherStepKeepsTelling(env, Steps(env, s, items[..last]), items[k], items[last]);
    }
  }

  /** An important asset that fails a check has an open gap alert, whose first one names this run and the deserved status. */
  lemma AlertsTellOfTheRun(env: Env, t: Tables, assets: seq<Asset>, frameworks: seq<Framework>, a: Asset, c: Control) returns (i: nat, score: nat)
    requires GoodInput(assets, frameworks) && a in assets && Offered(frameworks, c) && c in env.catalog
    requires env.check(c, a) != Holds && a.criticality in ["critical", "tier-1", "high"]
    ensures var u := RunAudit(env, t, assets, frameworks).alerts;
            && i in OpenAt(u, a.id, Title(c, a.name)) && (forall j :: j in OpenAt(u, a.id, Title(c, a.name)) ==> i <= j)
            && u[i].run == env.run && Deserves(env.check(c, a), if c in env.fields then env.fields[c] else {}, a, u[i].status, score)
  {
    var items, x := Items(assets, frameworks), Item(a, c);
    ItemsExactly(assets, frameworks, x);
    ItemsDistinct(assets, frameworks);
    var k: nat :| k < |items| && items[k] == x;
    ItemIsTold(env, Begin(t), items, k);
    var u := Steps(env, Begin(t), items).alerts;
    i :| FirstOfPair(u, x, i) && u[i].run == env.run && u[i].status == Assess(env, c, a).status;
    score := Assess(env, c, a).score;
    AssessmentIsDeserved(env, c, a);
  }
}
