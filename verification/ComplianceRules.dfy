/**
  The compliance audit: how one control is assessed on one asset, and what one assessed pair
  does to the counters, the result and evidence tables, the mapping projection and the alerts.
 */
module ComplianceRules {

  import opened Texts

  datatype Status =
    | Compliant | Partial | Gap | Exception | NotAssessed | NotApplicable | Na | Unknown

  const STATUSES: seq<Status> :=
    [Compliant, Partial, Gap, Exception, NotAssessed, NotApplicable, Na, Unknown]

  datatype Observation = Nothing | Text(text: string) | Collection(size: nat) | Scalar

  datatype Asset = Asset(id: nat, name: string, criticality: string, observed: map<string, Observation>)

  /** The outcome of a rule's check; a check that raises counts as failed. */
  datatype Verdict = Holds | Fails | Raises

  /** Which pair of framework and control. */
  datatype Control = Control(framework: string, id: string)

  datatype Framework = Framework(code: string, controls: seq<string>)

  /**
    What a run works with: its id, the active catalog controls the database has (with their
    catalog version), and the rules, each a set of evidence fields and a check.
   */
  datatype Env = Env(
    run: nat,
    catalog: map<Control, string>,
    fields: map<Control, set<string>>,
    check: (Control, Asset) -> Verdict)

  // ---------- one assessment ----------

  predicate HasObservation(o: Observation) {
    match o
    case Nothing => false
    case Text(t) => exists i :: 0 <= i < |t| && !IsSpace(t[i])
    case Collection(n) => n > 0
    case Scalar => true
  }

  function Observed(a: Asset, field: string): Observation {
    if field in a.observed then a.observed[field] else Nothing
  }

  function FieldsOf(env: Env, c: Control): set<string> {
    if c in env.fields then env.fields[c] else {}
  }

  function PresentFields(env: Env, c: Control, a: Asset): set<string> {
    set f | f in FieldsOf(env, c) && HasObservation(Observed(a, f))
  }

  /** n / d in hundredths, rounded half to even. */
  function Hundredths(n: nat, d: nat): nat
    requires d > 0
  {
    var twice := 200 * n;
    var q, r := twice / (2 * d), twice % (2 * d);
    if r < d || (r == d && q % 2 == 0) then q else q + 1
  }

  datatype Assessment = Assessment(status: Status, score: nat)

  function Assess(env: Env, c: Control, a: Asset): (s: Assessment)
    ensures s.status.Compliant? || s.status.Partial? || s.status.Gap?
  {
    var total, present := |FieldsOf(env, c)|, |PresentFields(env, c, a)|;
    if env.check(c, a).Holds? then Assessment(Compliant, 100)
    else if total > 1 && 0 < present < total then Assessment(Partial, Hundredths(present, total))
    else Assessment(Gap, 0)
  }

  // ---------- the tables ----------

  datatype Result = Result(run: nat, control: Control, version: string, asset: nat, status: Status, score: nat)

  datatype Evidence = Evidence(control: Control, asset: nat)

  /** Ties a result to the evidence behind it. */
  datatype Support = Support(result: nat, evidence: nat)

  datatype Key = Key(control: Control, asset: nat)

  datatype Mapping = Mapping(key: Key, status: Status, run: nat, result: nat)

  datatype Title = Title(control: Control, assetName: string)

  datatype Alert = Alert(gap: bool, asset: nat, title: Title, open: bool, status: Status, run: nat)

  type Counts = map<Status, nat>

  function Count(m: Counts, s: Status): nat { if s in m then m[s] else 0 }

  function Bump(m: Counts, s: Status): Counts { m[s := Count(m, s) + 1] }

  function Of(m: map<string, Counts>, framework: string): Counts {
    if framework in m then m[framework] else map[]
  }

  /** The mapping table with the dictionary that remembers where each key's row sits. */
  datatype Projection = Projection(rows: seq<Mapping>, byKey: map<Key, nat>)

  /** Everything a run changes. */
  datatype Audit = Audit(
    results: seq<Result>,
    evidence: seq<Evidence>,
    supports: seq<Support>,
    projection: Projection,
    alerts: seq<Alert>,
    statusCounts: Counts,
    frameworkCounts: map<string, Counts>,
    noncompliant: nat,
    evidenceCount: nat)

  datatype Item = Item(asset: Asset, control: Control)

  function KeyOf(x: Item): Key { Key(x.control, x.asset.id) }

  function TitleOf(x: Item): Title { Title(x.control, x.asset.name) }

  // ---------- alerts ----------

  predicate OpenGap(a: Alert, asset: nat, title: Title) {
    a.gap && a.asset == asset && a.title == title && a.open
  }

  function OpenGaps(alerts: seq<Alert>, asset: nat, title: Title): nat {
    if alerts == [] then 0
    else
      var last := |alerts| - 1;
      OpenGaps(alerts[..last], asset, title) + (if OpenGap(alerts[last], asset, title) then 1 else 0)
  }

  function Resolved(alerts: seq<Alert>, asset: nat, title: Title): (r: seq<Alert>)
    ensures |r| == |alerts|
    ensures forall i :: 0 <= i < |r| ==>
              r[i] == if OpenGap(alerts[i], asset, title) then alerts[i].(open := false) else alerts[i]
  {
    seq(|alerts|, i requires 0 <= i < |alerts| =>
      if OpenGap(alerts[i], asset, title) then alerts[i].(open := false) else alerts[i])
  }

  /** Position of the first open alert, if any. */
  function FirstOpen(alerts: seq<Alert>, asset: nat, title: Title): (i: nat)
    ensures i <= |alerts|
    ensures i < |alerts| ==> OpenGap(alerts[i], asset, title)
    ensures forall k :: 0 <= k < i ==> !OpenGap(alerts[k], asset, title)
  {
    if alerts == [] then 0
    else
      var last := |alerts| - 1;
      var i := FirstOpen(alerts[..last], asset, title);
      assert forall k :: 0 <= k < last ==> alerts[..last][k] == alerts[k];
      if i < last then i else if OpenGap(alerts[last], asset, title) then last else |alerts|
  }

  predicate Important(a: Asset) { a.criticality in ["critical", "tier-1", "high"] }

  function AlertsAfter(alerts: seq<Alert>, x: Item, status: Status, run: nat): seq<Alert> {
    if status.Compliant? then Resolved(alerts, x.asset.id, TitleOf(x))
    else if !Important(x.asset) then alerts
    else
      var i := FirstOpen(alerts, x.asset.id, TitleOf(x));
      if i < |alerts| then alerts[i := alerts[i].(status := status, run := run)]
      else alerts + [Alert(true, x.asset.id, TitleOf(x), true, status, run)]
  }

  // ---------- mappings ----------

  /** A known key's row is rewritten, a new key gets a row. */
  function Project(p: Projection, m: Mapping): Projection {
    if m.key in p.byKey && p.byKey[m.key] < |p.rows| then p.(rows := p.rows[p.byKey[m.key] := m])
    else Projection(p.rows + [m], p.byKey[m.key := |p.rows|])
  }

  // ---------- one assessed pair ----------

  /** A control the catalog does not have is skipped. */
  predicate Matched(env: Env, x: Item) { x.control in env.catalog }

  function Step(env: Env, s: Audit, x: Item): Audit {
    if !Matched(env, x) then s
    else
      var a := Assess(env, x.control, x.asset);
      var f := x.control.framework;
      var r := |s.results|;
      Audit(
        s.results + [Result(env.run, x.control, env.catalog[x.control], x.asset.id, a.status, a.score)],
        s.evidence + [Evidence(x.control, x.asset.id)],
        s.supports + [Support(r, |s.evidence|)],
        Project(s.projection, Mapping(KeyOf(x), a.status, env.run, r)),
        AlertsAfter(s.alerts, x, a.status, env.run),
        Bump(s.statusCounts, a.status),
        s.frameworkCounts[f := Bump(Of(s.frameworkCounts, f), a.status)],
        s.noncompliant + (if a.status.Compliant? then 0 else 1),
        s.evidenceCount + 1)
  }

  function Steps(env: Env, s: Audit, items: seq<Item>): Audit {
    if items == [] then s
    else Step(env, Steps(env, s, items[..|items| - 1]), items[|items| - 1])
  }

  // ---------- the three nested loops ----------

  function ControlItems(a: Asset, framework: string, controls: seq<string>): seq<Item> {
    if controls == [] then []
    else
      var last := |controls| - 1;
      ControlItems(a, framework, controls[..last]) + [Item(a, Control(framework, controls[last]))]
  }

  function FrameworkItems(a: Asset, frameworks: seq<Framework>): seq<Item> {
    if frameworks == [] then []
    else
      var last := |frameworks| - 1;
      FrameworkItems(a, frameworks[..last]) + ControlItems(a, frameworks[last].code, frameworks[last].controls)
  }

  function Items(assets: seq<Asset>, frameworks: seq<Framework>): seq<Item> {
    if assets == [] then []
    else
      var last := |assets| - 1;
      Items(assets[..last], frameworks) + FrameworkItems(assets[last], frameworks)
  }

  /** Where each mapping sits; of repeated keys the last row counts. */
  function Index(mappings: seq<Mapping>): (m: map<Key, nat>)
    ensures forall k :: k in m ==> m[k] < |mappings| && mappings[m[k]].key == k
    ensures forall i :: 0 <= i < |mappings| ==> mappings[i].key in m && i <= m[mappings[i].key]
  {
    if mappings == [] then map[]
    else
      var last := |mappings| - 1;
      assert forall i :: 0 <= i < last ==> mappings[..last][i] == mappings[i];
      Index(mappings[..last])[mappings[last].key := last]
  }

  /** The tables a run starts from. */
  datatype Tables = Tables(
    results: seq<Result>, evidence: seq<Evidence>, supports: seq<Support>,
    mappings: seq<Mapping>, alerts: seq<Alert>)

  function Begin(t: Tables): Audit {
    Audit(t.results, t.evidence, t.supports, Projection(t.mappings, Index(t.mappings)), t.alerts, map[], map[], 0, 0)
  }

  function End(s: Audit): Tables { Tables(s.results, s.evidence, s.supports, s.projection.rows, s.alerts) }

  function RunAudit(env: Env, t: Tables, assets: seq<Asset>, frameworks: seq<Framework>): Audit {
    Steps(env, Begin(t), Items(assets, frameworks))
  }

  // ---------- summaries ----------

  function Total(m: Counts): nat {
    Count(m, Compliant) + Count(m, Partial) + Count(m, Gap) + Count(m, Exception)
      + Count(m, NotAssessed) + Count(m, NotApplicable) + Count(m, Na) + Count(m, Unknown)
  }

  /** Percentage in hundredths; nothing applicable counts as 0. */
  function Percentage(compliant: nat, applicable: int): nat {
    if applicable <= 0 then 0 else Hundredths(100 * compliant, applicable)
  }

  datatype Summary = Summary(counts: Counts, total: nat, percentage: nat)

  /** The summary stored with the run. */
  function FrameworkSummary(m: Counts): Summary {
    Summary(m, Total(m), Percentage(Count(m, Compliant), Total(m) - Count(m, NotApplicable)))
  }

  /** One row of the grouped query behind the summary endpoint. */
  datatype Group = Group(framework: string, version: string, status: Status, count: nat)

  function Add(m: Counts, s: Status, n: nat): Counts {
    var key := if s.Na? then NotApplicable else s;
    var m1 := m[key := Count(m, key) + n];
    if s.Na? then m1[Na := Count(m1, Na) + n] else m1
  }

  function Summarise(groups: seq<Group>): map<string, Counts> {
    if groups == [] then map[]
    else
      var g := groups[|groups| - 1];
      var m := Summarise(groups[..|groups| - 1]);
      m[g.framework := Add(Of(m, g.framework), g.status, g.count)]
  }

  /** The `na` entry repeats part of `not_applicable` and is not counted again. */
  function Finalized(m: Counts): Summary {
    var total := Count(m, Compliant) + Count(m, Partial) + Count(m, Gap) + Count(m, Exception)
                 + Count(m, NotAssessed) + Count(m, NotApplicable) + Count(m, Unknown);
    Summary(m, total, Percentage(Count(m, Compliant), total - Count(m, NotApplicable)))
  }
}
