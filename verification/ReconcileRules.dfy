/**
  What one call of the reconciler does to the store, as functions on values.
  `ReconcilerService` proves the state-changing methods equal to them and
  `ReconcileTheorems` proves what they promise.
 */
module ReconcileRules {
  import opened AssetRecords
  import opened Options

  const DAY: int := 24 * 60 * 60

  /** The store after a call, whether the call raised, and the row or the count it returned. */
  datatype Outcome = Outcome(store: Store, raised: bool, result: nat)

  // ---------- lookup ----------

  /** `scalar_one_or_none` over the rows whose column `f` compares equal to `v`. */
  function Matching(rows: seq<Row>, f: Field, v: Value): Match {
    if rows == [] then NoRow
    else
      var last := |rows| - 1;
      var m := Matching(rows[..last], f, v);
      if !Same(f, Get(rows[last].values, f), v) then m else if m.NoRow? then One(last) else Many
  }

  /** What its three answers mean. */
  lemma {:induction false} MatchingMeans(rows: seq<Row>, f: Field, v: Value)
    ensures var m := Matching(rows, f, v);
            && (m.NoRow? <==> forall i :: 0 <= i < |rows| ==> !Same(f, Get(rows[i].values, f), v))
            && (m.One? ==> m.row < |rows| && Same(f, Get(rows[m.row].values, f), v)
                           && forall i :: 0 <= i < |rows| && Same(f, Get(rows[i].values, f), v) ==> i == m.row)
            && (m.Many? ==> exists i, j :: 0 <= i < j < |rows|
                              && Same(f, Get(rows[i].values, f), v) && Same(f, Get(rows[j].values, f), v))
  {
    if rows != [] {
      var last := |rows| - 1;
      MatchingMeans(rows[..last], f, v);
      assert forall i :: 0 <= i < last ==> rows[..last][i] == rows[i];
      if Matching(rows[..last], f, v).Many? {
        var i, j :| 0 <= i < j < last && Same(f, Get(rows[..last][i].values, f), v) && Same(f, Get(rows[..last][j].values, f), v);
        assert Same(f, Get(rows[i].values, f), v) && Same(f, Get(rows[j].values, f), v);
      } else if Matching(rows[..last], f, v).One? {
        assert Same(f, Get(rows[Matching(rows[..last], f, v).row].values, f), v);
      }
    }
  }

  function Select(rows: seq<Row>, f: Field, v: Value): (m: Match)
    ensures m.NoRow? <==> forall i :: 0 <= i < |rows| ==> !Same(f, Get(rows[i].values, f), v)
    ensures m.One? ==> m.row < |rows| && Same(f, Get(rows[m.row].values, f), v)
    ensures m.One? ==>
      forall i :: 0 <= i < |rows| && Same(f, Get(rows[i].values, f), v) ==> i == m.row
    ensures m.Many? ==>
      exists i, j :: 0 <= i < j < |rows|
                  && Same(f, Get(rows[i].values, f), v) && Same(f, Get(rows[j].values, f), v)
  {
    MatchingMeans(rows, f, v);
    Matching(rows, f, v)
  }

  /** The name a report is matched by: its name, else its host name. */
  function MatchName(r: Report): Value {
    if Present(Get(r.given, Name)) then Get(r.given, Name) else r.hostname
  }

  /** MAC first, then address, then name. */
  function FindAsset(rows: seq<Row>, r: Report): (m: Match)
    ensures m.One? ==> m.row < |rows|
  {
    var byMac := if Present(Get(r.given, Mac)) then Select(rows, Mac, Get(r.given, Mac)) else NoRow;
    if byMac != NoRow then byMac
    else
      var byIp := if HasAddress(Get(r.given, Ip)) then Select(rows, Ip, Get(r.given, Ip)) else NoRow;
      if byIp != NoRow then byIp
      else if Present(MatchName(r)) then Select(rows, Name, MatchName(r))
      else NoRow
  }

  // ---------- merge and create ----------

  /** Priority of the best source recorded on an asset. */
  function ExistingPriority(sources: seq<Source>): (p: nat)
    ensures forall s :: s in sources ==> HeldPriority(s) <= p
    ensures p == 0 || exists s :: s in sources && HeldPriority(s) == p
  {
    if sources == [] then 0
    else
      var p := ExistingPriority(sources[1..]);
      assert forall s :: s in sources <==> s == sources[0] || s in sources[1..];
      if HeldPriority(sources[0]) >= p then HeldPriority(sources[0]) else p
  }

  predicate Accepted(sources: seq<Source>, reporter: Source) {
    Priority(reporter) >= ExistingPriority(sources)
  }

  /** Every field the report really carries replaces the stored one. */
  function Overwrite(values: Values, given: Values): (v: Values)
    ensures forall f :: Get(v, f) == if Present(Get(given, f)) then Get(given, f) else Get(values, f)
  {
    values + map f | f in given && Present(given[f]) :: given[f]
  }

  function WithSource(sources: seq<Source>, s: Source): seq<Source> {
    if s in sources then sources else sources + [s]
  }

  /** Shadow: no authoritative source claims the asset. */
  predicate IsShadow(sources: seq<Source>) {
    forall s :: s in sources ==> !Authoritative(s)
  }

  function MergeRow(row: Row, source: Source, r: Report, now: int): Row {
    var sources := WithSource(row.sources, source);
    row.(values := if Accepted(row.sources, source) then Overwrite(row.values, r.given) else row.values,
         software := row.software + r.software,
         cpes := row.cpes + r.cpes,
         dependencies := row.dependencies + r.dependencies,
         sources := sources,
         lastSeen := now,
         isStale := false,
         isShadow := IsShadow(sources),
         services := r.services)
  }

  /** A key the report does not have takes the default; one it has is kept, empty or not. */
  function GivenOr(r: Report, f: Field, default: string): Value {
    if f in r.given then r.given[f] else Plain(default)
  }

  function InitialName(r: Report): Value {
    if Present(MatchName(r)) then MatchName(r) else GivenOr(r, Ip, "unknown")
  }

  function InitialValue(r: Report, f: Field): Value {
    match f
    case Name => InitialName(r)
    case Os => if Present(Get(r.given, Os)) then Get(r.given, Os) else r.osGuess
    case Ip => Get(r.given, Ip)
    case Mac => Get(r.given, Mac)
    case Segment => GivenOr(r, Segment, "Unknown")
    case EdrStatus => GivenOr(r, EdrStatus, "None")
    case ControlCoverage => GivenOr(r, ControlCoverage, "none")
    case NetworkExposure => GivenOr(r, NetworkExposure, "internal")
    case AuthMethod => GivenOr(r, AuthMethod, "password")
    case Criticality => GivenOr(r, Criticality, "medium")
    case DataClassification => GivenOr(r, DataClassification, "Internal")
  }

  function InitialValues(r: Report): (v: Values)
    ensures forall f :: Get(v, f) == InitialValue(r, f)
  {
    map f: Field :: InitialValue(r, f)
  }

  function CreateRow(source: Source, r: Report, now: int): Row {
    Row(if r.kind.Some? then r.kind.value else Plain("Unknown"),
        InitialValues(r), r.software, r.cpes, r.dependencies,
        [source], now, IsShadow([source]), false, [], map[])
  }

  predicate Drifted(row: Row, r: Report) {
    var was, seen := ServiceNames(row.services), ServiceNames(r.services);
    was != {} && seen != {} && was != seen
  }

  // ---------- alerts ----------

  /** The alerts the 24 h duplicate check looks at. */
  predicate Recent(a: Alert, kind: AlertKind, asset: nat, now: int) {
    a.kind == kind && a.asset == asset && a.createdAt > now - DAY && a.open
  }

  function RecentCount(alerts: seq<Alert>, kind: AlertKind, asset: nat, now: int): nat {
    if alerts == [] then 0
    else
      var last := |alerts| - 1;
      RecentCount(alerts[..last], kind, asset, now) + (if Recent(alerts[last], kind, asset, now) then 1 else 0)
  }

  /** The alert table after raising an alert; None when the duplicate check met two rows. */
  function Raise(alerts: seq<Alert>, kind: AlertKind, asset: nat, subject: Value, now: int): Option<seq<Alert>> {
    var n := RecentCount(alerts, kind, asset, now);
    if n >= 2 then None
    else if n == 1 then Some(alerts)
    else Some(alerts + [Alert(kind, asset, subject, now, true)])
  }

  // ---------- the operations ----------

  function MergeInto(store: Store, i: nat, source: Source, r: Report, now: int): Outcome
    requires i < |store.rows|
  {
    var row := store.rows[i];
    var alerts := if Drifted(row, r) then Raise(store.alerts, Drift, i, Get(row.values, Name), now)
                  else Some(store.alerts);
    if alerts.None? then Outcome(store, true, i)
    else Outcome(Store(store.rows[i := MergeRow(row, source, r, now)], alerts.value), false, i)
  }

  function Create(store: Store, source: Source, r: Report, now: int): Outcome {
    var i := |store.rows|;
    var row := CreateRow(source, r, now);
    var rows := store.rows + [row];
    if !row.isShadow then Outcome(Store(rows, store.alerts), false, i)
    else
      var alerts := Raise(store.alerts, ShadowIt, i, Get(row.values, Name), now);
      if alerts.None? then Outcome(Store(rows, store.alerts), true, i)
      else Outcome(Store(rows, alerts.value), false, i)
  }

  /** An ambiguous lookup raises before anything is written. */
  function Reconcile(store: Store, source: Source, r: Report, now: int): Outcome {
    match FindAsset(store.rows, r)
    case Many => Outcome(store, true, 0)
    case One(i) => MergeInto(store, i, source, r, now)
    case NoRow => Create(store, source, r, now)
  }

  /** Alerts after raising one for each row in `due`; `done` rows were reached, the last one raised or not. */
  datatype Raising = Raising(alerts: seq<Alert>, done: nat, raised: bool)

  ghost predicate Within(due: seq<nat>, n: nat) {
    forall k :: 0 <= k < |due| ==> due[k] < n
  }

  function RaiseFor(alerts: seq<Alert>, kind: AlertKind, rows: seq<Row>, due: seq<nat>, now: int): (o: Raising)
    requires Within(due, |rows|)
    ensures o.done <= |due| && (!o.raised ==> o.done == |due|)
  {
    if due == [] then Raising(alerts, 0, false)
    else
      var last := |due| - 1;
      var o := RaiseFor(alerts, kind, rows, due[..last], now);
      if o.raised then o
      else
        var next := Raise(o.alerts, kind, due[last], Get(rows[due[last]].values, Name), now);
        if next.None? then Raising(o.alerts, |due|, true) else Raising(next.value, |due|, false)
  }

  predicate StaleSince(row: Row, cutoff: int) { row.lastSeen < cutoff && !row.isStale }

  function StaleRows(rows: seq<Row>, cutoff: int): (due: seq<nat>)
    ensures Within(due, |rows|)
  {
    if rows == [] then []
    else
      var last := |rows| - 1;
      StaleRows(rows[..last], cutoff) + (if StaleSince(rows[last], cutoff) then [last] else [])
  }

  lemma {:induction false} StaleRowsAre(rows: seq<Row>, cutoff: int)
    ensures forall i :: i in StaleRows(rows, cutoff) <==> 0 <= i < |rows| && StaleSince(rows[i], cutoff)
  {
    if rows != [] {
      StaleRowsAre(rows[..|rows| - 1], cutoff);
    }
  }

  function Flag(rows: seq<Row>, due: seq<nat>): (flagged: seq<Row>)
    ensures |flagged| == |rows|
    ensures forall i :: 0 <= i < |rows| ==> flagged[i] == rows[i].(isStale := rows[i].isStale || i in due)
  {
    seq(|rows|, i requires 0 <= i < |rows| => rows[i].(isStale := rows[i].isStale || i in due))
  }

  /** Flags rows and raises an alert for each, until one fails. */
  function FlagAll(store: Store, due: seq<nat>, now: int): Outcome
    requires Within(due, |store.rows|)
  {
    var o := RaiseFor(store.alerts, StaleAsset, store.rows, due, now);
    Outcome(Store(Flag(store.rows, due[..o.done]), o.alerts), o.raised, |due|)
  }

  /** The rows not seen since `cutoff`. */
  function StaleSweep(store: Store, cutoff: int, now: int): Outcome {
    FlagAll(store, StaleRows(store.rows, cutoff), now)
  }

  const EDR_KINDS: set<string> := {"Server", "Endpoint", "Workstation", "Database Server"}

  predicate EdrMissing(row: Row) {
    var status := Get(row.values, EdrStatus);
    (status.Null? || status.text == "None") && row.kind.Text? && row.kind.text in EDR_KINDS
  }

  function EdrGapRows(rows: seq<Row>): (due: seq<nat>)
    ensures Within(due, |rows|)
  {
    if rows == [] then []
    else
      var last := |rows| - 1;
      EdrGapRows(rows[..last]) + (if EdrMissing(rows[last]) then [last] else [])
  }

  lemma {:induction false} EdrGapRowsAre(rows: seq<Row>)
    ensures forall i :: i in EdrGapRows(rows) <==> 0 <= i < |rows| && EdrMissing(rows[i])
  {
    if rows != [] {
      EdrGapRowsAre(rows[..|rows| - 1]);
    }
  }

  function EdrSweep(store: Store, now: int): Outcome {
    var due := EdrGapRows(store.rows);
    var o := RaiseFor(store.alerts, EdrGap, store.rows, due, now);
    Outcome(store.(alerts := o.alerts), o.raised, |due|)
  }

  /** Resolving closes an alert, open or not; an unknown alert is not found. */
  function Resolve(store: Store, alert: nat): Outcome {
    if alert >= |store.alerts| then Outcome(store, true, 0)
    else Outcome(store.(alerts := store.alerts[alert := store.alerts[alert].(open := false)]), false, 0)
  }

  // ---------- runs ----------

  /** Ingesting creates a row without looking for an existing one. */
  datatype Event =
    | Reported(source: Source, report: Report)
    | Ingested(source: Source, report: Report)
    | StaleSwept(cutoffAge: nat)
    | EdrSwept
    | Resolved(alert: nat)

  datatype Timed = Timed(now: int, event: Event)

  function Effect(store: Store, e: Timed): Outcome {
    match e.event
    case Reported(source, report) => Reconcile(store, source, report, e.now)
    case Ingested(source, report) => Create(store, source, report, e.now)
    case StaleSwept(age) => StaleSweep(store, e.now - age, e.now)
    case EdrSwept => EdrSweep(store, e.now)
    case Resolved(alert) => Resolve(store, alert)
  }

  /** A call that raises is rolled back by its caller. */
  function Next(store: Store, e: Timed): Store {
    var o := Effect(store, e);
    if o.raised then store else o.store
  }

  function Run(store: Store, events: seq<Timed>): Store {
    if events == [] then store
    else Next(Run(store, events[..|events| - 1]), events[|events| - 1])
  }

  const EMPTY: Store := Store([], [])

  /** One clock: no event happens before an earlier one. */
  predicate InOrder(start: int, events: seq<Timed>) {
    && (forall i :: 0 <= i < |events| ==> start <= events[i].now)
    && (forall i, j :: 0 <= i < j < |events| ==> events[i].now <= events[j].now)
  }
}
