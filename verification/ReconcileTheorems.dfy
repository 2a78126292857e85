/**
  What the reconciler promises over whole runs: identity, alert spacing, provenance,
  convergence and idempotence.
 */
module ReconcileTheorems {
  import opened AssetRecords
  import opened Options
  import opened ReconcileRules

  // ---------- the store invariant ----------

  /** No MAC sits on two rows. */
  ghost predicate UniqueMacs(rows: seq<Row>) {
    forall i, j :: 0 <= i < j < |rows| ==> !Same(Mac, Get(rows[i].values, Mac), Get(rows[j].values, Mac))
  }

  ghost predicate NoDuplicates(sources: seq<Source>) {
    forall i, j :: 0 <= i < j < |sources| ==> sources[i] != sources[j]
  }

  ghost predicate RowInv(row: Row) {
    NoDuplicates(row.sources) && row.isShadow == IsShadow(row.sources)
  }

  ghost predicate Rows(rows: seq<Row>) {
    forall i :: 0 <= i < |rows| ==> RowInv(rows[i])
  }

  /** Open alerts of one kind on one asset lie at least a day apart. */
  ghost predicate Spaced(alerts: seq<Alert>) {
    forall i, j :: 0 <= i < j < |alerts| && Rivals(alerts[i], alerts[j]) ==>
      alerts[j].createdAt - alerts[i].createdAt >= DAY
  }

  predicate Rivals(a: Alert, b: Alert) {
    a.open && b.open && a.kind == b.kind && a.asset == b.asset
  }

  /** Alerts refer to rows that exist and were created in the past. */
  ghost predicate Grounded(alerts: seq<Alert>, rows: nat, now: int) {
    forall i :: 0 <= i < |alerts| ==> alerts[i].asset < rows && alerts[i].createdAt <= now
  }

  /** Everything but the identity of rows. */
  ghost predicate Sound(store: Store, now: int) {
    && Rows(store.rows)
    && Spaced(store.alerts)
    && Grounded(store.alerts, |store.rows|, now)
  }

  ghost predicate StoreInv(store: Store, now: int) { UniqueMacs(store.rows) && Sound(store, now) }

  // ---------- identity ----------

  /** Unique MACs mean the MAC lookup never meets two rows. */
  lemma MacLookupIsUnambiguous(rows: seq<Row>, mac: Value)
    requires UniqueMacs(rows)
    ensures !Select(rows, Mac, mac).Many?
  {
  }

  /** The row a lookup settles on is the only one a reported MAC may end up on. */
  lemma FoundRowOwnsMac(rows: seq<Row>, r: Report, i: nat)
    requires UniqueMacs(rows) && FindAsset(rows, r) == One(i)
    ensures i < |rows|
    ensures forall j :: 0 <= j < |rows| && j != i ==> !Same(Mac, Get(rows[j].values, Mac), Get(r.given, Mac))
  {
    MacLookupIsUnambiguous(rows, Get(r.given, Mac));
  }

  lemma MergeKeepsMacsUnique(rows: seq<Row>, i: nat, source: Source, r: Report, now: int)
    requires UniqueMacs(rows) && FindAsset(rows, r) == One(i)
    ensures i < |rows| && UniqueMacs(rows[i := MergeRow(rows[i], source, r, now)])
  {
    var row' := MergeRow(rows[i], source, r, now);
    if Get(row'.values, Mac) != Get(rows[i].values, Mac) {
      FoundRowOwnsMac(rows, r, i);
    }
  }

  /** A created row keeps MACs unique exactly when no row has its MAC. */
  lemma CreationKeepsMacsUniqueExactly(rows: seq<Row>, source: Source, r: Report, now: int)
    requires UniqueMacs(rows)
    ensures UniqueMacs(rows + [CreateRow(source, r, now)]) <==> !OnARow(rows, Get(r.given, Mac))
  {
    var rows' := rows + [CreateRow(source, r, now)];
    assert Get(rows'[|rows|].values, Mac) == Get(r.given, Mac);
    assert forall j :: 0 <= j < |rows| ==> rows'[j] == rows[j];
    if j :| 0 <= j < |rows| && Same(Mac, Get(rows[j].values, Mac), Get(r.given, Mac)) {
      assert Same(Mac, Get(rows'[j].values, Mac), Get(rows'[|rows|].values, Mac));
    }
  }

  predicate OnARow(rows: seq<Row>, mac: Value) {
    exists j :: 0 <= j < |rows| && Same(Mac, Get(rows[j].values, Mac), mac)
  }

  /** After a lookup that found nothing, it always does. */
  lemma CreateKeepsMacsUnique(rows: seq<Row>, source: Source, r: Report, now: int)
    requires UniqueMacs(rows) && FindAsset(rows, r) == NoRow
    ensures UniqueMacs(rows + [CreateRow(source, r, now)])
  {
    CreationKeepsMacsUniqueExactly(rows, source, r, now);
    assert Present(Get(r.given, Mac)) ==> Select(rows, Mac, Get(r.given, Mac)).NoRow?;
  }

  // ---------- alert spacing ----------

  /** Two alerts the duplicate check would count cannot coexist. */
  lemma AtMostOneRecent(alerts: seq<Alert>, kind: AlertKind, asset: nat, now: int)
    requires Spaced(alerts) && forall a :: a in alerts ==> a.createdAt <= now
    ensures RecentCount(alerts, kind, asset, now) <= 1
    ensures RecentCount(alerts, kind, asset, now) == 0 <==>
            forall a :: a in alerts ==> !Recent(a, kind, asset, now)
  {
    if alerts != [] {
      var last := |alerts| - 1;
      var rest := alerts[..last];
      assert forall a :: a in alerts <==> a in rest || a == alerts[last];
      AtMostOneRecent(rest, kind, asset, now);
      if Recent(alerts[last], kind, asset, now) {
        forall a | a in rest
          ensures !Recent(a, kind, asset, now)
        {
          var k :| 0 <= k < last && alerts[k] == a;
        }
      }
    }
  }

  lemma RaiseKeepsSpacing(alerts: seq<Alert>, rows: nat, kind: AlertKind, asset: nat, subject: Value, now: int)
    requires Spaced(alerts) && Grounded(alerts, rows, now) && asset < rows
    ensures Raise(alerts, kind, asset, subject, now).Some?
    ensures var alerts' := Raise(alerts, kind, asset, subject, now).value;
            Spaced(alerts') && Grounded(alerts', rows, now) && alerts <= alerts'
  {
    AtMostOneRecent(alerts, kind, asset, now);
    var alerts' := Raise(alerts, kind, asset, subject, now).value;
    forall i, j | 0 <= i < j < |alerts'| && Rivals(alerts'[i], alerts'[j])
      ensures alerts'[j].createdAt - alerts'[i].createdAt >= DAY
    {
      assert alerts'[i] == alerts[i] && alerts[i] in alerts;
    }
  }

  // ---------- every step keeps the invariant ----------

  lemma MergeRowKeepsInv(row: Row, source: Source, r: Report, now: int)
    requires RowInv(row)
    ensures RowInv(MergeRow(row, source, r, now))
  {
  }

  lemma CreateKeepsSound(store: Store, source: Source, r: Report, now: int)
    requires Sound(store, now)
    ensures var o := Create(store, source, r, now);
            !o.raised && Sound(o.store, now) && o.store.rows == store.rows + [CreateRow(source, r, now)]
  {
    var n := |store.rows|;
    assert Grounded(store.alerts, n + 1, now);
    RaiseKeepsSpacing(store.alerts, n + 1, ShadowIt, n, Get(CreateRow(source, r, now).values, Name), now);
  }

  lemma MergeKeepsSound(store: Store, i: nat, source: Source, r: Report, now: int)
    requires Sound(store, now) && i < |store.rows|
    ensures var o := MergeInto(store, i, source, r, now);
            !o.raised && Sound(o.store, now) && o.store.rows == store.rows[i := MergeRow(store.rows[i], source, r, now)]
  {
    RaiseKeepsSpacing(store.alerts, |store.rows|, Drift, i, Get(store.rows[i].values, Name), now);
    MergeRowKeepsInv(store.rows[i], source, r, now);
  }

  /** A report fails exactly on an ambiguous lookup. */
  lemma ReconcileKeepsSound(store: Store, source: Source, r: Report, now: int)
    requires Sound(store, now)
    ensures Reconcile(store, source, r, now).raised <==> FindAsset(store.rows, r).Many?
    ensures !Reconcile(store, source, r, now).raised ==> Sound(Reconcile(store, source, r, now).store, now)
  {
    match FindAsset(store.rows, r)
    case Many =>
    case One(i) => MergeKeepsSound(store, i, source, r, now);
    case NoRow => CreateKeepsSound(store, source, r, now);
  }

  lemma ReconcileKeepsInv(store: Store, source: Source, r: Report, now: int)
    requires StoreInv(store, now)
    ensures Reconcile(store, source, r, now).raised <==> FindAsset(store.rows, r).Many?
    ensures !Reconcile(store, source, r, now).raised ==>
              StoreInv(Reconcile(store, source, r, now).store, now)
  {
    match FindAsset(store.rows, r)
    case Many =>
    case One(i) =>
      MergeKeepsSound(store, i, source, r, now);
      MergeKeepsMacsUnique(store.rows, i, source, r, now);
    case NoRow =>
      CreateKeepsSound(store, source, r, now);
      CreateKeepsMacsUnique(store.rows, source, r, now);
  }

  lemma {:induction false} RaiseForKeepsSpacing(alerts: seq<Alert>, kind: AlertKind, rows: seq<Row>, due: seq<nat>, now: int)
    requires Spaced(alerts) && Grounded(alerts, |rows|, now) && Within(due, |rows|)
    ensures var o := RaiseFor(alerts, kind, rows, due, now);
            !o.raised && Spaced(o.alerts) && Grounded(o.alerts, |rows|, now)
  {
    if due != [] {
      var last := |due| - 1;
      RaiseForKeepsSpacing(alerts, kind, rows, due[..last], now);
      var o := RaiseFor(alerts, kind, rows, due[..last], now);
      RaiseKeepsSpacing(o.alerts, |rows|, kind, due[last], Get(rows[due[last]].values, Name), now);
    }
  }

  /** The sweep flags exactly the rows not seen since the cutoff, and no alert fails. */
  lemma StaleSweepKeepsInv(store: Store, cutoff: int, now: int)
    requires Sound(store, now)
    ensures var o := StaleSweep(store, cutoff, now);
            && !o.raised && Sound(o.store, now)
            && |o.store.rows| == |store.rows|
            && forall i :: 0 <= i < |store.rows| ==>
                 o.store.rows[i] == store.rows[i].(isStale := store.rows[i].isStale || store.rows[i].lastSeen < cutoff)
  {
    var due := StaleRows(store.rows, cutoff);
    StaleRowsAre(store.rows, cutoff);
    RaiseForKeepsSpacing(store.alerts, StaleAsset, store.rows, due, now);
    assert due[..|due|] == due;
    FlagKeepsRows(store.rows, due);
  }

  lemma StaleSweepKeepsSound(store: Store, cutoff: int, now: int)
    requires Sound(store, now)
    ensures !StaleSweep(store, cutoff, now).raised && Sound(StaleSweep(store, cutoff, now).store, now)
  {
    StaleSweepKeepsInv(store, cutoff, now);
  }

  lemma StaleSweepKeepsMacs(store: Store, cutoff: int, now: int)
    ensures UniqueMacs(StaleSweep(store, cutoff, now).store.rows) <==> UniqueMacs(store.rows)
  {
    var due := StaleRows(store.rows, cutoff);
    var o := RaiseFor(store.alerts, StaleAsset, store.rows, due, now);
    FlagKeepsMacs(store.rows, due[..o.done]);
  }

  lemma FlagKeepsMacs(rows: seq<Row>, due: seq<nat>)
    ensures UniqueMacs(Flag(rows, due)) <==> UniqueMacs(rows)
  {
    var flagged := Flag(rows, due);
    assert forall i :: 0 <= i < |rows| ==> flagged[i].values == rows[i].values;
  }

  lemma FlagKeepsRows(rows: seq<Row>, due: seq<nat>)
    requires Rows(rows)
    ensures Rows(Flag(rows, due))
  {
  }

  lemma EdrSweepKeepsInv(store: Store, now: int)
    requires Sound(store, now)
    ensures !EdrSweep(store, now).raised && Sound(EdrSweep(store, now).store, now)
  {
    RaiseForKeepsSpacing(store.alerts, EdrGap, store.rows, EdrGapRows(store.rows), now);
  }

  lemma ResolveKeepsSound(store: Store, alert: nat, now: int)
    requires Sound(store, now)
    ensures Sound(Resolve(store, alert).store, now) && Resolve(store, alert).store.rows == store.rows
  {
    if alert < |store.alerts| {
      var closed := Resolve(store, alert).store.alerts;
      assert forall i :: 0 <= i < |closed| ==> closed[i] == store.alerts[i].(open := closed[i].open) && (closed[i].open ==> store.alerts[i].open);
    }
  }

  lemma ReportKeepsSound(store: Store, e: Timed)
    requires Sound(store, e.now) && (e.event.Reported? || e.event.Ingested?)
    ensures Sound(Next(store, e), e.now)
  {
    if e.event.Reported? {
      ReconcileKeepsSound(store, e.event.source, e.event.report, e.now);
    } else {
      CreateKeepsSound(store, e.event.source, e.event.report, e.now);
    }
  }

  lemma StaleSweptKeepsSound(store: Store, e: Timed)
    requires Sound(store, e.now) && e.event.StaleSwept?
    ensures Sound(Next(store, e), e.now)
  {
    StaleSweepKeepsSound(store, e.now - e.event.cutoffAge, e.now);
  }

  lemma EdrSweptKeepsSound(store: Store, e: Timed)
    requires Sound(store, e.now) && e.event.EdrSwept?
    ensures Sound(Next(store, e), e.now)
  {
    EdrSweepKeepsInv(store, e.now);
  }

  lemma ResolvedKeepsSound(store: Store, e: Timed)
    requires Sound(store, e.now) && e.event.Resolved?
    ensures Sound(Next(store, e), e.now)
  {
    ResolveKeepsSound(store, e.event.alert, e.now);
  }

  lemma NextKeepsSound(store: Store, e: Timed)
    requires Sound(store, e.now)
    ensures Sound(Next(store, e), e.now)
  {
    match e.event
    case Reported(_, _) => ReportKeepsSound(store, e);
    case Ingested(_, _) => ReportKeepsSound(store, e);
    case StaleSwept(_) => StaleSweptKeepsSound(store, e);
    case EdrSwept => EdrSweptKeepsSound(store, e);
    case Resolved(_) => ResolvedKeepsSound(store, e);
  }

  /** Ingesting a MAC that is already on a row. */
  predicate Clashes(store: Store, e: Timed) { e.event.Ingested? && OnARow(store.rows, Get(e.event.report.given, Mac)) }

  /** Each event keeps MACs unique, except exactly an ingestion of a MAC that is already there. */
  lemma NextKeepsInv(store: Store, e: Timed)
    requires StoreInv(store, e.now)
    ensures StoreInv(Next(store, e), e.now) <==> !Clashes(store, e)
    ensures Sound(Next(store, e), e.now)
  {
    NextKeepsSound(store, e);
    match e.event
    case Reported(source, report) => ReconcileKeepsInv(store, source, report, e.now);
    case Ingested(source, report) =>
      CreateKeepsSound(store, source, report, e.now);
      CreationKeepsMacsUniqueExactly(store.rows, source, report, e.now);
    case StaleSwept(age) => StaleSweepKeepsMacs(store, e.now - age, e.now);
    case EdrSwept =>
    case Resolved(_) =>
  }

  function ClockAfter(start: int, events: seq<Timed>): int {
    if events == [] then start else events[|events| - 1].now
  }

  /**
    Main result on alerts and provenance: every run, reports, ingestions, sweeps and resolves
    in any mix, keeps sources duplicate-free, the shadow flag exact, and open alerts of one
    kind on one asset a day apart.
   */
  lemma {:induction false} RunKeepsSound(store: Store, start: int, events: seq<Timed>)
    requires Sound(store, start) && InOrder(start, events)
    ensures Sound(Run(store, events), ClockAfter(start, events))
  {
    if events != [] {
      var before := events[..|events| - 1];
      RunKeepsSound(store, start, before);
      assert ClockAfter(start, before) <= events[|events| - 1].now;
      NextKeepsSound(Run(store, before), events[|events| - 1]);
    }
  }

  /** No ingestion of the run brings a MAC that was on a row by then. */
  predicate Unclashed(store: Store, events: seq<Timed>) {
    events == [] ||
    (Unclashed(store, events[..|events| - 1]) && !Clashes(Run(store, events[..|events| - 1]), events[|events| - 1]))
  }

  /** Main result on identity: along every such run MACs stay unique as well. */
  lemma {:induction false} RunKeepsInv(store: Store, start: int, events: seq<Timed>)
    requires StoreInv(store, start) && InOrder(start, events) && Unclashed(store, events)
    ensures StoreInv(Run(store, events), ClockAfter(start, events))
  {
    if events != [] {
      var before := events[..|events| - 1];
      RunKeepsInv(store, start, before);
      assert ClockAfter(start, before) <= events[|events| - 1].now;
      NextKeepsInv(Run(store, before), events[|events| - 1]);
    }
  }

  lemma TwoRowsOfOneMac(rows: seq<Row>, r: Report)
    requires |rows| == 2 && Same(Mac, Get(rows[0].values, Mac), Get(r.given, Mac)) && Same(Mac, Get(rows[1].values, Mac), Get(r.given, Mac))
    ensures !UniqueMacs(rows) && Select(rows, Mac, Get(r.given, Mac)).Many? && FindAsset(rows, r).Many?
  {
    assert Same(Mac, Get(rows[0].values, Mac), Get(rows[1].values, Mac));
  }

  lemma IngestedRow(store: Store, e: Timed)
    requires Sound(store, e.now) && e.event.Ingested?
    ensures Next(store, e).rows == store.rows + [CreateRow(e.event.source, e.event.report, e.now)]
    ensures Sound(Next(store, e), e.now)
  {
    CreateKeepsSound(store, e.event.source, e.event.report, e.now);
  }

  lemma RunOfTwo(store: Store, a: Timed, b: Timed)
    ensures Run(store, [a, b]) == Next(Next(store, a), b)
  {
    assert [a, b][..1] == [a] && [a][..0] == [];
    assert Run(store, [a]) == Next(Run(store, [a][..0]), a);
  }

  /** Two ingestions of one MAC: every later report of it fails. */
  lemma IngestingTwiceClashes(source: Source, r: Report, t1: int, t2: int)
    requires HasAddress(Get(r.given, Mac)) && t1 <= t2
    ensures var s := Run(EMPTY, [Timed(t1, Ingested(source, r)), Timed(t2, Ingested(source, r))]);
            !UniqueMacs(s.rows) && Select(s.rows, Mac, Get(r.given, Mac)).Many?
            && forall other: Source, now: int :: Reconcile(s, other, r, now).raised
  {
    var first, second := Timed(t1, Ingested(source, r)), Timed(t2, Ingested(source, r));
    RunOfTwo(EMPTY, first, second);
    IngestedRow(EMPTY, first);
    var once := Next(EMPTY, first);
    assert Sound(once, t2);
    IngestedRow(once, second);
    TwoRowsOfOneMac(Next(once, second).rows, r);
    forall other: Source, now: int
      ensures Reconcile(Next(once, second), other, r, now).raised
    {
      assert FindAsset(Next(once, second).rows, r).Many?;
    }
  }

  /** In every state reachable without such a clash a report fails only on an ambiguous address or name. */
  lemma OnlyAddressOrNameCanBeAmbiguous(store: Store, start: int, events: seq<Timed>, source: Source, r: Report, now: int)
    requires StoreInv(store, start) && InOrder(start, events) && Unclashed(store, events)
    requires ClockAfter(start, events) <= now
    ensures var s := Run(store, events);
            Reconcile(s, source, r, now).raised <==>
              && (Present(Get(r.given, Mac)) ==> Select(s.rows, Mac, Get(r.given, Mac)).NoRow?)
              && if HasAddress(Get(r.given, Ip)) && !Select(s.rows, Ip, Get(r.given, Ip)).NoRow?
                 then Select(s.rows, Ip, Get(r.given, Ip)).Many?
                 else Present(MatchName(r)) && Select(s.rows, Name, MatchName(r)).Many?
  {
    RunKeepsInv(store, start, events);
    var s := Run(store, events);
    assert Sound(s, now);
    ReconcileKeepsSound(s, source, r, now);
    MacLookupIsUnambiguous(s.rows, Get(r.given, Mac));
  }

  // ---------- what only grows ----------

  /** Rows stay, their sources only grow at the end, and a managed asset never turns shadow. */
  ghost predicate Grows(before: seq<Row>, after: seq<Row>) {
    && |before| <= |after|
    && forall i :: 0 <= i < |before| ==>
         && before[i].sources <= after[i].sources
         && (!before[i].isShadow ==> !after[i].isShadow)
  }

  lemma MergeGrows(rows: seq<Row>, i: nat, source: Source, r: Report, now: int)
    requires i < |rows| && Rows(rows)
    ensures Grows(rows, rows[i := MergeRow(rows[i], source, r, now)])
  {
  }

  lemma ReconcileGrows(store: Store, source: Source, r: Report, now: int)
    requires Rows(store.rows) && !Reconcile(store, source, r, now).raised
    ensures Grows(store.rows, Reconcile(store, source, r, now).store.rows)
  {
    var m := FindAsset(store.rows, r);
    if m.One? { MergeGrows(store.rows, m.row, source, r, now); }
  }

  lemma NextGrows(store: Store, e: Timed)
    requires Sound(store, e.now)
    ensures Grows(store.rows, Next(store, e).rows)
  {
    match e.event
    case Reported(source, report) =>
      if !Effect(store, e).raised { ReconcileGrows(store, source, report, e.now); }
    case Ingested(source, report) => CreateKeepsSound(store, source, report, e.now);
    case StaleSwept(age) => StaleSweepKeepsInv(store, e.now - age, e.now);
    case EdrSwept =>
    case Resolved(_) =>
  }

  lemma {:induction false} RunGrows(store: Store, start: int, events: seq<Timed>)
    requires Sound(store, start) && InOrder(start, events)
    ensures Grows(store.rows, Run(store, events).rows)
  {
    if events != [] {
      var before := events[..|events| - 1];
      RunGrows(store, start, before);
      RunKeepsSound(store, start, before);
      assert ClockAfter(start, before) <= events[|events| - 1].now;
      NextGrows(Run(store, before), events[|events| - 1]);
    }
  }

  // ---------- idempotence ----------

  /** What a report offers to be recognised by. */
  predicate Identifiable(r: Report) {
    HasAddress(Get(r.given, Mac)) || HasAddress(Get(r.given, Ip)) || Present(MatchName(r))
  }

  lemma SelectsOnly(rows: seq<Row>, f: Field, v: Value, i: nat)
    requires i < |rows| && Same(f, Get(rows[i].values, f), v)
    requires forall j :: 0 <= j < |rows| && j != i ==> !Same(f, Get(rows[j].values, f), v)
    ensures Select(rows, f, v) == One(i)
  {
  }

  lemma SelectsNone(rows: seq<Row>, f: Field, v: Value)
    requires forall j :: 0 <= j < |rows| ==> !Same(f, Get(rows[j].values, f), v)
    ensures Select(rows, f, v) == NoRow
  {
  }

  /** A merged report finds the same row again. */
  lemma MergedReportFindsItsRow(rows: seq<Row>, i: nat, source: Source, r: Report, now: int)
    requires UniqueMacs(rows) && FindAsset(rows, r) == One(i)
    ensures i < |rows| && FindAsset(rows[i := MergeRow(rows[i], source, r, now)], r) == One(i)
  {
    var mac, ip, name := Get(r.given, Mac), Get(r.given, Ip), MatchName(r);
    var row' := MergeRow(rows[i], source, r, now);
    var rows' := rows[i := row'];
    FoundRowOwnsMac(rows, r, i);
    if Same(Mac, Get(row'.values, Mac), mac) {
      SelectsOnly(rows', Mac, mac, i);
    } else {
      SelectsNone(rows', Mac, mac);
      if HasAddress(ip) && Same(Ip, Get(row'.values, Ip), ip) {
        SelectsOnly(rows', Ip, ip, i);
      } else {
        if HasAddress(ip) { SelectsNone(rows', Ip, ip); }
        SelectsOnly(rows', Name, name, i);
      }
    }
  }

  /** Merging a report twice is merging it once, apart from `last_seen`. */
  lemma MergeTwiceIsOnce(row: Row, source: Source, r: Report, t1: int, t2: int)
    ensures MergeRow(MergeRow(row, source, r, t1), source, r, t2) == MergeRow(row, source, r, t1).(lastSeen := t2)
    ensures !Drifted(MergeRow(row, source, r, t1), r)
  {
    var once := MergeRow(row, source, r, t1);
    var twice := MergeRow(once, source, r, t2);
    AcceptanceSettles(row.sources, source);
    assert once.sources == twice.sources;
    if Accepted(row.sources, source) {
      assert Overwrite(Overwrite(row.values, r.given), r.given) == Overwrite(row.values, r.given);
    }
    assert (row.software + r.software) + r.software == row.software + r.software;
    assert (row.cpes + r.cpes) + r.cpes == row.cpes + r.cpes;
    assert (row.dependencies + r.dependencies) + r.dependencies == row.dependencies + r.dependencies;
  }

  /** The held priority of a list that gains a source. */
  lemma PriorityWith(sources: seq<Source>, s: Source)
    ensures var p := ExistingPriority(sources);
            ExistingPriority(WithSource(sources, s)) == if HeldPriority(s) >= p then HeldPriority(s) else p
  {
    var all := WithSource(sources, s);
    var p, q := ExistingPriority(sources), ExistingPriority(all);
    assert forall x :: x in all <==> x in sources || x == s;
    if p != 0 {
      var x :| x in sources && HeldPriority(x) == p;
      assert x in all;
    }
    if q != 0 {
      var x :| x in all && HeldPriority(x) == q;
      assert x in sources || x == s;
    }
  }

  /** Recording the reporter does not change whether it is accepted. */
  lemma AcceptanceSettles(sources: seq<Source>, s: Source)
    ensures Accepted(WithSource(sources, s), s) == Accepted(sources, s)
  {
    PriorityWith(sources, s);
  }

  lemma MergedStore(store: Store, i: nat, source: Source, r: Report, now: int)
    requires i < |store.rows| && !MergeInto(store, i, source, r, now).raised
    ensures MergeInto(store, i, source, r, now).store.rows == store.rows[i := MergeRow(store.rows[i], source, r, now)]
    ensures MergeInto(store, i, source, r, now).result == i
  {}

  lemma QuietMerge(store: Store, i: nat, source: Source, r: Report, now: int)
    requires i < |store.rows| && !Drifted(store.rows[i], r)
    ensures MergeInto(store, i, source, r, now)
         == Outcome(store.(rows := store.rows[i := MergeRow(store.rows[i], source, r, now)]), false, i)
  {}

  /**
    Main result on idempotence: once a report has been merged, reconciling it again from
    the same source meets the same asset, changes nothing but `last_seen`, raises no alert.
   */
  lemma ReconcileAgainChangesNothing(store: Store, source: Source, r: Report, t1: int, t2: int)
    requires UniqueMacs(store.rows) && FindAsset(store.rows, r).One?
    requires !Reconcile(store, source, r, t1).raised
    ensures var first := Reconcile(store, source, r, t1);
            var again := Reconcile(first.store, source, r, t2);
            var i := first.result;
            && i < |first.store.rows| && !again.raised && again.result == i
            && again.store == first.store.(rows := first.store.rows[i := first.store.rows[i].(lastSeen := t2)])
  {
    var i := FindAsset(store.rows, r).row;
    var first := Reconcile(store, source, r, t1).store;
    MergedReportFindsItsRow(store.rows, i, source, r, t1);
    MergedStore(store, i, source, r, t1);
    MergeTwiceIsOnce(store.rows[i], source, r, t1, t2);
    QuietMerge(first, i, source, r, t2);
  }

  /** A created asset is recognised again exactly when the report can be recognised by anything. */
  lemma CreatedReportFindsItsRow(rows: seq<Row>, source: Source, r: Report, now: int)
    requires FindAsset(rows, r) == NoRow
    ensures FindAsset(rows + [CreateRow(source, r, now)], r) == (if Identifiable(r) then One(|rows|) else NoRow)
  {
    var mac, ip, name := Get(r.given, Mac), Get(r.given, Ip), MatchName(r);
    var rows' := rows + [CreateRow(source, r, now)];
    if HasAddress(mac) {
      SelectsOnly(rows', Mac, mac, |rows|);
    } else {
      SelectsNone(rows', Mac, mac);
      if HasAddress(ip) {
        SelectsOnly(rows', Ip, ip, |rows|);
      } else if Present(name) {
        SelectsOnly(rows', Name, name, |rows|);
      }
    }
  }
}
