/**
  When the reconciler raises an alert.  Every condition is spelled out on the rows and the
  alert table themselves: what is appended, to what, and that nothing else is.
 */
module ReconcileAlerts {
  import opened AssetRecords
  import opened Options
  import opened ReconcileRules
  import opened ReconcileTheorems

  /** No open alert of this kind on this asset is younger than a day. */
  ghost predicate Unheard(alerts: seq<Alert>, kind: AlertKind, asset: nat, now: int) {
    forall a :: a in alerts ==>
      !(a.kind == kind && a.asset == asset && a.open && now - a.createdAt < 24 * 60 * 60)
  }

  /** One raise from a spaced table: the alert is appended exactly when nothing recent says it already. */
  lemma RaisedExactly(alerts: seq<Alert>, kind: AlertKind, asset: nat, subject: Value, now: int)
    requires Spaced(alerts) && forall a :: a in alerts ==> a.createdAt <= now
    ensures Raise(alerts, kind, asset, subject, now)
         == Some(if Unheard(alerts, kind, asset, now) then alerts + [Alert(kind, asset, subject, now, true)] else alerts)
  {
    AtMostOneRecent(alerts, kind, asset, now);
    assert Unheard(alerts, kind, asset, now) <==> forall a :: a in alerts ==> !Recent(a, kind, asset, now);
  }

  lemma GroundedInPast(alerts: seq<Alert>, rows: nat, now: int)
    requires Grounded(alerts, rows, now)
    ensures forall a :: a in alerts ==> a.createdAt <= now
    ensures forall kind: AlertKind, asset: nat :: rows <= asset ==> Unheard(alerts, kind, asset, now)
  {}

  // ---------- reports ----------

  /** A created asset is reported as shadow exactly when its source is not authoritative. */
  lemma CreationRaisesShadow(store: Store, source: Source, r: Report, now: int)
    requires Sound(store, now)
    ensures var o := Create(store, source, r, now);
            var i := |store.rows|;
            && !o.raised && |o.store.rows| == i + 1
            && o.store.alerts == store.alerts
               + (if Authoritative(source) then [] else [Alert(ShadowIt, i, Get(o.store.rows[i].values, Name), now, true)])
  {
    GroundedInPast(store.alerts, |store.rows|, now);
    var name := Get(CreateRow(source, r, now).values, Name);
    RaisedExactly(store.alerts, ShadowIt, |store.rows|, name, now);
    assert CreateRow(source, r, now).isShadow == !Authoritative(source) by {
      assert forall s :: s in [source] <==> s == source;
    }
  }

  /** A report nothing matches: one new open shadow alert on the new row, or none from an authoritative source. */
  lemma UnmatchedReportRaisesShadow(store: Store, source: Source, r: Report, now: int)
    requires Sound(store, now) && FindAsset(store.rows, r) == NoRow
    ensures var o := Reconcile(store, source, r, now);
            var i := |store.rows|;
            && !o.raised && |o.store.rows| == i + 1
            && o.store.alerts == store.alerts
               + (if Authoritative(source) then [] else [Alert(ShadowIt, i, Get(o.store.rows[i].values, Name), now, true)])
  {
    CreationRaisesShadow(store, source, r, now);
  }

  /** Both lists name a service, and some name is on one of them only. */
  ghost predicate ServicesDiffer(was: seq<Service>, seen: seq<Service>) {
    && (exists s :: s in was && s.Service?)
    && (exists s :: s in seen && s.Service?)
    && exists name: Option<string> :: (Service(name) in was) != (Service(name) in seen)
  }

  lemma NamesAre(services: seq<Service>)
    ensures forall name :: name in ServiceNames(services) <==> Service(name) in services
    ensures ServiceNames(services) == {} <==> forall s :: s in services ==> !s.Service?
  {
    forall name | name in ServiceNames(services)
      ensures Service(name) in services
    {
      var s :| s in services && s.Service? && s.name == name;
      assert s == Service(name);
    }
    forall s | s in services && s.Service?
      ensures s.name in ServiceNames(services)
    {}
  }

  lemma DriftedExactly(row: Row, r: Report)
    ensures Drifted(row, r) <==> ServicesDiffer(row.services, r.services)
  {
    var was, seen := ServiceNames(row.services), ServiceNames(r.services);
    NamesAre(row.services);
    NamesAre(r.services);
    if was != seen {
      var name :| (name in was) != (name in seen);
      assert (Service(name) in row.services) != (Service(name) in r.services);
    }
  }

  /** A merge appends one open drift alert exactly when the services changed and nothing recent says so. */
  lemma MergeRaisesDrift(store: Store, source: Source, r: Report, now: int)
    requires Sound(store, now) && FindAsset(store.rows, r).One?
    ensures var o := Reconcile(store, source, r, now);
            var i := FindAsset(store.rows, r).row;
            var row := store.rows[i];
            && !o.raised
            && o.store.alerts == store.alerts
               + (if ServicesDiffer(row.services, r.services) && Unheard(store.alerts, Drift, i, now)
                  then [Alert(Drift, i, Get(row.values, Name), now, true)] else [])
  {
    var i := FindAsset(store.rows, r).row;
    GroundedInPast(store.alerts, |store.rows|, now);
    RaisedExactly(store.alerts, Drift, i, Get(store.rows[i].values, Name), now);
    DriftedExactly(store.rows[i], r);
  }

  // ---------- sweeps ----------

  /** The asset has a new alert. */
  ghost predicate Announced(after: seq<Alert>, from: nat, asset: nat) {
    exists k :: from <= k < |after| && after[k].asset == asset
  }

  /**
    `after` is `before` and, for each asset in `due` nothing recent is said of, one open alert
    created now under the name of its row.
   */
  ghost predicate RaisedForEach(before: seq<Alert>, after: seq<Alert>, kind: AlertKind, rows: seq<Row>, due: seq<nat>, now: int)
    requires Within(due, |rows|)
  {
    && before <= after
    && (forall k :: |before| <= k < |after| ==>
          && after[k].asset in due && Unheard(before, kind, after[k].asset, now)
          && after[k] == Alert(kind, after[k].asset, Get(rows[after[k].asset].values, Name), now, true))
    && (forall i :: i in due && Unheard(before, kind, i, now) ==> Announced(after, |before|, i))
    && (forall j, k :: |before| <= j < k < |after| ==> after[j].asset != after[k].asset)
  }

  /** Something recent about the next asset was there before, or is new. */
  lemma HeardAlready(before: seq<Alert>, alerts: seq<Alert>, kind: AlertKind, rows: seq<Row>, rest: seq<nat>, i: nat, now: int)
    requires Within(rest, |rows|) && RaisedForEach(before, alerts, kind, rows, rest, now)
    requires !Unheard(alerts, kind, i, now)
    ensures Unheard(before, kind, i, now) ==> Announced(alerts, |before|, i)
  {
    var a :| a in alerts && a.kind == kind && a.asset == i && a.open && now - a.createdAt < 24 * 60 * 60;
    var k :| 0 <= k < |alerts| && alerts[k] == a;
    if k < |before| { assert before[k] == a; }
  }

  lemma OneHeard(before: seq<Alert>, alerts: seq<Alert>, kind: AlertKind, rows: seq<Row>, due: seq<nat>, now: int)
    requires due != [] && Within(due, |rows|)
    requires RaisedForEach(before, alerts, kind, rows, due[..|due| - 1], now)
    requires !Unheard(alerts, kind, due[|due| - 1], now)
    ensures RaisedForEach(before, alerts, kind, rows, due, now)
  {
    var rest, i := due[..|due| - 1], due[|due| - 1];
    assert forall x :: x in due <==> x in rest || x == i;
    HeardAlready(before, alerts, kind, rows, rest, i, now);
  }

  lemma NotYetAnnounced(before: seq<Alert>, alerts: seq<Alert>, kind: AlertKind, rows: seq<Row>, rest: seq<nat>, i: nat, now: int)
    requires Within(rest, |rows|) && RaisedForEach(before, alerts, kind, rows, rest, now)
    requires Unheard(alerts, kind, i, now)
    ensures Unheard(before, kind, i, now) && !Announced(alerts, |before|, i)
  {
    assert forall a :: a in before ==> a in alerts;
    assert forall k :: |before| <= k < |alerts| ==> alerts[k] in alerts;
  }

  lemma AnnouncedWithOneMore(alerts: seq<Alert>, from: nat, a: Alert, asset: nat)
    requires from <= |alerts|
    ensures Announced(alerts + [a], from, asset) <==> Announced(alerts, from, asset) || a.asset == asset
  {
    var after := alerts + [a];
    assert after[|alerts|] == a;
    if k :| from <= k < |alerts| && alerts[k].asset == asset { assert after[k].asset == asset; }
  }

  lemma OneRaised(before: seq<Alert>, alerts: seq<Alert>, kind: AlertKind, rows: seq<Row>, due: seq<nat>, a: Alert, now: int)
    requires due != [] && Within(due, |rows|)
    requires RaisedForEach(before, alerts, kind, rows, due[..|due| - 1], now)
    requires var i := due[|due| - 1];
             Unheard(alerts, kind, i, now) && a == Alert(kind, i, Get(rows[i].values, Name), now, true)
    ensures RaisedForEach(before, alerts + [a], kind, rows, due, now)
  {
    var rest, i, after := due[..|due| - 1], due[|due| - 1], alerts + [a];
    assert forall x :: x in due <==> x in rest || x == i;
    NotYetAnnounced(before, alerts, kind, rows, rest, i, now);
    assert forall k :: |before| <= k < |alerts| ==> after[k] == alerts[k] && alerts[k].asset != i;
    forall x | x in due && Unheard(before, kind, x, now)
      ensures Announced(after, |before|, x)
    {
      AnnouncedWithOneMore(alerts, |before|, a, x);
    }
  }

  lemma {:induction false} RaiseForExactly(alerts: seq<Alert>, kind: AlertKind, rows: seq<Row>, due: seq<nat>, now: int)
    requires Spaced(alerts) && Grounded(alerts, |rows|, now) && Within(due, |rows|)
    ensures RaisedForEach(alerts, RaiseFor(alerts, kind, rows, due, now).alerts, kind, rows, due, now)
  {
    if due != [] {
      var rest, i := due[..|due| - 1], due[|due| - 1];
      RaiseForExactly(alerts, kind, rows, rest, now);
      RaiseForKeepsSpacing(alerts, kind, rows, rest, now);
      var o := RaiseFor(alerts, kind, rows, rest, now);
      GroundedInPast(o.alerts, |rows|, now);
      RaisedExactly(o.alerts, kind, i, Get(rows[i].values, Name), now);
      if Unheard(o.alerts, kind, i, now) {
        OneRaised(alerts, o.alerts, kind, rows, due, Alert(kind, i, Get(rows[i].values, Name), now, true), now);
      } else {
        OneHeard(alerts, o.alerts, kind, rows, due, now);
      }
    }
  }

  /** New alerts of a sweep: which assets have one, and that each has one only. */
  ghost predicate Swept(before: seq<Alert>, after: seq<Alert>, kind: AlertKind, rows: seq<Row>, concerns: Row -> bool, now: int) {
    && before <= after
    && (forall k :: |before| <= k < |after| ==>
          && after[k].asset < |rows|
          && after[k] == Alert(kind, after[k].asset, Get(rows[after[k].asset].values, Name), now, true))
    && (forall i :: 0 <= i < |rows| ==>
          (Announced(after, |before|, i) <==> concerns(rows[i]) && Unheard(before, kind, i, now)))
    && (forall j, k :: |before| <= j < k < |after| ==> after[j].asset != after[k].asset)
  }

  lemma SweptWhenDue(before: seq<Alert>, after: seq<Alert>, kind: AlertKind, rows: seq<Row>, due: seq<nat>, concerns: Row -> bool, now: int)
    requires Within(due, |rows|) && RaisedForEach(before, after, kind, rows, due, now)
    requires forall i :: i in due <==> 0 <= i < |rows| && concerns(rows[i])
    ensures Swept(before, after, kind, rows, concerns, now)
  {}

  /** One open stale alert, now, for exactly the rows last seen before the cutoff and not yet flagged of which none is younger than a day. */
  ghost predicate StaleAnnounced(before: Store, after: seq<Alert>, cutoff: int, now: int) {
    Swept(before.alerts, after, StaleAsset, before.rows, (row: Row) => row.lastSeen < cutoff && !row.isStale, now)
  }

  /** The kinds of asset that need an agent, without one. */
  ghost predicate GapsAnnounced(before: Store, after: seq<Alert>, now: int) {
    Swept(before.alerts, after, EdrGap, before.rows, (row: Row) => LacksAgent(row), now)
  }

  ghost predicate LacksAgent(row: Row) {
    && (Get(row.values, EdrStatus).Null? || Get(row.values, EdrStatus).text == "None")
    && row.kind.Text? && row.kind.text in ["Server", "Endpoint", "Workstation", "Database Server"]
  }

  /** From a sound store the stale sweep goes through, and announces exactly those rows. */
  lemma StaleSweepRaises(store: Store, cutoff: int, now: int)
    requires Sound(store, now)
    ensures !StaleSweep(store, cutoff, now).raised && StaleAnnounced(store, StaleSweep(store, cutoff, now).store.alerts, cutoff, now)
  {
    var due := StaleRows(store.rows, cutoff);
    StaleRowsAre(store.rows, cutoff);
    StaleSweepKeepsSound(store, cutoff, now);
    RaiseForExactly(store.alerts, StaleAsset, store.rows, due, now);
    SweptWhenDue(store.alerts, StaleSweep(store, cutoff, now).store.alerts, StaleAsset, store.rows, due,
                 (row: Row) => row.lastSeen < cutoff && !row.isStale, now);
  }

  /**
    From a sound store the EDR sweep goes through, changes no row, and announces exactly the
    servers, endpoints, workstations and database servers whose EDR status is missing or "None".
   */
  lemma EdrSweepRaises(store: Store, now: int)
    requires Sound(store, now)
    ensures !EdrSweep(store, now).raised && EdrSweep(store, now).store.rows == store.rows
    ensures GapsAnnounced(store, EdrSweep(store, now).store.alerts, now)
  {
    var due := EdrGapRows(store.rows);
    EdrGapRowsAre(store.rows);
    EdrSweepKeepsInv(store, now);
    RaiseForExactly(store.alerts, EdrGap, store.rows, due, now);
    SweptWhenDue(store.alerts, EdrSweep(store, now).store.alerts, EdrGap, store.rows, due, (row: Row) => LacksAgent(row), now);
  }

  // ---------- what the sweeps count ----------

  /** The places of the rows a test picks. */
  ghost function Places(rows: seq<Row>, test: Row -> bool): set<nat> {
    set i: nat | i < |rows| && test(rows[i])
  }

  lemma PlacesNext(rows: seq<Row>, test: Row -> bool)
    requires rows != []
    ensures |Places(rows, test)| == |Places(rows[..|rows| - 1], test)| + (if test(rows[|rows| - 1]) then 1 else 0)
  {
    var last := |rows| - 1;
    var before := Places(rows[..last], test);
    assert Places(rows, test) == if test(rows[last]) then before + {last} else before;
  }

  lemma {:induction false} StaleRowsCounted(rows: seq<Row>, cutoff: int, test: Row -> bool)
    requires forall row :: test(row) <==> StaleSince(row, cutoff)
    ensures |StaleRows(rows, cutoff)| == |Places(rows, test)|
  {
    if rows != [] {
      StaleRowsCounted(rows[..|rows| - 1], cutoff, test);
      PlacesNext(rows, test);
    }
  }

  lemma {:induction false} EdrGapRowsCounted(rows: seq<Row>, test: Row -> bool)
    requires forall row :: test(row) <==> EdrMissing(row)
    ensures |EdrGapRows(rows)| == |Places(rows, test)|
  {
    if rows != [] {
      EdrGapRowsCounted(rows[..|rows| - 1], test);
      PlacesNext(rows, test);
    }
  }

  /** Each sweep returns how many rows it concerns, whether or not they are announced again. */
  lemma SweepsCount(store: Store, cutoff: int, now: int)
    ensures StaleSweep(store, cutoff, now).result == |Places(store.rows, (row: Row) => row.lastSeen < cutoff && !row.isStale)|
    ensures EdrSweep(store, now).result == |Places(store.rows, (row: Row) => LacksAgent(row))|
  {
    var stale, gap := (row: Row) => row.lastSeen < cutoff && !row.isStale, (row: Row) => LacksAgent(row);
    StaleRowsCounted(store.rows, cutoff, stale);
    EdrGapRowsCounted(store.rows, gap);
    assert Places(store.rows, stale) == Places(store.rows, (row: Row) => row.lastSeen < cutoff && !row.isStale);
    assert Places(store.rows, gap) == Places(store.rows, (row: Row) => LacksAgent(row));
  }
}
