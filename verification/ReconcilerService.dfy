/**
  The reconciler as it runs: asset objects whose attributes are set in place, an alert table
  that grows, and the list of alerts this reconciler generated.  Every method is tied to the
  function of `ReconcileRules` that specifies it.
 */
module ReconcilerService {
  import opened AssetRecords
  import opened Options
  import opened ReconcileAlerts
  import opened ReconcileRules
  import opened ReconcileTheorems

  class Asset {
    const id: nat
    var kind: Value
    var values: Values
    var software: set<string>
    var cpes: set<string>
    var dependencies: set<string>
    var sources: seq<Source>
    var lastSeen: int
    var isShadow: bool
    var isStale: bool
    var services: seq<Service>
    var otherAttrs: map<string, string>

    ghost function Contents(): Row
      reads this
    {
      Row(kind, values, software, cpes, dependencies, sources, lastSeen, isShadow, isStale, services, otherAttrs)
    }

    constructor (id: nat, row: Row)
      ensures this.id == id && Contents() == row
    {
      this.id := id;
      kind, values := row.kind, row.values;
      software, cpes, dependencies := row.software, row.cpes, row.dependencies;
      sources, lastSeen := row.sources, row.lastSeen;
      isShadow, isStale := row.isShadow, row.isStale;
      services, otherAttrs := row.services, row.otherAttrs;
    }
  }

  class Reconciler {
    var assets: seq<Asset>
    var alerts: seq<Alert>
    var alertsGenerated: seq<Alert>

    /** The asset table as values; `Valid` ties it to the objects. */
    ghost var rows: seq<Row>

    /** Every row is one object, and an object's id is its place in the table. */
    ghost predicate Valid()
      reads this, assets
    {
      |rows| == |assets| &&
      forall i :: 0 <= i < |assets| ==> assets[i].id == i && assets[i].Contents() == rows[i]
    }

    ghost function View(): Store
      reads this
    {
      Store(rows, alerts)
    }

    constructor (assets: seq<Asset>, alerts: seq<Alert>)
      requires forall i :: 0 <= i < |assets| ==> assets[i].id == i
      ensures Valid() && this.assets == assets && this.alerts == alerts && alertsGenerated == []
    {
      this.assets, this.alerts, alertsGenerated := assets, alerts, [];
      rows := seq(|assets|, i requires 0 <= i < |assets| reads assets => assets[i].Contents());
    }

    /** One comparison of a select. */
    method AssetHas(i: nat, f: Field, v: Value) returns (b: bool)
      requires Valid() && i < |assets|
      ensures b == Same(f, Get(rows[i].values, f), v)
    {
      assert assets[i].Contents() == rows[i];
      b := Same(f, Get(assets[i].values, f), v);
    }

    /** A select with `scalar_one_or_none`. */
    method SelectAsset(f: Field, v: Value) returns (m: Match)
      requires Valid()
      ensures m == Select(rows, f, v)
    {
      m := NoRow;
      for i := 0 to |assets|
        invariant m == Matching(rows[..i], f, v)
      {
        assert rows[..i + 1][..i] == rows[..i];
        var found := AssetHas(i, f, v);
        if found {
          m := if m.NoRow? then One(i) else Many;
        }
      }
      assert rows[..|assets|] == rows;
    }

    method CountRecent(kind: AlertKind, asset: nat, now: int) returns (n: nat)
      ensures n == RecentCount(alerts, kind, asset, now)
    {
      n := 0;
      for i := 0 to |alerts|
        invariant n == RecentCount(alerts[..i], kind, asset, now)
      {
        assert alerts[..i + 1][..i] == alerts[..i];
        if Recent(alerts[i], kind, asset, now) {
          n := n + 1;
        }
      }
      assert alerts[..|alerts|] == alerts;
    }

    /** Raises an alert unless the same one was raised within a day; `ok` is false when the check met two rows. */
    method RaiseAlert(kind: AlertKind, asset: nat, subject: Value, now: int) returns (ok: bool)
      modifies this`alerts, this`alertsGenerated
      ensures ok == Raise(old(alerts), kind, asset, subject, now).Some?
      ensures ok ==> alerts == Raise(old(alerts), kind, asset, subject, now).value
      ensures !ok ==> alerts == old(alerts)
      ensures old(alerts) <= alerts && alertsGenerated == old(alertsGenerated) + alerts[|old(alerts)|..]
      ensures Spaced(old(alerts)) && (forall a :: a in old(alerts) ==> a.createdAt <= now) ==>
                ok && alerts == old(alerts) + (if Unheard(old(alerts), kind, asset, now) then [Alert(kind, asset, subject, now, true)] else [])
    {
      if Spaced(alerts) && forall a :: a in alerts ==> a.createdAt <= now {
        RaisedExactly(alerts, kind, asset, subject, now);
      }
      var n := CountRecent(kind, asset, now);
      if n >= 1 {
        return n == 1;
      }
      var alert := Alert(kind, asset, subject, now, true);
      alerts := alerts + [alert];
      alertsGenerated := alertsGenerated + [alert];
      ok := true;
    }

    method MaxPriority(sources: seq<Source>) returns (p: nat)
      ensures p == ExistingPriority(sources)
    {
      p := 0;
      var i := |sources|;
      while i > 0
        invariant 0 <= i <= |sources|
        invariant p == ExistingPriority(sources[i..])
      {
        i := i - 1;
        assert sources[i..][1..] == sources[i + 1..];
        if HeldPriority(sources[i]) >= p {
          p := HeldPriority(sources[i]);
        }
      }
    }

    /** Sets the authoritative attributes one by one, skipping what the report does not carry. */
    method OverwriteFields(asset: Asset, given: Values)
      modifies asset`values
      ensures asset.values == Overwrite(old(asset.values), given)
    {
      for i := 0 to |MERGED_FIELDS|
        invariant forall f :: f in MERGED_FIELDS[..i] && Present(Get(given, f)) ==>
                    f in asset.values && asset.values[f] == given[f]
        invariant forall f :: !(f in MERGED_FIELDS[..i] && Present(Get(given, f))) ==>
                    (f in asset.values <==> f in old(asset.values)) && Get(asset.values, f) == Get(old(asset.values), f)
      {
        var f := MERGED_FIELDS[i];
        assert MERGED_FIELDS[..i + 1] == MERGED_FIELDS[..i] + [f];
        if f in given && Present(given[f]) {
          asset.values := asset.values[f := given[f]];
        }
      }
      AllFieldsMerged();
      assert forall f :: f in asset.values <==> f in Overwrite(old(asset.values), given);
      assert forall f :: f in asset.values ==> asset.values[f] == Get(asset.values, f);
    }

    lemma AllFieldsMerged()
      ensures forall f: Field :: f in MERGED_FIELDS[..|MERGED_FIELDS|]
    {
      assert MERGED_FIELDS[..|MERGED_FIELDS|] == MERGED_FIELDS;
      forall f: Field
        ensures f in MERGED_FIELDS
      {
        var i := match f
          case Name => 0 case Os => 1 case Ip => 2 case Mac => 3 case Segment => 4 case EdrStatus => 5
          case ControlCoverage => 6 case NetworkExposure => 7 case AuthMethod => 8 case Criticality => 9
          case DataClassification => 10;
        assert MERGED_FIELDS[i] == f;
      }
    }

    /** The list attributes, enriched whatever the priority. */
    method Enrich(asset: Asset, data: Report)
      modifies asset`software, asset`cpes, asset`dependencies
      ensures asset.software == old(asset.software) + data.software
      ensures asset.cpes == old(asset.cpes) + data.cpes
      ensures asset.dependencies == old(asset.dependencies) + data.dependencies
    {
      asset.software := asset.software + data.software;
      asset.cpes := asset.cpes + data.cpes;
      asset.dependencies := asset.dependencies + data.dependencies;
    }

    /** The authoritative attributes, if the reporter is not outranked. */
    method MergeFields(asset: Asset, source: Source, data: Report)
      modifies asset`values
      ensures asset.values ==
              if Accepted(asset.sources, source) then Overwrite(old(asset.values), data.given) else old(asset.values)
    {
      var existing := MaxPriority(asset.sources);
      if Priority(source) >= existing {
        OverwriteFields(asset, data.given);
      }
    }

    /** Records who reported and when, and reclassifies the asset. */
    method RecordSource(asset: Asset, source: Source, data: Report, now: int)
      modifies asset`sources, asset`lastSeen, asset`isStale, asset`isShadow, asset`services
      ensures asset.sources == WithSource(old(asset.sources), source)
      ensures asset.isShadow == IsShadow(asset.sources)
      ensures asset.lastSeen == now && !asset.isStale && asset.services == data.services
    {
      var sources := asset.sources;
      if source !in sources {
        sources := sources + [source];
      }
      asset.sources := sources;
      asset.lastSeen := now;
      asset.isStale := false;
      asset.isShadow := NoneAuthoritative(asset.sources);
      asset.services := data.services;
    }

    /** Writes everything a report says about an asset onto it. */
    method ApplyReport(asset: Asset, source: Source, data: Report, now: int)
      modifies asset
      ensures asset.Contents() == MergeRow(old(asset.Contents()), source, data, now)
    {
      MergeFields(asset, source, data);
      Enrich(asset, data);
      RecordSource(asset, source, data, now);
    }

    method MergeSource(asset: Asset, source: Source, data: Report, now: int) returns (ok: bool)
      requires Valid() && asset.id < |assets| && assets[asset.id] == asset
      modifies this`alerts, this`alertsGenerated, this`rows, asset
      ensures Valid()
      ensures ok == !MergeInto(old(View()), asset.id, source, data, now).raised
      ensures View() == MergeInto(old(View()), asset.id, source, data, now).store
      ensures old(alerts) <= alerts && alertsGenerated == old(alertsGenerated) + alerts[|old(alerts)|..]
    {
      ok := CheckDrift(asset, data, now);
      if ok {
        ApplyReport(asset, source, data, now);
        rows := rows[asset.id := asset.Contents()];
      }
    }

    /** Raises a drift alert when both sides name services and they differ. */
    method CheckDrift(asset: Asset, data: Report, now: int) returns (ok: bool)
      modifies this`alerts, this`alertsGenerated
      ensures ok && !Drifted(asset.Contents(), data) ==> alerts == old(alerts)
      ensures Drifted(asset.Contents(), data) ==>
                var raised := Raise(old(alerts), Drift, asset.id, Get(asset.values, Name), now);
                ok == raised.Some? && (ok ==> alerts == raised.value)
      ensures !Drifted(asset.Contents(), data) ==> ok
      ensures !ok ==> alerts == old(alerts)
      ensures old(alerts) <= alerts && alertsGenerated == old(alertsGenerated) + alerts[|old(alerts)|..]
      ensures Spaced(old(alerts)) && (forall a :: a in old(alerts) ==> a.createdAt <= now) ==>
                ok && alerts == old(alerts)
                  + (if ServicesDiffer(asset.services, data.services) && Unheard(old(alerts), Drift, asset.id, now)
                     then [Alert(Drift, asset.id, Get(asset.values, Name), now, true)] else [])
    {
      DriftedExactly(asset.Contents(), data);
      var was, seen := ServiceNames(asset.services), ServiceNames(data.services);
      ok := true;
      if was != {} && seen != {} && was != seen {
        ok := RaiseAlert(Drift, asset.id, Get(asset.values, Name), now);
      }
    }

    method NoneAuthoritative(sources: seq<Source>) returns (b: bool)
      ensures b == IsShadow(sources)
    {
      for i := 0 to |sources|
        invariant forall k :: 0 <= k < i ==> !Authoritative(sources[k])
      {
        if Authoritative(sources[i]) {
          return false;
        }
      }
      b := true;
    }

    method CreateFromSource(source: Source, data: Report, now: int) returns (asset: Asset, ok: bool)
      requires Valid()
      modifies this
      ensures Valid() && fresh(asset) && assets == old(assets) + [asset]
      ensures var o := Create(old(View()), source, data, now);
              ok == !o.raised && View() == o.store && asset.id == o.result
      ensures old(alerts) <= alerts && alertsGenerated == old(alertsGenerated) + alerts[|old(alerts)|..]
    {
      var row := CreateRow(source, data, now);
      asset := new Asset(|assets|, row);
      assets := assets + [asset];
      rows := rows + [row];
      ok := true;
      if asset.isShadow {
        ok := RaiseAlert(ShadowIt, asset.id, Get(asset.values, Name), now);
      }
    }

    method FindExisting(data: Report) returns (existing: Match)
      requires Valid()
      ensures existing == FindAsset(rows, data)
    {
      existing := NoRow;
      if Present(Get(data.given, Mac)) {
        existing := SelectAsset(Mac, Get(data.given, Mac));
      }
      if existing.NoRow? && HasAddress(Get(data.given, Ip)) {
        existing := SelectAsset(Ip, Get(data.given, Ip));
      }
      if existing.NoRow? && Present(MatchName(data)) {
        existing := SelectAsset(Name, MatchName(data));
      }
    }

    method MergeExisting(i: nat, source: Source, data: Report, now: int) returns (r: Option<Asset>)
      requires Valid() && i < |assets|
      modifies this`alerts, this`alertsGenerated, this`rows, assets[i]
      ensures Valid()
      ensures var o := MergeInto(old(View()), i, source, data, now);
              r == (if o.raised then None else Some(assets[i])) && View() == o.store && (!o.raised ==> o.result == i)
      ensures old(alerts) <= alerts && alertsGenerated == old(alertsGenerated) + alerts[|old(alerts)|..]
    {
      var ok := MergeSource(assets[i], source, data, now);
      r := if ok then Some(assets[i]) else None;
    }

    method CreateNew(source: Source, data: Report, now: int) returns (r: Option<Asset>)
      requires Valid()
      modifies this
      ensures Valid()
      ensures var o := Create(old(View()), source, data, now);
              View() == o.store && o.result < |assets| && r == (if o.raised then None else Some(assets[o.result]))
      ensures old(alerts) <= alerts && alertsGenerated == old(alertsGenerated) + alerts[|old(alerts)|..]
    {
      var asset, ok := CreateFromSource(source, data, now);
      r := if ok then Some(asset) else None;
    }

    /** Upserts the asset a source reported; None when a lookup or the duplicate check was ambiguous. */
    method ReconcileHost(source: Source, data: Report, now: int) returns (r: Option<Asset>)
      requires Valid()
      modifies this, assets
      ensures Valid()
      ensures var o := Reconcile(old(View()), source, data, now);
              && r.Some? == !o.raised && View() == o.store
              && (r.Some? ==> o.result < |assets| && r.value == assets[o.result])
      ensures old(alerts) <= alerts && alertsGenerated == old(alertsGenerated) + alerts[|old(alerts)|..]
    {
      var existing := FindExisting(data);
      match existing
      case Many => r := None;
      case One(i) => r := MergeExisting(i, source, data, now);
      case NoRow => r := CreateNew(source, data, now);
    }

    /** Flags one asset and raises its alert. */
    method FlagAndRaise(asset: Asset, now: int) returns (ok: bool)
      requires Valid() && asset.id < |assets| && assets[asset.id] == asset
      modifies this`alerts, this`alertsGenerated, this`rows, asset`isStale
      ensures Valid() && rows == old(rows)[asset.id := old(rows[asset.id]).(isStale := true)]
      ensures var raised := Raise(old(alerts), StaleAsset, asset.id, Get(old(rows[asset.id]).values, Name), now);
              ok == raised.Some? && alerts == (if ok then raised.value else old(alerts))
    {
      asset.isStale := true;
      rows := rows[asset.id := rows[asset.id].(isStale := true)];
      ok := RaiseAlert(StaleAsset, asset.id, Get(asset.values, Name), now);
    }

    method DetectStaleAssets(threshold: nat, now: int) returns (count: nat, ok: bool)
      requires Valid()
      modifies this`alerts, this`alertsGenerated, this`rows, assets
      ensures Valid()
      ensures var o := StaleSweep(old(View()), now - threshold, now);
              ok == !o.raised && View() == o.store && count == o.result
    {
      var due := SelectStale(now - threshold);
      count := |due|;
      ok := SweepStale(due, now);
    }

    method SweepStale(due: seq<nat>, now: int) returns (ok: bool)
      requires Valid() && Within(due, |assets|)
      modifies this`alerts, this`alertsGenerated, this`rows, assets
      ensures Valid()
      ensures ok == !FlagAll(old(View()), due, now).raised && View() == FlagAll(old(View()), due, now).store
    {
      ghost var was := rows;
      ok := true;
      for k := 0 to |due|
        invariant Valid() && ok
        invariant RaiseFor(old(alerts), StaleAsset, was, due[..k], now) == Raising(alerts, k, false)
        invariant rows == Flag(was, due[..k])
      {
        FlagNext(was, due, k);
        RaiseForNext(old(alerts), StaleAsset, was, due, k, now);
        ok := FlagAndRaise(assets[due[k]], now);
        if !ok {
          return;
        }
      }
      assert due[..|due|] == due;
    }

    lemma FlagNext(rows: seq<Row>, due: seq<nat>, k: nat)
      requires k < |due| && Within(due, |rows|)
      ensures Get(Flag(rows, due[..k])[due[k]].values, Name) == Get(rows[due[k]].values, Name)
      ensures Flag(rows, due[..k + 1]) == Flag(rows, due[..k])[due[k] := Flag(rows, due[..k])[due[k]].(isStale := true)]
    {
      assert due[..k + 1] == due[..k] + [due[k]];
    }

    /** One more alert of a sweep; once the duplicate check has met two rows nothing more is raised. */
    lemma RaiseForNext(alerts: seq<Alert>, kind: AlertKind, rows: seq<Row>, due: seq<nat>, k: nat, now: int)
      requires k < |due| && Within(due, |rows|) && !RaiseFor(alerts, kind, rows, due[..k], now).raised
      ensures var so := RaiseFor(alerts, kind, rows, due[..k], now);
              var next := Raise(so.alerts, kind, due[k], Get(rows[due[k]].values, Name), now);
              if next.None? then RaiseFor(alerts, kind, rows, due, now) == Raising(so.alerts, k + 1, true)
              else RaiseFor(alerts, kind, rows, due[..k + 1], now) == Raising(next.value, k + 1, false)
    {
      assert due[..k + 1][..k] == due[..k];
      if RaiseFor(alerts, kind, rows, due[..k + 1], now).raised {
        RaisedStays(alerts, kind, rows, due, k + 1, now);
      }
    }

    /** Once the duplicate check has met two rows nothing more is raised. */
    lemma RaisedStays(alerts: seq<Alert>, kind: AlertKind, rows: seq<Row>, due: seq<nat>, k: nat, now: int)
      requires k <= |due| && Within(due, |rows|) && RaiseFor(alerts, kind, rows, due[..k], now).raised
      ensures RaiseFor(alerts, kind, rows, due, now) == RaiseFor(alerts, kind, rows, due[..k], now)
    {
      if k < |due| {
        var rest := due[..|due| - 1];
        assert rest[..k] == due[..k];
        RaisedStays(alerts, kind, rows, rest, k, now);
      } else {
        assert due[..k] == due;
      }
    }

    method SelectStale(cutoff: int) returns (due: seq<nat>)
      requires Valid()
      ensures due == StaleRows(rows, cutoff)
    {
      due := [];
      for i := 0 to |assets|
        invariant due == StaleRows(rows[..i], cutoff)
      {
        assert rows[..i + 1][..i] == rows[..i];
        if assets[i].lastSeen < cutoff && !assets[i].isStale {
          due := due + [i];
        }
      }
      assert rows[..|assets|] == rows;
    }

    method DetectEdrGaps(now: int) returns (count: nat, ok: bool)
      requires Valid()
      modifies this`alerts, this`alertsGenerated
      ensures var o := EdrSweep(old(View()), now);
              ok == !o.raised && View() == o.store && count == o.result
    {
      var due := SelectEdrGaps();
      count, ok := |due|, true;
      for k := 0 to |due|
        invariant ok
        invariant RaiseFor(old(alerts), EdrGap, rows, due[..k], now) == Raising(alerts, k, false)
      {
        var asset := assets[due[k]];
        RaiseForNext(old(alerts), EdrGap, rows, due, k, now);
        ok := RaiseAlert(EdrGap, asset.id, Get(asset.values, Name), now);
        if !ok {
          return;
        }
      }
      assert due[..|due|] == due;
    }

    method SelectEdrGaps() returns (due: seq<nat>)
      requires Valid()
      ensures due == EdrGapRows(rows)
    {
      due := [];
      for i := 0 to |assets|
        invariant due == EdrGapRows(rows[..i])
      {
        assert rows[..i + 1][..i] == rows[..i];
        var asset := assets[i];
        var status := Get(asset.values, EdrStatus);
        if (status.Null? || status.text == "None") && asset.kind.Text? && asset.kind.text in EDR_KINDS {
          due := due + [i];
        }
      }
      assert rows[..|assets|] == rows;
    }

    /** The alert endpoint: an unknown alert is not found, any other is closed. */
    method ResolveAlert(alert: nat) returns (found: bool)
      modifies this`alerts
      ensures found == !Resolve(old(View()), alert).raised && View() == Resolve(old(View()), alert).store
    {
      found := alert < |alerts|;
      if found {
        alerts := alerts[alert := alerts[alert].(open := false)];
      }
    }
  }
}
