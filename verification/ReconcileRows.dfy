/**
  Which row a report settles on and what that row then says, read off the report and the rows
  themselves.
 */
module ReconcileRows {
  import opened AssetRecords
  import opened Options
  import opened ReconcileRules
  import opened ReconcileTheorems
  import opened ReconcileConvergence
  import opened ReconcileRuns

  // ---------- the lookup ----------

  /** What a report is recognised by, the most reliable first. */
  datatype Criterion = ByMac | ByAddress | ByName

  const CRITERIA: seq<Criterion> := [ByMac, ByAddress, ByName]

  predicate SameAddress(stored: Value, sought: Value) {
    && stored.Text? && stored.text != "" && stored.address.Some?
    && sought.Text? && sought.text != "" && stored.address == sought.address
  }

  /** The row answers to the report by this criterion; a report without a name goes by its host name. */
  predicate Answers(row: Row, r: Report, c: Criterion) {
    match c
    case ByMac => SameAddress(Get(row.values, Mac), Get(r.given, Mac))
    case ByAddress => SameAddress(Get(row.values, Ip), Get(r.given, Ip))
    case ByName =>
      var name := if Present(Get(r.given, Name)) then Get(r.given, Name) else r.hostname;
      Present(name) && Get(row.values, Name) == name
  }

  ghost predicate SomeAnswers(rows: seq<Row>, r: Report, c: Criterion) {
    exists i :: 0 <= i < |rows| && Answers(rows[i], r, c)
  }

  /** The first criterion any row answers to. */
  ghost predicate Decides(rows: seq<Row>, r: Report, k: nat) {
    && k < |CRITERIA| && SomeAnswers(rows, r, CRITERIA[k])
    && forall j :: 0 <= j < k ==> !SomeAnswers(rows, r, CRITERIA[j])
  }

  lemma SelectAnswers(rows: seq<Row>, r: Report, c: Criterion, f: Field, v: Value)
    requires forall i :: 0 <= i < |rows| ==> (Same(f, Get(rows[i].values, f), v) <==> Answers(rows[i], r, c))
    ensures Select(rows, f, v).NoRow? <==> !SomeAnswers(rows, r, c)
    ensures forall i: nat :: Select(rows, f, v) == One(i) ==>
              i < |rows| && Answers(rows[i], r, c) && forall j :: 0 <= j < |rows| && Answers(rows[j], r, c) ==> j == i
    ensures Select(rows, f, v).Many? ==>
              exists i, j :: 0 <= i < j < |rows| && Answers(rows[i], r, c) && Answers(rows[j], r, c)
  {
    if Select(rows, f, v).Many? {
      var i, j :| 0 <= i < j < |rows| && Same(f, Get(rows[i].values, f), v) && Same(f, Get(rows[j].values, f), v);
      assert Answers(rows[i], r, c) && Answers(rows[j], r, c);
    }
  }

  /** What one criterion finds. */
  function Lookup(rows: seq<Row>, r: Report, c: Criterion): Match {
    match c
    case ByMac => if Present(Get(r.given, Mac)) then Select(rows, Mac, Get(r.given, Mac)) else NoRow
    case ByAddress => if AssetRecords.HasAddress(Get(r.given, Ip)) then Select(rows, Ip, Get(r.given, Ip)) else NoRow
    case ByName => if Present(MatchName(r)) then Select(rows, Name, MatchName(r)) else NoRow
  }

  lemma LookupAnswers(rows: seq<Row>, r: Report, c: Criterion)
    ensures Lookup(rows, r, c).NoRow? <==> !SomeAnswers(rows, r, c)
    ensures forall i: nat :: Lookup(rows, r, c) == One(i) ==>
              i < |rows| && Answers(rows[i], r, c) && forall j :: 0 <= j < |rows| && Answers(rows[j], r, c) ==> j == i
    ensures Lookup(rows, r, c).Many? ==>
              exists i, j :: 0 <= i < j < |rows| && Answers(rows[i], r, c) && Answers(rows[j], r, c)
  {
    match c
    case ByMac =>
      if Present(Get(r.given, Mac)) { SelectAnswers(rows, r, c, Mac, Get(r.given, Mac)); }
    case ByAddress =>
      if AssetRecords.HasAddress(Get(r.given, Ip)) { SelectAnswers(rows, r, c, Ip, Get(r.given, Ip)); }
    case ByName =>
      if Present(MatchName(r)) { SelectAnswers(rows, r, c, Name, MatchName(r)); }
  }

  lemma FindIsFirstLookup(rows: seq<Row>, r: Report)
    ensures var mac, address, name := Lookup(rows, r, ByMac), Lookup(rows, r, ByAddress), Lookup(rows, r, ByName);
            FindAsset(rows, r) == if mac != NoRow then mac else if address != NoRow then address else name
  {}

  /**
    The lookup goes by the first criterion any row answers to: it finds the only row that
    answers to it, is ambiguous when several do, and finds nothing when no row answers to any.
   */
  lemma LookupIsExact(rows: seq<Row>, r: Report, k: nat)
    ensures FindAsset(rows, r).NoRow? <==> forall c: Criterion :: !SomeAnswers(rows, r, c)
    ensures Decides(rows, r, k) ==>
              match FindAsset(rows, r)
              case NoRow => false
              case One(i) =>
                i < |rows| && Answers(rows[i], r, CRITERIA[k])
                && forall j :: 0 <= j < |rows| && Answers(rows[j], r, CRITERIA[k]) ==> j == i
              case Many =>
                exists i, j :: 0 <= i < j < |rows| && Answers(rows[i], r, CRITERIA[k]) && Answers(rows[j], r, CRITERIA[k])
  {
    LookupAnswers(rows, r, ByMac);
    LookupAnswers(rows, r, ByAddress);
    LookupAnswers(rows, r, ByName);
    FindIsFirstLookup(rows, r);
    if Decides(rows, r, k) {
      assert CRITERIA[0] == ByMac && CRITERIA[1] == ByAddress && CRITERIA[2] == ByName;
      assert k > 0 ==> !SomeAnswers(rows, r, CRITERIA[0]);
      assert k > 1 ==> !SomeAnswers(rows, r, CRITERIA[1]);
    }
  }

  // ---------- a created row ----------

  /** What a field of a created row is when the report has no entry for it. */
  const DEFAULTS: map<Field, string> :=
    map[Segment := "Unknown", EdrStatus := "None", ControlCoverage := "none", NetworkExposure := "internal",
        AuthMethod := "password", Criticality := "medium", DataClassification := "Internal"]

  /** Each field as the report gives it, or else its default. */
  ghost predicate CreatedWith(r: Report, f: Field, v: Value) {
    && (f in r.given && Present(r.given[f]) ==> v == r.given[f])
    && (f in DEFAULTS ==> v == if f in r.given then r.given[f] else Plain(DEFAULTS[f]))
    && (f in [Ip, Mac] ==> v == if f in r.given then r.given[f] else Null)
    && (f.Os? && !Present(Get(r.given, Os)) ==> v == r.osGuess)
    && (f.Name? && !Present(Get(r.given, Name)) ==>
          v == if Present(r.hostname) then r.hostname else if Ip in r.given then r.given[Ip] else Plain("unknown"))
  }

  lemma InitialIsCreatedWith(r: Report, f: Field)
    ensures CreatedWith(r, f, InitialValue(r, f))
  {}

  /** A report nothing answers to becomes a row at the end: seen now, not stale, reported by this source alone. */
  lemma UnmatchedReportCreatesRow(store: Store, source: Source, r: Report, now: int, f: Field)
    requires FindAsset(store.rows, r) == NoRow
    ensures var o := Reconcile(store, source, r, now);
            && o.result == |store.rows| && |o.store.rows| == |store.rows| + 1 && o.store.rows[..|store.rows|] == store.rows
            && var row := o.store.rows[|store.rows|];
               && row.sources == [source] && row.lastSeen == now && !row.isStale && row.isShadow == !Authoritative(source)
               && row.software == r.software && row.cpes == r.cpes && row.dependencies == r.dependencies
               && row.kind == r.kind.GetOr(Plain("Unknown")) && CreatedWith(r, f, Get(row.values, f))
  {
    CreateRows(store, source, r, now);
    InitialIsCreatedWith(r, f);
    assert forall s :: s in [source] <==> s == source;
  }

  // ---------- a merged row ----------

  /** A report one row answers to changes that row alone; its kind and its other attributes stay. */
  lemma MatchedReportUpdatesRow(store: Store, source: Source, r: Report, now: int, k: nat)
    requires Sound(store, now) && FindAsset(store.rows, r).One? && k < |store.rows|
    ensures var o, i := Reconcile(store, source, r, now), FindAsset(store.rows, r).row;
            && !o.raised && o.result == i && |o.store.rows| == |store.rows|
            && (k != i ==> o.store.rows[k] == store.rows[k])
            && (k == i ==>
                  var a, b := store.rows[i], o.store.rows[i];
                  && b.kind == a.kind && b.otherAttrs == a.otherAttrs
                  && b.lastSeen == now && !b.isStale && b.services == r.services
                  && a.sources <= b.sources && source in b.sources && |b.sources| <= |a.sources| + 1
                  && forall f :: Get(b.values, f) == Get(a.values, f) || (Present(Get(r.given, f)) && Get(b.values, f) == Get(r.given, f)))
  {
    MergeKeepsSound(store, FindAsset(store.rows, r).row, source, r, now);
  }

  // ---------- a row after its reports ----------

  lemma {:induction false} HistoryIsSeen(ss: Stream)
    ensures var row := History(ss);
            && row.lastSeen == ss.last.now && !row.isStale
            && row.kind == Opening(ss).report.kind.GetOr(Plain("Unknown"))
            && row.services == (if ss.First? then [] else ss.last.report.services)
            && (row.isShadow <==> forall s :: In(s, ss) ==> !Authoritative(s.source))
  {
    HistorySources(ss);
    match ss
    case First(s) =>
      assert forall x :: x in [s.source] <==> x == s.source;
    case Then(before, s) => HistoryIsSeen(before);
  }

  /**
    In every run a row was last seen when the last report settled on it, keeps the kind it was
    created with and the services of its last report, and is shadow exactly as long as no
    authoritative source reported it.
   */
  lemma RunRowsAreSeen(events: seq<Timed>, row: nat)
    requires row < |Run(EMPTY, events).rows|
    ensures Sub(events, row).Some?
    ensures var ss, a := Sub(events, row).value, Run(EMPTY, events).rows[row];
            && a.lastSeen == ss.last.now
            && a.kind == Opening(ss).report.kind.GetOr(Plain("Unknown"))
            && a.services == (if ss.First? then [] else ss.last.report.services)
            && (a.isShadow <==> forall s :: In(s, ss) ==> !Authoritative(s.source))
  {
    RowsAreHistories(events, row);
    HistoryIsSeen(Sub(events, row).value);
  }

  /** A sweep later than the last report on the row looked further than that report. */
  ghost predicate SweptSince(events: seq<Timed>, row: nat) {
    exists k: nat :: && k < |events| && events[k].event.StaleSwept?
                     && Sub(events[..k], row).Some? && Sub(events[..k], row) == Sub(events, row)
                     && Sub(events, row).value.last.now < events[k].now - events[k].event.cutoffAge
  }

  lemma SweptSinceNext(events: seq<Timed>, row: nat)
    requires events != [] && Sub(events, row).Some?
    ensures var last := |events| - 1;
            var e, before := events[last], events[..last];
            SweptSince(events, row) <==>
              && Sub(before, row) == Sub(events, row)
              && (SweptSince(before, row)
                  || (e.event.StaleSwept? && Sub(events, row).value.last.now < e.now - e.event.cutoffAge))
  {
    var last := |events| - 1;
    var before := events[..last];
    assert forall k :: 0 <= k <= last ==> before[..k] == events[..k];
    if SweptSince(events, row) {
      var k: nat :| && k < |events| && events[k].event.StaleSwept?
                    && Sub(events[..k], row).Some? && Sub(events[..k], row) == Sub(events, row)
                    && Sub(events, row).value.last.now < events[k].now - events[k].event.cutoffAge;
      SubBetween(events, k, last, row);
      if k < last {
        assert before[k] == events[k] && before[..k] == events[..k];
      }
    }
    if Sub(before, row) == Sub(events, row) && SweptSince(before, row) {
      var k: nat :| && k < |before| && before[k].event.StaleSwept?
                    && Sub(before[..k], row).Some? && Sub(before[..k], row) == Sub(before, row)
                    && Sub(before, row).value.last.now < before[k].now - before[k].event.cutoffAge;
      assert events[k] == before[k] && events[..k] == before[..k];
    }
  }

  /** What settled on a row does not come back to an earlier state. */
  lemma SubBetween(events: seq<Timed>, j: nat, k: nat, row: nat)
    requires j <= k <= |events| && Sub(events[..j], row).Some? && Sub(events[..j], row) == Sub(events, row)
    ensures Sub(events[..k], row) == Sub(events, row)
  {
    assert events[..k][..j] == events[..j];
    SubGrows(events[..k], j, row);
    SubGrows(events, k, row);
    Mutual(Sub(events[..j], row).value, Sub(events[..k], row).value);
  }

  function Depth(ss: Stream): nat { if ss.First? then 0 else Depth(ss.before) + 1 }

  lemma {:induction false} EarlierIsShorter(tt: Stream, ss: Stream)
    requires Earlier(tt, ss)
    ensures tt == ss || Depth(tt) < Depth(ss)
  {
    if tt != ss { EarlierIsShorter(tt, ss.before); }
  }

  lemma Mutual(tt: Stream, ss: Stream)
    requires Earlier(tt, ss) && Earlier(ss, tt)
    ensures tt == ss
  {
    EarlierIsShorter(tt, ss);
    EarlierIsShorter(ss, tt);
  }

  /** One event and the stale flag of a row it does not report on. */
  lemma OtherEventsAndStaleFlag(store: Store, e: Timed, row: nat)
    requires Sound(store, e.now) && row < |store.rows| && !Settles(store, e, row)
    ensures row < |Next(store, e).rows|
    ensures Next(store, e).rows[row].isStale <==>
              store.rows[row].isStale || (e.event.StaleSwept? && store.rows[row].lastSeen < e.now - e.event.cutoffAge)
  {
    if e.event.StaleSwept? {
      StaleSweepKeepsInv(store, e.now - e.event.cutoffAge, e.now);
    } else if CarriesReport(e) && !Effect(store, e).raised {
      ReportWritesOneRow(store, e);
    }
  }

  lemma ReportClearsStaleFlag(store: Store, e: Timed, row: nat)
    requires Settles(store, e, row)
    ensures row < |Next(store, e).rows| && !Next(store, e).rows[row].isStale
  {
    ReportWritesOneRow(store, e);
  }

  lemma MoreIsLater(sub: Option<Stream>, s: Sighting)
    ensures Some(More(sub, s)) != sub
  {
    if sub.Some? { assert Depth(More(sub, s)) == Depth(sub.value) + 1; }
  }

  /** In every run a row is stale exactly when a sweep since its last report found that report too old. */
  lemma {:induction false} RunStaleExactly(events: seq<Timed>, start: int, row: nat)
    requires InOrder(start, events) && row < |Run(EMPTY, events).rows|
    ensures Sub(events, row).Some?
    ensures Run(EMPTY, events).rows[row].isStale <==> SweptSince(events, row)
  {
    RowsAreHistories(events, row);
    if events != [] {
      var before, e := events[..|events| - 1], events[|events| - 1];
      var store := Run(EMPTY, before);
      RowsAreHistories(before, row);
      SweptSinceNext(events, row);
      if Settles(store, e, row) {
        ReportClearsStaleFlag(store, e, row);
        MoreIsLater(Sub(before, row), SightingOf(e));
      } else {
        RunStaleExactly(before, start, row);
        RunKeepsSound(EMPTY, start, before);
        assert ClockAfter(start, before) <= e.now;
        HistoryIsSeen(Sub(before, row).value);
        OtherEventsAndStaleFlag(store, e, row);
      }
    }
  }

  // ---------- priorities and alerts at the endpoint ----------

  /** The sources, the most trusted first; the others come last. */
  const TIERS: seq<set<Source>> :=
    [{EdrCrowdstrike, EdrSentinelone, EdrDefender}, {NacCiscoIse, NacAruba},
     {AdLdap, AzureAd, CloudAws, CloudAzure, CloudGcp}, {CmdbServicenow, CmdbJira, AssetApi},
     {VulnNessus, VulnQualys, VulnRapid7}, {DhcpDns, Infoblox}, {NmapScan}, {Manual}]

  lemma PriorityOfTier(a: Source, i: nat)
    requires i < |TIERS| && a in TIERS[i]
    ensures Priority(a) == 10 - i
  {
    match i
    case 0 => case 1 => case 2 => case 3 => case 4 => case 5 => case 6 => case _ =>
  }

  /** Sources of one tier count the same, an earlier tier counts more, and anything listed more than the others. */
  lemma PrioritiesFollowTiers(a: Source, b: Source, i: nat, j: nat)
    requires i <= j < |TIERS| && a in TIERS[i]
    ensures b in TIERS[j] ==> (Priority(a) == Priority(b) <==> i == j) && Priority(a) >= Priority(b)
    ensures b.Other? ==> Priority(a) > Priority(b)
  {
    PriorityOfTier(a, i);
    if b in TIERS[j] { PriorityOfTier(b, j); }
  }

  /** Authoritative are exactly the endpoint agents, the directories and clouds, and the inventories. */
  lemma AuthoritativeTiers(s: Source)
    ensures Authoritative(s) <==> s in TIERS[0] || s in TIERS[2] || s in TIERS[3]
  {}

  /** Resolving closes one alert, open or not, and changes nothing else. */
  lemma ResolvingClosesOne(store: Store, alert: nat, k: nat)
    requires k < |store.alerts|
    ensures var o := Resolve(store, alert);
            && o.store.rows == store.rows && |o.store.alerts| == |store.alerts|
            && (o.raised <==> alert >= |store.alerts|)
            && o.store.alerts[k] == (if k == alert then store.alerts[k].(open := false) else store.alerts[k])
  {}
}
