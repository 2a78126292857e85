/**
  Convergence of one asset under a stream of reports: who wins each field, whatever the
  order the sources report in, and who wrote it last.
 */
module ReconcileConvergence {
  import opened AssetRecords
  import opened Options
  import opened ReconcileRules
  import opened ReconcileTheorems

  datatype Sighting = Sighting(source: Source, report: Report, now: int)

  /** A non-empty stream of sightings, latest last. */
  datatype Stream = First(last: Sighting) | Then(before: Stream, last: Sighting)

  ghost predicate In(s: Sighting, ss: Stream) {
    s == ss.last || (ss.Then? && In(s, ss.before))
  }

  /** The asset created from the first sighting and merged with the others. */
  function History(ss: Stream): Row {
    match ss
    case First(s) => CreateRow(s.source, s.report, s.now)
    case Then(before, s) => MergeRow(History(before), s.source, s.report, s.now)
  }

  function P(s: Sighting): nat { Priority(s.source) }

  predicate Offers(s: Sighting, f: Field) { Present(Get(s.report.given, f)) }

  /** The highest priority that ever reported. */
  function Best(ss: Stream): (p: nat)
    ensures forall s :: In(s, ss) ==> P(s) <= p
    ensures exists s :: In(s, ss) && P(s) == p
  {
    match ss
    case First(s) =>
      assert In(s, ss);
      P(s)
    case Then(before, s) =>
      assert In(s, ss);
      if P(s) >= Best(before) then P(s)
      else
        assert forall x :: In(x, before) ==> In(x, ss);
        Best(before)
  }

  // ---------- acceptance in terms of the past ----------

  lemma {:induction false} HistorySources(ss: Stream)
    ensures forall s :: In(s, ss) ==> s.source in History(ss).sources
    ensures forall x :: x in History(ss).sources ==> exists s :: In(s, ss) && s.source == x
  {
    assert In(ss.last, ss);
    if ss.Then? {
      HistorySources(ss.before);
      assert forall s :: In(s, ss.before) ==> In(s, ss);
    }
  }

  /** An unlisted source never outranks a listed one, and always outranks nobody. */
  lemma PriorityOfHeld(s: Source)
    ensures Priority(s) == if HeldPriority(s) == 0 then 1 else HeldPriority(s)
  {
  }

  lemma BestOfHeld(ss: Stream)
    ensures Best(ss) == var p := ExistingPriority(History(ss).sources); if p == 0 then 1 else p
  {
    HistorySources(ss);
    var sources := History(ss).sources;
    var top :| In(top, ss) && P(top) == Best(ss);
    PriorityOfHeld(top.source);
    assert top.source in sources;
    if ExistingPriority(sources) != 0 {
      var x :| x in sources && HeldPriority(x) == ExistingPriority(sources);
      PriorityOfHeld(x);
      var t :| In(t, ss) && t.source == x;
      assert P(t) <= Best(ss);
    }
  }

  /** A source is accepted exactly when nobody of higher priority has reported before. */
  lemma AcceptedIffNobodyBetter(ss: Stream, s: Source)
    ensures Accepted(History(ss).sources, s) <==> Best(ss) <= Priority(s)
  {
    BestOfHeld(ss);
    PriorityOfHeld(s);
  }

  // ---------- convergence ----------

  /** The last sighting of priority `p` that carries field `f`. */
  function LastOffer(ss: Stream, p: nat, f: Field): Option<Sighting> {
    if P(ss.last) == p && Offers(ss.last, f) then Some(ss.last)
    else if ss.First? then None
    else LastOffer(ss.before, p, f)
  }

  lemma {:induction false} OfferIsIn(ss: Stream, p: nat, f: Field)
    ensures LastOffer(ss, p, f).Some? ==> In(LastOffer(ss, p, f).value, ss) && P(LastOffer(ss, p, f).value) == p
  {
    if ss.Then? { OfferIsIn(ss.before, p, f); }
  }

  /** One more sighting writes a field when its source is accepted and offers it. */
  lemma OneMoreSighting(before: Stream, s: Sighting, f: Field)
    ensures Get(History(Then(before, s)).values, f)
         == if Best(before) <= P(s) && Offers(s, f) then Get(s.report.given, f) else Get(History(before).values, f)
  {
    AcceptedIffNobodyBetter(before, s.source);
  }

  lemma BestOfMore(before: Stream, s: Sighting)
    ensures Best(Then(before, s)) == if P(s) >= Best(before) then P(s) else Best(before)
  {
  }

  lemma OnlySightingDecides(s: Sighting, f: Field)
    requires Offers(s, f)
    ensures Get(History(First(s)).values, f) == Get(s.report.given, f)
  {
  }

  /**
    A field ends at the last offer made with the highest priority that ever reported, if
    there was one; complete reports are not needed for the field to converge.
   */
  lemma {:induction false} FieldConverges(ss: Stream, f: Field)
    requires LastOffer(ss, Best(ss), f).Some?
    ensures Get(History(ss).values, f) == Get(LastOffer(ss, Best(ss), f).value.report.given, f)
  {
    match ss
    case First(s) =>
      OnlySightingDecides(s, f);
    case Then(before, s) =>
      OneMoreSighting(before, s, f);
      BestOfMore(before, s);
      OfferIsIn(before, Best(ss), f);
      if P(s) < Best(ss) || !Offers(s, f) {
        FieldConverges(before, f);
      }
  }

  ghost predicate AllComplete(ss: Stream) {
    forall s, f: Field :: In(s, ss) ==> Offers(s, f)
  }

  /** The sightings of one priority, in arrival order. */
  function OfPriority(ss: Stream, p: nat): seq<Sighting> {
    (if ss.Then? then OfPriority(ss.before, p) else []) + (if P(ss.last) == p then [ss.last] else [])
  }

  lemma {:induction false} LastOfPriority(ss: Stream, p: nat, f: Field)
    requires AllComplete(ss)
    ensures LastOffer(ss, p, f).Some? <==> OfPriority(ss, p) != []
    ensures var tops := OfPriority(ss, p);
            tops != [] ==> LastOffer(ss, p, f).value == tops[|tops| - 1]
  {
    assert In(ss.last, ss);
    if ss.Then? {
      assert forall s :: In(s, ss.before) ==> In(s, ss);
      LastOfPriority(ss.before, p, f);
    }
  }

  lemma {:induction false} SomeOfPriority(ss: Stream, s: Sighting)
    requires In(s, ss)
    ensures OfPriority(ss, P(s)) != []
  {
    if s != ss.last { SomeOfPriority(ss.before, s); }
  }

  /**
    Main result on convergence: with complete reports every one of the eleven fields ends
    at the last report of maximal priority, whatever order the sources reported in.
   */
  lemma Converges(ss: Stream)
    requires AllComplete(ss)
    ensures var tops := OfPriority(ss, Best(ss));
            tops != [] && forall f: Field :: Get(History(ss).values, f) == Get(tops[|tops| - 1].report.given, f)
  {
    var tops := OfPriority(ss, Best(ss));
    var top :| In(top, ss) && P(top) == Best(ss);
    SomeOfPriority(ss, top);
    forall f: Field
      ensures Get(History(ss).values, f) == Get(tops[|tops| - 1].report.given, f)
    {
      LastOfPriority(ss, Best(ss), f);
      FieldConverges(ss, f);
    }
  }

  /**
    Two streams that agree on the reports of maximal priority converge to the same fields,
    however the other reports are chosen and wherever they arrive.
   */
  lemma InterleavingIsIrrelevant(ss: Stream, tt: Stream)
    requires AllComplete(ss) && AllComplete(tt)
    requires OfPriority(ss, Best(ss)) == OfPriority(tt, Best(tt))
    ensures forall f: Field :: Get(History(ss).values, f) == Get(History(tt).values, f)
  {
    Converges(ss);
    Converges(tt);
  }

  /** The sighting that created the row. */
  function Opening(ss: Stream): Sighting {
    if ss.First? then ss.last else Opening(ss.before)
  }

  lemma OfferedInitially(r: Report, f: Field)
    requires Present(Get(r.given, f))
    ensures InitialValue(r, f) == Get(r.given, f)
  {
  }

  lemma {:induction false} OpeningIsIn(ss: Stream)
    ensures In(Opening(ss), ss)
  {
    if ss.Then? { OpeningIsIn(ss.before); }
  }

  /** A field that nobody of maximal priority offers stays as created, when the creator had that priority. */
  lemma {:induction false} UnofferedStaysInitial(ss: Stream, f: Field)
    requires P(Opening(ss)) == Best(ss) && LastOffer(ss, Best(ss), f).None?
    ensures Get(History(ss).values, f) == InitialValue(Opening(ss).report, f)
  {
    if ss.Then? {
      BestOfMore(ss.before, ss.last);
      OneMoreSighting(ss.before, ss.last, f);
      OpeningIsIn(ss.before);
      UnofferedStaysInitial(ss.before, f);
    }
  }

  /**
    Reports of two priorities, in either order: a field ends the same exactly when the better
    source offers it, or both would create it the same.
   */
  lemma OrderMattersExactly(low: Sighting, high: Sighting, f: Field)
    requires P(low) < P(high)
    ensures Get(History(Then(First(high), low)).values, f) == Get(History(Then(First(low), high)).values, f) <==>
              Offers(high, f) || InitialValue(high.report, f) == InitialValue(low.report, f)
  {
    OneMoreSighting(First(high), low, f);
    OneMoreSighting(First(low), high, f);
    if Offers(high, f) { OfferedInitially(high.report, f); }
  }

  // ---------- the sets that only grow ----------

  /** The three sets every report enriches, whatever its priority. */
  datatype Pool = Software | Cpes | Dependencies

  function Reported(s: Sighting, pool: Pool): set<string> {
    match pool
    case Software => s.report.software
    case Cpes => s.report.cpes
    case Dependencies => s.report.dependencies
  }

  function Stock(row: Row, pool: Pool): set<string> {
    match pool
    case Software => row.software
    case Cpes => row.cpes
    case Dependencies => row.dependencies
  }

  /** They end as the union of all reports. */
  lemma {:induction false} Enriched(ss: Stream, pool: Pool, x: string)
    ensures x in Stock(History(ss), pool) <==> exists s :: In(s, ss) && x in Reported(s, pool)
  {
    assert In(ss.last, ss);
    var s := ss.last;
    if ss.First? {
      assert Stock(History(ss), pool) == Reported(s, pool);
    } else {
      Enriched(ss.before, pool, x);
      var was := History(ss.before);
      assert Stock(MergeRow(was, s.source, s.report, s.now), pool) == Stock(was, pool) + Reported(s, pool);
      assert forall t :: In(t, ss) <==> t == s || In(t, ss.before);
    }
  }

  // ---------- provenance ----------

  /** The source that wrote field `f` last. */
  function Writer(ss: Stream, f: Field): Source {
    match ss
    case First(s) => s.source
    case Then(before, s) =>
      if Accepted(History(before).sources, s.source) && Offers(s, f) then s.source else Writer(before, f)
  }

  lemma {:induction false} WriterReported(ss: Stream, f: Field)
    ensures exists s :: In(s, ss) && s.source == Writer(ss, f)
  {
    assert In(ss.last, ss);
    if ss.Then? {
      WriterReported(ss.before, f);
      assert forall s :: In(s, ss.before) ==> In(s, ss);
    }
  }

  /** `tt` is an earlier state of the stream `ss`. */
  predicate Earlier(tt: Stream, ss: Stream) {
    tt == ss || (ss.Then? && Earlier(tt, ss.before))
  }

  /** The priority behind a field never falls along a run. */
  lemma {:induction false} ProvenanceNeverFalls(tt: Stream, ss: Stream, f: Field)
    requires Earlier(tt, ss)
    ensures Priority(Writer(tt, f)) <= Priority(Writer(ss, f))
  {
    if tt != ss {
      ProvenanceNeverFalls(tt, ss.before, f);
      AcceptedIffNobodyBetter(ss.before, ss.last.source);
      WriterReported(ss.before, f);
    }
  }

  /** A field that changes takes the value its new writer reported. */
  lemma ChangesHaveAWriter(ss: Stream, f: Field)
    requires ss.Then? && Get(History(ss).values, f) != Get(History(ss.before).values, f)
    ensures Writer(ss, f) == ss.last.source && Get(History(ss).values, f) == Get(ss.last.report.given, f)
  {
    var s, row := ss.last, History(ss.before);
    assert History(ss).values
        == if Accepted(row.sources, s.source) then Overwrite(row.values, s.report.given) else row.values;
    assert Get(Overwrite(row.values, s.report.given), f)
        == if Offers(s, f) then Get(s.report.given, f) else Get(row.values, f);
  }

  // ---------- the same, inside the store ----------

  /** The reconciler fed with a stream; a call that raises stops it. */
  function ReconcileAll(store: Store, ss: Stream): Outcome {
    match ss
    case First(s) => Reconcile(store, s.source, s.report, s.now)
    case Then(before, s) =>
      var o := ReconcileAll(store, before);
      if o.raised then o else Reconcile(o.store, s.source, s.report, s.now)
  }

  ghost predicate Chronological(ss: Stream) {
    ss.Then? ==> ss.before.last.now <= ss.last.now && Chronological(ss.before)
  }

  /** The report carries a MAC, and it is this one. */
  predicate HasMac(s: Sighting, mac: Value) { Same(Mac, Get(s.report.given, Mac), mac) }

  lemma FirstBuildsOneRow(store: Store, s: Sighting, mac: Value)
    requires StoreInv(store, s.now) && HasMac(s, mac)
    requires FindAsset(store.rows, s.report) == NoRow
    ensures var o := Reconcile(store, s.source, s.report, s.now);
            && !o.raised && StoreInv(o.store, s.now)
            && o.store.rows == store.rows + [History(First(s))]
            && Same(Mac, Get(History(First(s)).values, Mac), mac)
  {
    ReconcileKeepsInv(store, s.source, s.report, s.now);
  }

  lemma NextMergesIntoRow(store: Store, s: Sighting, mac: Value, n: nat)
    requires StoreInv(store, s.now) && HasMac(s, mac)
    requires n < |store.rows| && Same(Mac, Get(store.rows[n].values, Mac), mac)
    ensures var o := Reconcile(store, s.source, s.report, s.now);
            && !o.raised && StoreInv(o.store, s.now)
            && o.store.rows == store.rows[n := MergeRow(store.rows[n], s.source, s.report, s.now)]
            && Same(Mac, Get(o.store.rows[n].values, Mac), mac)
  {
    MacLookupIsUnambiguous(store.rows, Get(s.report.given, Mac));
    assert Same(Mac, Get(store.rows[n].values, Mac), Get(s.report.given, Mac));
    assert FindAsset(store.rows, s.report) == One(n);
    MergeKeepsSound(store, n, s.source, s.report, s.now);
    MergeKeepsMacsUnique(store.rows, n, s.source, s.report, s.now);
  }

  /** The stream so far built one new row, which has the MAC. */
  ghost predicate OneNewRow(store: Store, ss: Stream, mac: Value) {
    var o := ReconcileAll(store, ss);
    && !o.raised && StoreInv(o.store, ss.last.now)
    && o.store.rows == store.rows + [History(ss)]
    && Same(Mac, Get(History(ss).values, Mac), mac)
  }

  lemma InvLater(store: Store, t1: int, t2: int)
    requires StoreInv(store, t1) && t1 <= t2
    ensures StoreInv(store, t2)
  {}

  lemma StaysOneNewRow(store: Store, before: Stream, s: Sighting, mac: Value)
    requires OneNewRow(store, before, mac)
    requires before.last.now <= s.now && HasMac(s, mac)
    ensures OneNewRow(store, Then(before, s), mac)
  {
    var mid := ReconcileAll(store, before).store;
    InvLater(mid, before.last.now, s.now);
    NextMergesIntoRow(mid, s, mac, |store.rows|);
    var row := History(Then(before, s));
    assert (store.rows + [History(before)])[|store.rows| := row] == store.rows + [row];
  }

  /**
    Reports that share a MAC, however they spell it, and are new to the store all land on one
    new row, which is their `History`; every other row is untouched.
   */
  lemma {:induction false} SharedMacBuildsOneRow(store: Store, ss: Stream, mac: Value)
    requires Chronological(ss) && StoreInv(store, Opening(ss).now)
    requires forall s :: In(s, ss) ==> HasMac(s, mac)
    requires FindAsset(store.rows, Opening(ss).report) == NoRow
    ensures OneNewRow(store, ss, mac)
  {
    assert In(ss.last, ss);
    match ss
    case First(s) =>
      FirstBuildsOneRow(store, s, mac);
    case Then(before, s) =>
      assert forall x :: In(x, before) ==> In(x, ss);
      SharedMacBuildsOneRow(store, before, mac);
      StaysOneNewRow(store, before, s, mac);
  }

  /** Two reports of one MAC, the better source silent about the operating system. */
  function Partial(os: Value): Report {
    Report(map[Mac := Text("aa:bb:cc:dd:ee:ff", Some(1)), Os := os], Null, Null, None, {}, {}, {}, [])
  }

  lemma EmptyIsSound()
    ensures StoreInv(EMPTY, 0)
  {}

  lemma OrderShowsInStore(low: Sighting, high: Sighting, mac: Value)
    requires low.now == high.now == 0 && P(low) < P(high) && HasMac(low, mac) && HasMac(high, mac)
    requires !Offers(high, Os) && InitialValue(high.report, Os) != InitialValue(low.report, Os)
    ensures var o, p := ReconcileAll(EMPTY, Then(First(high), low)), ReconcileAll(EMPTY, Then(First(low), high));
            && !o.raised && !p.raised && |o.store.rows| == |p.store.rows| == 1
            && Get(o.store.rows[0].values, Os) != Get(p.store.rows[0].values, Os)
  {
    EmptyIsSound();
    assert forall r: Report :: FindAsset([], r) == NoRow;
    forall s | In(s, Then(First(high), low)) || In(s, Then(First(low), high))
      ensures HasMac(s, mac)
    {
      assert In(s, First(high)) ==> s == high;
      assert In(s, First(low)) ==> s == low;
    }
    SharedMacBuildsOneRow(EMPTY, Then(First(high), low), mac);
    SharedMacBuildsOneRow(EMPTY, Then(First(low), high), mac);
    OrderMattersExactly(low, high, Os);
  }

  /** Without completeness the order matters: these two orders leave one asset with different systems. */
  lemma IncompleteReportsDependOnOrder()
    ensures var low, high := Sighting(Manual, Partial(Plain("Linux")), 0), Sighting(AdLdap, Partial(Null), 0);
            var o, p := ReconcileAll(EMPTY, Then(First(high), low)), ReconcileAll(EMPTY, Then(First(low), high));
            && !o.raised && !p.raised && |o.store.rows| == |p.store.rows| == 1
            && Get(o.store.rows[0].values, Os) != Get(p.store.rows[0].values, Os)
  {
    var low, high := Sighting(Manual, Partial(Plain("Linux")), 0), Sighting(AdLdap, Partial(Null), 0);
    OrderShowsInStore(low, high, Text("aa:bb:cc:dd:ee:ff", Some(1)));
  }
}
