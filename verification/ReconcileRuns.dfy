/**
  Every row of a run is the history of the reports that settled on it, so what holds of one
  asset under a stream of reports holds of each row while other assets report, sweeps flag and
  alerts are resolved in between.
 */
module ReconcileRuns {
  import opened AssetRecords
  import opened Options
  import opened ReconcileRules
  import opened ReconcileTheorems
  import opened ReconcileConvergence

  // ---------- the reports that settled on a row ----------

  predicate CarriesReport(e: Timed) { e.event.Reported? || e.event.Ingested? }

  function SightingOf(e: Timed): Sighting
    requires CarriesReport(e)
  {
    Sighting(e.event.source, e.event.report, e.now)
  }

  /** The event's report was written to this row, new or old. */
  predicate Settles(store: Store, e: Timed, row: nat) {
    CarriesReport(e) && !Effect(store, e).raised && Effect(store, e).result == row
  }

  function More(before: Option<Stream>, s: Sighting): Stream {
    if before.None? then First(s) else Then(before.value, s)
  }

  /** The reports a run settled on a row, in order; none before the row exists. */
  function Sub(events: seq<Timed>, row: nat): Option<Stream> {
    if events == [] then None
    else
      var init, e := events[..|events| - 1], events[|events| - 1];
      if Settles(Run(EMPTY, init), e, row) then Some(More(Sub(init, row), SightingOf(e))) else Sub(init, row)
  }

  // ---------- what one event does to the rows ----------

  /** Equal but for the stale flag. */
  predicate SameButStale(a: Row, b: Row) { a == b.(isStale := a.isStale) }

  lemma MergeForgetsStale(a: Row, b: Row, source: Source, r: Report, now: int)
    requires SameButStale(a, b)
    ensures MergeRow(a, source, r, now) == MergeRow(b, source, r, now)
  {
  }

  lemma CreateRows(store: Store, source: Source, r: Report, now: int)
    ensures var o := Create(store, source, r, now);
            o.result == |store.rows| && o.store.rows == store.rows + [CreateRow(source, r, now)]
  {
  }

  lemma MergeRows(store: Store, i: nat, source: Source, r: Report, now: int)
    requires i < |store.rows|
    ensures var o := MergeInto(store, i, source, r, now);
            o.result == i && (!o.raised ==> o.store.rows == store.rows[i := MergeRow(store.rows[i], source, r, now)])
  {
  }

  /** A report that goes through writes one row: a new one at the end, or a merge of an old one. */
  lemma ReportWritesOneRow(store: Store, e: Timed)
    requires CarriesReport(e) && !Effect(store, e).raised
    ensures var i, s := Effect(store, e).result, SightingOf(e);
            || (i == |store.rows| && Next(store, e).rows == store.rows + [CreateRow(s.source, s.report, s.now)])
            || (i < |store.rows| && Next(store, e).rows == store.rows[i := MergeRow(store.rows[i], s.source, s.report, s.now)])
  {
    var s := SightingOf(e);
    CreateRows(store, s.source, s.report, s.now);
    if e.event.Reported? && FindAsset(store.rows, s.report).One? {
      MergeRows(store, FindAsset(store.rows, s.report).row, s.source, s.report, s.now);
    }
  }

  lemma StaleSweepOnlyFlags(store: Store, cutoff: int, now: int)
    ensures |StaleSweep(store, cutoff, now).store.rows| == |store.rows|
    ensures forall i :: 0 <= i < |store.rows| ==> SameButStale(StaleSweep(store, cutoff, now).store.rows[i], store.rows[i])
  {
  }

  /** Anything else leaves the rows as they are, but for the stale flag. */
  lemma OthersWriteNoRow(store: Store, e: Timed)
    requires !CarriesReport(e) || Effect(store, e).raised
    ensures |Next(store, e).rows| == |store.rows|
    ensures forall i :: 0 <= i < |store.rows| ==> SameButStale(Next(store, e).rows[i], store.rows[i])
  {
    if e.event.StaleSwept? {
      StaleSweepOnlyFlags(store, e.now - e.event.cutoffAge, e.now);
    }
  }

  // ---------- rows are histories ----------

  /** A row is there exactly when a report settled on it, and then it is their history. */
  predicate IsHistory(rows: seq<Row>, row: nat, sub: Option<Stream>) {
    && (sub.Some? <==> row < |rows|)
    && (sub.Some? ==> SameButStale(rows[row], History(sub.value)))
  }

  lemma NextIsHistory(store: Store, e: Timed, row: nat, sub: Option<Stream>)
    requires IsHistory(store.rows, row, sub)
    ensures IsHistory(Next(store, e).rows, row, if Settles(store, e, row) then Some(More(sub, SightingOf(e))) else sub)
  {
    if CarriesReport(e) && !Effect(store, e).raised {
      var s := SightingOf(e);
      ReportWritesOneRow(store, e);
      if Settles(store, e, row) && sub.Some? {
        MergeForgetsStale(store.rows[row], History(sub.value), s.source, s.report, s.now);
      }
    } else {
      OthersWriteNoRow(store, e);
    }
  }

  /**
    Main result: after any run from the empty store, each row is the history of the reports
    that settled on it, but for the stale flag; no other row exists.
   */
  lemma {:induction false} RowsAreHistories(events: seq<Timed>, row: nat)
    ensures IsHistory(Run(EMPTY, events).rows, row, Sub(events, row))
  {
    if events != [] {
      var init := events[..|events| - 1];
      RowsAreHistories(init, row);
      NextIsHistory(Run(EMPTY, init), events[|events| - 1], row, Sub(init, row));
    }
  }

  // ---------- convergence and provenance over runs ----------

  /** Each field of each row ends at the last report of maximal priority that settled on the row, if those are complete. */
  lemma RunConverges(events: seq<Timed>, row: nat)
    requires row < |Run(EMPTY, events).rows|
    ensures Sub(events, row).Some?
    ensures var ss := Sub(events, row).value;
            var tops := OfPriority(ss, Best(ss));
            AllComplete(ss) ==>
              tops != [] && forall f: Field :: Get(Run(EMPTY, events).rows[row].values, f) == Get(tops[|tops| - 1].report.given, f)
  {
    RowsAreHistories(events, row);
    if AllComplete(Sub(events, row).value) {
      Converges(Sub(events, row).value);
    }
  }

  /** Complete or not: a field ends at the last offer of maximal priority, if one was made. */
  lemma RunFieldConverges(events: seq<Timed>, row: nat, f: Field)
    requires row < |Run(EMPTY, events).rows|
    ensures Sub(events, row).Some?
    ensures var ss := Sub(events, row).value;
            var offer := LastOffer(ss, Best(ss), f);
            && (offer.Some? ==> Get(Run(EMPTY, events).rows[row].values, f) == Get(offer.value.report.given, f))
            && (offer.None? && P(Opening(ss)) == Best(ss) ==>
                  Get(Run(EMPTY, events).rows[row].values, f) == InitialValue(Opening(ss).report, f))
  {
    RowsAreHistories(events, row);
    var ss := Sub(events, row).value;
    if LastOffer(ss, Best(ss), f).Some? {
      FieldConverges(ss, f);
    } else if P(Opening(ss)) == Best(ss) {
      UnofferedStaysInitial(ss, f);
    }
  }

  /** The three sets of each row are the union of what settled on it. */
  lemma RunEnriches(events: seq<Timed>, row: nat, pool: Pool, x: string)
    requires row < |Run(EMPTY, events).rows|
    ensures Sub(events, row).Some?
    ensures x in Stock(Run(EMPTY, events).rows[row], pool) <==>
              exists s :: In(s, Sub(events, row).value) && x in ReconcileConvergence.Reported(s, pool)
  {
    RowsAreHistories(events, row);
    Enriched(Sub(events, row).value, pool, x);
  }

  /** What settled on a row earlier in a run is an earlier state of what settled on it later. */
  lemma {:induction false} SubGrows(events: seq<Timed>, k: nat, row: nat)
    requires k <= |events| && Sub(events[..k], row).Some?
    ensures Sub(events, row).Some? && Earlier(Sub(events[..k], row).value, Sub(events, row).value)
  {
    if k == |events| {
      assert events[..k] == events;
    } else {
      var init := events[..|events| - 1];
      assert init[..k] == events[..k];
      SubGrows(init, k, row);
    }
  }

  /** The source that last wrote a field of a row. */
  function WriterIn(events: seq<Timed>, row: nat, f: Field): Source
    requires Sub(events, row).Some?
  {
    Writer(Sub(events, row).value, f)
  }

  /** Over every run, the priority of the source that last wrote a field of a row never falls. */
  lemma RunProvenanceNeverFalls(events: seq<Timed>, k: nat, row: nat, f: Field)
    requires k <= |events| && row < |Run(EMPTY, events[..k]).rows|
    ensures Sub(events[..k], row).Some? && Sub(events, row).Some?
    ensures Priority(WriterIn(events[..k], row, f)) <= Priority(WriterIn(events, row, f))
  {
    RowsAreHistories(events[..k], row);
    SubGrows(events, k, row);
    ProvenanceNeverFalls(Sub(events[..k], row).value, Sub(events, row).value, f);
  }

  /** One event of a run that changes a field is a report carrying the new value, and its source becomes the writer. */
  lemma RunChangesHaveAWriter(events: seq<Timed>, row: nat, f: Field)
    requires events != [] && row < |Run(EMPTY, events[..|events| - 1]).rows|
    requires row < |Run(EMPTY, events).rows|
    requires Get(Run(EMPTY, events).rows[row].values, f) != Get(Run(EMPTY, events[..|events| - 1]).rows[row].values, f)
    ensures var e := events[|events| - 1];
            && CarriesReport(e) && Sub(events, row).Some?
            && WriterIn(events, row, f) == e.event.source
            && Get(Run(EMPTY, events).rows[row].values, f) == Get(e.event.report.given, f)
  {
    var init := events[..|events| - 1];
    RowsAreHistories(events, row);
    RowsAreHistories(init, row);
    assert Settles(Run(EMPTY, init), events[|events| - 1], row);
    ChangesHaveAWriter(Sub(events, row).value, f);
  }
}
