/** The import endpoint: two loops over the rows and the asset names it adds to. */
module CsvImporter {
  import opened CsvImportRules
  import opened CsvImportTheorems
  import opened Options
  import opened Texts

  class AssetTable {
    var names: seq<string>

    constructor ()
      ensures names == []
    {
      names := [];
    }

    /** The first pass; it stops at the first row over the limit. */
    method PreScan(header: Row, rows: seq<Row>) returns (scanned: Scanned, tooMany: bool)
      ensures tooMany <==> |rows| > MAX_ROWS
      ensures !tooMany ==> scanned == Scan(ScannedNames(header, rows))
    {
      scanned, tooMany := Scanned(map[], []), false;
      for i := 0 to |rows|
        invariant i <= MAX_ROWS && scanned == Scan(ScannedNames(header, rows[..i]))
      {
        if i + 1 > MAX_ROWS {
          return scanned, true;
        }
        ScannedNamesNext(header, rows, i);
        var name := ScannedName(header, rows[i]);
        if name != "" {
          if name in scanned.seen {
            scanned := scanned.(duplicates := scanned.duplicates + [i + 2]);
          } else {
            scanned := scanned.(seen := scanned.seen[name := i + 2]);
          }
        }
      }
      assert rows[..|rows|] == rows;
    }

    /** The second pass: what it would insert, the rows it cannot, and the start of a dry run's list. */
    method ImportRows(header: Row, rows: seq<Row>, dryRun: bool)
      returns (created: nat, errors: seq<nat>, preview: seq<string>)
      modifies this
      ensures var r := Import(AcceptedNames(header, rows));
              && created == |r.names| && errors == r.errors
              && preview == Finish(r, dryRun).preview
              && names == if dryRun then old(names) else old(names) + r.names
    {
      created, errors, preview := 0, [], [];
      for i := 0 to |rows|
        invariant var r := Import(AcceptedNames(header, rows[..i]));
                  && created == |r.names| && errors == r.errors
                  && preview == Finish(r, dryRun).preview
                  && names == if dryRun then old(names) else old(names) + r.names
      {
        AcceptedNamesNext(header, rows, i);
        var name := Accepted(header, rows[i]);
        if name.None? {
          errors := errors + [i + 2];
        } else {
          if dryRun {
            if |preview| < PREVIEW {
              preview := preview + [name.value];
            }
          } else {
            names := names + [name.value];
          }
          created := created + 1;
        }
      }
      assert rows[..|rows|] == rows;
    }

    /** The endpoint.  Under a safe header the table's names stay distinct. */
    method ImportAssetsCsv(header: Row, rows: seq<Row>, dryRun: bool) returns (outcome: Outcome)
      modifies this
      ensures outcome == ImportAssets(header, rows, dryRun, (set name | name in old(names)))
      ensures names == old(names) + (if outcome.Done? then outcome.inserted else [])
      ensures SafeHeader(header) && Distinct(old(names)) ==> Distinct(names)
    {
      ghost var store := set name | name in names;
      if SafeHeader(header) {
        SafeHeadersKeepNamesNew(header, rows, store);
      }
      outcome := Refused(EmptyCsv);
      if header == [] {
        return;
      }
      if !HasRequired(header) {
        return Refused(MissingColumns);
      }
      var scanned, tooMany := PreScan(header, rows);
      if tooMany {
        return Refused(TooManyRows);
      }
      if scanned.duplicates != [] {
        return Refused(DuplicateNames);
      }
      if !dryRun && exists name :: name in scanned.seen && name in names {
        return Refused(ExistingNames);
      }
      assert dryRun || !exists name :: name in scanned.seen && name in store;
      var created, errors, preview := ImportRows(header, rows, dryRun);
      outcome := Done(created, errors, if dryRun then [] else names[|names| - created..], preview);
    }
  }

  lemma ScannedNamesNext(header: Row, rows: seq<Row>, i: nat)
    requires i < |rows|
    ensures Scan(ScannedNames(header, rows[..i + 1]))
         == ScanNext(Scan(ScannedNames(header, rows[..i])), ScannedName(header, rows[i]), i + 2)
  {
    assert ScannedNames(header, rows[..i + 1])[..i] == ScannedNames(header, rows[..i]);
  }

  lemma AcceptedNamesNext(header: Row, rows: seq<Row>, i: nat)
    requires i < |rows|
    ensures Import(AcceptedNames(header, rows[..i + 1]))
         == ImportNext(Import(AcceptedNames(header, rows[..i])), Accepted(header, rows[i]), i + 2)
  {
    assert AcceptedNames(header, rows[..i + 1])[..i] == AcceptedNames(header, rows[..i]);
  }
}
