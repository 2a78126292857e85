/** Every row is accounted for, and for exactly which headers the two passes agree on names. */
module CsvImportTheorems {
  import opened CsvImportRules
  import opened Options
  import opened Texts

  // ---------- counting ----------

  /** Each row is either created or an error, and the errors are the rows the second pass cannot accept. */
  lemma {:induction false} EveryRowCounts(names: seq<Option<string>>)
    ensures var r := Import(names);
            && |r.names| + |r.errors| == |names|
            && (forall n :: n in r.errors <==> 2 <= n < |names| + 2 && names[n - 2].None?)
  {
    if names != [] {
      var init := names[..|names| - 1];
      EveryRowCounts(init);
      assert forall i :: 0 <= i < |init| ==> init[i] == names[i];
    }
  }

  /** Created and errors add up to the data rows; a dry run inserts nothing and shows at most ten. */
  lemma ImportAccountsForRows(header: Row, rows: seq<Row>, dryRun: bool, store: set<string>)
    ensures var o := ImportAssets(header, rows, dryRun, store);
            o.Done? ==>
              && o.created + |o.errors| == |rows| <= MAX_ROWS
              && |o.inserted| == (if dryRun then 0 else o.created)
              && (dryRun ==> |o.preview| == if o.created < PREVIEW then o.created else PREVIEW)
              && (forall n :: n in o.errors <==>
                    2 <= n < |rows| + 2 && (|rows[n - 2]| > |header| || ImportedName(header, rows[n - 2]) == ""))
  {
    var names := AcceptedNames(header, rows);
    EveryRowCounts(names);
    assert forall i :: 0 <= i < |rows| ==> names[i] == Accepted(header, rows[i]);
  }

  // ---------- the first pass ----------

  lemma {:induction false} ScanSees(names: seq<string>, i: nat)
    requires i < |names| && names[i] != ""
    ensures names[i] in Scan(names).seen
  {
    if i < |names| - 1 {
      ScanSees(names[..|names| - 1], i);
    }
  }

  /** Each name was seen in the row it is filed under. */
  lemma {:induction false} SeenAt(names: seq<string>, name: string)
    requires name in Scan(names).seen
    ensures name != "" && 2 <= Scan(names).seen[name] < |names| + 2 && names[Scan(names).seen[name] - 2] == name
  {
    if names != [] && name in Scan(names[..|names| - 1]).seen {
      SeenAt(names[..|names| - 1], name);
    }
  }

  predicate Repeated(names: seq<string>, i: int, j: int) { 0 <= i < j < |names| && names[i] == names[j] != "" }

  lemma RepeatedOfMore(names: seq<string>, i: int, j: int)
    requires names != []
    ensures Repeated(names, i, j) <==>
              || Repeated(names[..|names| - 1], i, j)
              || (0 <= i < j == |names| - 1 && names[i] == names[j] != "")
  {
  }

  /** The first pass objects exactly when two rows have the same name. */
  lemma {:induction false} ScanFindsDuplicates(names: seq<string>)
    ensures Scan(names).duplicates == [] <==> forall i, j :: !Repeated(names, i, j)
  {
    if names != [] {
      var last := |names| - 1;
      var init := names[..last];
      ScanFindsDuplicates(init);
      forall i, j
        ensures Repeated(names, i, j) <==> Repeated(init, i, j) || (0 <= i < j == last && names[i] == names[j] != "")
      {
        RepeatedOfMore(names, i, j);
      }
      if names[last] in Scan(init).seen {
        SeenAt(init, names[last]);
        assert Repeated(names, Scan(init).seen[names[last]] - 2, last);
      } else {
        forall i | 0 <= i < last && names[i] == names[last]
          ensures names[last] == ""
        {
          if init[i] != "" { ScanSees(init, i); }
        }
      }
    }
  }

  /** An import goes through exactly for a usable file whose first-pass names are distinct and, unless it is a dry run, new. */
  lemma ImportGoesThroughExactly(header: Row, rows: seq<Row>, dryRun: bool, store: set<string>)
    ensures var names := ScannedNames(header, rows);
            ImportAssets(header, rows, dryRun, store).Done? <==>
              && header != [] && HasRequired(header) && |rows| <= MAX_ROWS
              && (forall i, j :: !Repeated(names, i, j))
              && (dryRun || forall i :: 0 <= i < |names| && names[i] != "" ==> names[i] !in store)
  {
    ScanFindsDuplicates(ScannedNames(header, rows));
    SeenIsNew(ScannedNames(header, rows), store);
  }

  lemma SeenIsNew(names: seq<string>, store: set<string>)
    ensures (exists name :: name in Scan(names).seen && name in store) <==>
            !(forall i :: 0 <= i < |names| && names[i] != "" ==> names[i] !in store)
  {
    var seen := Scan(names).seen;
    if name :| name in seen && name in store {
      SeenAt(names, name);
    }
    forall i | 0 <= i < |names| && names[i] != ""
      ensures names[i] in seen
    {
      ScanSees(names, i);
    }
  }

  // ---------- names that get in ----------

  predicate Distinct(names: seq<string>) { forall i, j :: 0 <= i < j < |names| ==> names[i] != names[j] }

  /** What an import promises about the names it inserts. */
  predicate NamesAreNew(o: Outcome, store: set<string>) {
    o.Done? ==>
      && (forall i :: 0 <= i < |o.inserted| ==> o.inserted[i] != "" && o.inserted[i] !in store)
      && Distinct(o.inserted)
  }

  /** The column the second pass uses is the one the first pass looks at first. */
  predicate SafeHeader(header: Row) {
    || NameKey(header) == Some("name")
    || (NameKey(header) == Some("Name") && "name" !in header)
  }

  /** Under a safe header, whatever the second pass calls a row the first pass did too. */
  lemma PassesAgree(header: Row, row: Row)
    requires SafeHeader(header) && ImportedName(header, row) != ""
    ensures ScannedName(header, row) == ImportedName(header, row)
  {}

  /** Each accepted name is the first-pass name of its row. */
  predicate Agree(scanned: seq<string>, accepted: seq<Option<string>>) {
    && |scanned| == |accepted|
    && forall i :: 0 <= i < |accepted| && accepted[i].Some? ==> accepted[i].value == scanned[i] != ""
  }

  lemma PassesAgreeOnRows(header: Row, rows: seq<Row>)
    requires SafeHeader(header)
    ensures Agree(ScannedNames(header, rows), AcceptedNames(header, rows))
  {
    forall i | 0 <= i < |rows| && Accepted(header, rows[i]).Some?
      ensures ScannedName(header, rows[i]) == ImportedName(header, rows[i])
    {
      PassesAgree(header, rows[i]);
    }
  }

  lemma {:induction false} ImportedComeFromRows(names: seq<Option<string>>, name: string) returns (i: int)
    requires name in Import(names).names
    ensures 0 <= i < |names| && names[i] == Some(name)
  {
    var last := |names| - 1;
    if names[last] == Some(name) {
      i := last;
    } else {
      i := ImportedComeFromRows(names[..last], name);
    }
  }

  lemma RepeatedIfImportedTwice(scanned: seq<string>, names: seq<Option<string>>) returns (i: int)
    requires Agree(scanned, names) && names != [] && names[|names| - 1].Some?
    requires names[|names| - 1].value in Import(names[..|names| - 1]).names
    ensures Repeated(scanned, i, |names| - 1)
  {
    var last := |names| - 1;
    i := ImportedComeFromRows(names[..last], names[last].value);
    assert names[i] == names[last];
  }

  /** Different rows give different names when the first pass found no repetition. */
  lemma {:induction false} ImportedAreDistinct(scanned: seq<string>, names: seq<Option<string>>)
    requires Agree(scanned, names) && forall i, j :: !Repeated(scanned, i, j)
    ensures Distinct(Import(names).names)
  {
    if names != [] {
      var last := |names| - 1;
      forall i, j
        ensures !Repeated(scanned[..last], i, j)
      {
        assert !Repeated(scanned, i, j);
      }
      ImportedAreDistinct(scanned[..last], names[..last]);
      if names[last].Some? && names[last].value in Import(names[..last]).names {
        var i := RepeatedIfImportedTwice(scanned, names);
      }
    }
  }

  lemma ImportedAreSeen(scanned: seq<string>, names: seq<Option<string>>, name: string)
    requires Agree(scanned, names) && name in Import(names).names
    ensures name != "" && name in Scan(scanned).seen
  {
    var i := ImportedComeFromRows(names, name);
    ScanSees(scanned, i);
  }

  /** Under a safe header, every import inserts names that are non-empty, distinct and new. */
  lemma SafeHeadersKeepNamesNew(header: Row, rows: seq<Row>, store: set<string>)
    requires SafeHeader(header)
    ensures NamesAreNew(ImportAssets(header, rows, false, store), store)
  {
    var scanned, names := ScannedNames(header, rows), AcceptedNames(header, rows);
    var o := ImportAssets(header, rows, false, store);
    PassesAgreeOnRows(header, rows);
    if o.Done? {
      ScanFindsDuplicates(scanned);
      ImportedAreDistinct(scanned, names);
      forall k | 0 <= k < |o.inserted|
        ensures o.inserted[k] != "" && o.inserted[k] in Scan(scanned).seen
      {
        ImportedAreSeen(scanned, names, o.inserted[k]);
      }
    }
  }

  // ---------- headers that break it ----------

  function TrickCell(column: string, key: string, name: string): string {
    if column == key then "x" else if column == "name" then name else ""
  }

  /** A row with `name` under "name", "x" in the column the second pass uses, and nothing else. */
  function Trick(header: Row, key: string, name: string): (row: Row)
    ensures |row| == |header|
  {
    seq(|header|, i requires 0 <= i < |header| => TrickCell(header[i], key, name))
  }

  lemma CellOfTrick(header: Row, key: string, name: string, column: string)
    ensures Cell(header, Trick(header, key, name), column)
         == if column in header then Some(TrickCell(column, key, name)) else None
  {}

  lemma ShortNamesStay(s: string)
    requires s in {"a", "b", "x", ""}
    ensures Strip(s) == s
  {}

  lemma TrickIsAccepted(header: Row, key: string, name: string)
    requires NameKey(header) == Some(key)
    ensures Accepted(header, Trick(header, key, name)) == Some("x")
  {
    CellOfTrick(header, key, name, key);
    ShortNamesStay("x");
  }

  lemma TrickIsSeen(header: Row, key: string, name: string)
    requires NameKey(header) == Some(key) && !SafeHeader(header) && name in {"a", "b"}
    ensures ScannedName(header, Trick(header, key, name)) == if "name" in header then name else ""
  {
    CellOfTrick(header, key, name, "name");
    CellOfTrick(header, key, name, "Name");
    ShortNamesStay(name);
    ShortNamesStay("");
  }

  lemma ScanOfTwo(a: string, b: string)
    requires a == b == "" || a != b
    ensures Scan([a, b]).duplicates == []
  {
    assert [a, b][..1] == [a] && [a][..0] == [];
    ScanFindsDuplicates([a, b]);
    forall i, j
      ensures !Repeated([a, b], i, j)
    {
      if 0 <= i < j < 2 {
        assert i == 0 && j == 1;
      }
    }
  }

  lemma ImportOfTwo(a: string, b: string)
    ensures Import([Some(a), Some(b)]) == Results([a, b], [])
  {
    var two := [Some(a), Some(b)];
    assert two[..1] == [Some(a)] && two[..1][..0] == [];
    assert Import(two[..1]).names == [] + [a];
    assert Import(two).names == [a] + [b] == [a, b];
  }

  function Tricks(header: Row, key: string): seq<Row> { [Trick(header, key, "a"), Trick(header, key, "b")] }

  lemma TricksPassTheScan(header: Row, key: string)
    requires NameKey(header) == Some(key) && !SafeHeader(header)
    ensures Scan(ScannedNames(header, Tricks(header, key))).duplicates == []
  {
    TrickIsSeen(header, key, "a");
    TrickIsSeen(header, key, "b");
    var a, b := if "name" in header then "a" else "", if "name" in header then "b" else "";
    assert ScannedNames(header, Tricks(header, key)) == [a, b];
    ScanOfTwo(a, b);
  }

  lemma TricksAreImported(header: Row, key: string)
    requires NameKey(header) == Some(key)
    ensures Import(AcceptedNames(header, Tricks(header, key))) == Results(["x", "x"], [])
  {
    TrickIsAccepted(header, key, "a");
    TrickIsAccepted(header, key, "b");
    assert AcceptedNames(header, Tricks(header, key)) == [Some("x"), Some("x")];
    ImportOfTwo("x", "x");
  }

  /** Under any other header, two rows with one name get in together. */
  lemma UnsafeHeadersLetDuplicatesIn(header: Row) returns (rows: seq<Row>)
    requires HasRequired(header) && !SafeHeader(header)
    ensures ImportAssets(header, rows, false, {}) == Done(2, [], ["x", "x"], [])
  {
    RequiredHasNameKey(header);
    var key := NameKey(header).value;
    rows := Tricks(header, key);
    TricksPassTheScan(header, key);
    TricksAreImported(header, key);
  }

  lemma {:induction false} NameKeyExists(header: Row, h: string)
    requires h in header && Normal(h) == "name"
    ensures NameKey(header).Some?
  {
    var init, last := header[..|header| - 1], header[|header| - 1];
    if last in init || Normal(last) != "name" {
      assert header == init + [last];
      NameKeyExists(init, h);
    }
  }

  lemma RequiredHasNameKey(header: Row)
    requires HasRequired(header)
    ensures NameKey(header).Some?
  {
    assert "name" in REQUIRED;
    var h :| h in header && Normal(h) == "name";
    NameKeyExists(header, h);
  }

  lemma TwiceIsNotNew(name: string)
    ensures !NamesAreNew(Done(2, [], [name, name], []), {})
  {
    assert [name, name][0] == [name, name][1];
  }

  /** The promise about names holds for every file with this header exactly when the header is safe. */
  lemma NamesAreNewExactly(header: Row)
    requires HasRequired(header)
    ensures SafeHeader(header) <==>
              forall rows, store :: NamesAreNew(ImportAssets(header, rows, false, store), store)
  {
    if SafeHeader(header) {
      forall rows, store
        ensures NamesAreNew(ImportAssets(header, rows, false, store), store)
      {
        SafeHeadersKeepNamesNew(header, rows, store);
      }
    } else {
      var rows := UnsafeHeadersLetDuplicatesIn(header);
      TwiceIsNotNew("x");
    }
  }
}
