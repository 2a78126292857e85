/** What an import inserts and shows, read off the header and the rows: which cell names a row, and in which order names come. */
module CsvImportContents {
  import opened CsvImportRules
  import opened CsvImportTheorems
  import opened Options
  import opened Texts

  // ---------- the column that names a row ----------

  predicate IsNameColumn(h: string) { Lower(Strip(h)) == "name" }

  /** The header `h` appears before `k` does. */
  ghost predicate AppearsFirst(header: Row, h: string, k: string) {
    exists e :: 0 <= e < |header| && header[e] == h && k !in header[..e + 1]
  }

  /** Of the spellings of "name" the one that appears last for the first time, and its last column. */
  ghost predicate NamesRows(header: Row, c: nat) {
    && c < |header| && IsNameColumn(header[c])
    && (forall d :: c < d < |header| ==> header[d] != header[c])
    && (forall d :: 0 <= d < |header| && IsNameColumn(header[d]) && header[d] != header[c] ==>
          AppearsFirst(header, header[d], header[c]))
  }

  /** The last spelling to appear. */
  ghost predicate LatestSpelling(header: Row, k: string) {
    && k in header && IsNameColumn(k)
    && forall h :: h in header && IsNameColumn(h) && h != k ==> AppearsFirst(header, h, k)
  }

  lemma AppearsInMore(header: Row, h: string, k: string)
    requires header != [] && AppearsFirst(header[..|header| - 1], h, k)
    ensures AppearsFirst(header, h, k)
  {
    var init := header[..|header| - 1];
    var e :| 0 <= e < |init| && init[e] == h && k !in init[..e + 1];
    assert header[..e + 1] == init[..e + 1];
  }

  lemma NewSpellingIsLatest(header: Row)
    requires header != [] && header[|header| - 1] !in header[..|header| - 1] && IsNameColumn(header[|header| - 1])
    ensures LatestSpelling(header, header[|header| - 1])
  {
    var init, k := header[..|header| - 1], header[|header| - 1];
    forall h | h in header && h != k
      ensures AppearsFirst(header, h, k)
    {
      var e :| 0 <= e < |header| && header[e] == h;
      assert forall x :: x in header[..e + 1] ==> x in init;
    }
  }

  lemma {:induction false} NameKeyIsLatest(header: Row)
    ensures NameKey(header).Some? ==> LatestSpelling(header, NameKey(header).value)
    ensures NameKey(header).None? ==> forall h :: h in header ==> !IsNameColumn(h)
  {
    if header != [] {
      var init, last := header[..|header| - 1], header[|header| - 1];
      NameKeyIsLatest(init);
      assert forall h :: h in header <==> h in init || h == last;
      if last !in init && IsNameColumn(last) {
        NewSpellingIsLatest(header);
      } else if NameKey(init).Some? {
        var k := NameKey(init).value;
        forall h | h in header && IsNameColumn(h) && h != k
          ensures AppearsFirst(header, h, k)
        {
          AppearsInMore(header, h, k);
        }
      }
    }
  }

  lemma OneLatest(header: Row, k: string, m: string)
    requires LatestSpelling(header, k) && LatestSpelling(header, m)
    ensures k == m
  {}

  /** The name of a row: the stripped cell of that column, empty when the row is too short or there is no such column. */
  lemma RowIsNamedExactly(header: Row, row: Row, c: nat)
    ensures NamesRows(header, c) ==> ImportedName(header, row) == Strip(if c < |row| then row[c] else "")
    ensures (forall d :: 0 <= d < |header| ==> !IsNameColumn(header[d])) ==> ImportedName(header, row) == ""
  {
    NameKeyIsLatest(header);
    if NamesRows(header, c) {
      forall h | h in header && IsNameColumn(h) && h != header[c]
        ensures AppearsFirst(header, h, header[c])
      {
        var d :| 0 <= d < |header| && header[d] == h;
      }
      OneLatest(header, header[c], NameKey(header).value);
      ColumnIsLast(header, c);
    }
  }

  lemma {:induction false} ColumnIsLast(header: Row, c: nat)
    requires c < |header| && forall d :: c < d < |header| ==> header[d] != header[c]
    ensures Column(header, header[c]) == Some(c)
  {
    if c < |header| - 1 { ColumnIsLast(header[..|header| - 1], c); }
  }

  /** There is one such column, if any column is a spelling of "name". */
  lemma SomeColumnNamesRows(header: Row) returns (c: nat)
    requires exists d :: 0 <= d < |header| && IsNameColumn(header[d])
    ensures NamesRows(header, c)
  {
    NameKeyIsLatest(header);
    var k := NameKey(header).value;
    c := Column(header, k).value;
  }

  // ---------- what is inserted ----------

  /** The row is no longer than the header and has a name. */
  predicate IsGood(header: Row, row: Row) { |row| <= |header| && ImportedName(header, row) != "" }

  ghost function GoodBefore(header: Row, rows: seq<Row>, i: nat): set<nat>
    requires i <= |rows|
  {
    set k: nat | k < i && IsGood(header, rows[k])
  }

  ghost function SomeBefore(names: seq<Option<string>>, i: nat): set<nat>
    requires i <= |names|
  {
    set k: nat | k < i && names[k].Some?
  }

  lemma SomeBeforeNext(names: seq<Option<string>>, i: nat)
    requires i < |names|
    ensures |SomeBefore(names, i + 1)| == |SomeBefore(names, i)| + (if names[i].Some? then 1 else 0)
  {
    var before := SomeBefore(names, i);
    assert SomeBefore(names, i + 1) == if names[i].Some? then before + {i} else before;
  }

  lemma {:induction false} ImportedInPlace(names: seq<Option<string>>, n: nat)
    requires n <= |names|
    ensures var r := Import(names[..n]);
            && |r.names| == |SomeBefore(names, n)|
            && forall i :: 0 <= i < n && names[i].Some? ==>
                 |SomeBefore(names, i)| < |r.names| && r.names[|SomeBefore(names, i)|] == names[i].value
  {
    if n == 0 {
      assert SomeBefore(names, 0) == {};
    } else {
      ImportedInPlace(names, n - 1);
      SomeBeforeNext(names, n - 1);
      assert names[..n][..n - 1] == names[..n - 1];
    }
  }

  lemma GoodAreAccepted(header: Row, rows: seq<Row>, i: nat)
    requires i <= |rows|
    ensures GoodBefore(header, rows, i) == SomeBefore(AcceptedNames(header, rows), i)
  {
    assert forall k :: 0 <= k < |rows| ==> (IsGood(header, rows[k]) <==> AcceptedNames(header, rows)[k].Some?);
  }

  /**
    Main result on contents: the good rows give their names in order, nothing else is inserted,
    and a dry run shows the first ten of them.
   */
  lemma GoodRowsAreInserted(header: Row, rows: seq<Row>, dryRun: bool, store: set<string>, i: nat)
    requires ImportAssets(header, rows, dryRun, store).Done?
    ensures var o := ImportAssets(header, rows, dryRun, store);
            && o.created == |GoodBefore(header, rows, |rows|)|
            && |o.inserted| == (if dryRun then 0 else o.created)
            && |o.preview| == (if !dryRun then 0 else if o.created < 10 then o.created else 10)
    ensures var o := ImportAssets(header, rows, dryRun, store);
            i < |rows| && IsGood(header, rows[i]) ==>
              var place := |GoodBefore(header, rows, i)|;
              && place < o.created
              && (!dryRun ==> o.inserted[place] == ImportedName(header, rows[i]))
              && (dryRun && place < 10 ==> o.preview[place] == ImportedName(header, rows[i]))
  {
    var names := AcceptedNames(header, rows);
    ImportedInPlace(names, |rows|);
    assert names[..|rows|] == names;
    GoodAreAccepted(header, rows, |rows|);
    if i < |rows| {
      GoodAreAccepted(header, rows, i);
      assert names[i] == Accepted(header, rows[i]);
    }
  }

  /** Some column is a spelling of this name. */
  ghost predicate HasColumn(header: Row, key: string) { exists h :: h in header && Lower(Strip(h)) == key }

  lemma RequiredAre(header: Row)
    ensures HasRequired(header) <==> HasColumn(header, "name") && HasColumn(header, "type")
  {
    assert "name" in REQUIRED && "type" in REQUIRED;
    if HasColumn(header, "name") && HasColumn(header, "type") {
      forall key | key in REQUIRED
        ensures exists h :: h in header && Normal(h) == key
      {
        assert HasColumn(header, key);
      }
    }
    if HasRequired(header) {
      var h :| h in header && Normal(h) == "name";
      var g :| g in header && Normal(g) == "type";
    }
  }

  /** Which refusal each file meets, in the order of the tests. */
  lemma RefusalsAre(header: Row, rows: seq<Row>, dryRun: bool, store: set<string>)
    ensures var o := ImportAssets(header, rows, dryRun, store);
            var usable := header != [] && HasColumn(header, "name") && HasColumn(header, "type");
            var distinct := forall i, j :: !Repeated(ScannedNames(header, rows), i, j);
            && (o == Refused(EmptyCsv) <==> header == [])
            && (o == Refused(MissingColumns) <==> header != [] && !usable)
            && (o == Refused(TooManyRows) <==> usable && |rows| > 10000)
            && (o == Refused(DuplicateNames) <==> usable && |rows| <= 10000 && !distinct)
            && (o == Refused(ExistingNames) <==>
                  && usable && |rows| <= 10000 && distinct && !dryRun
                  && exists i :: 0 <= i < |rows| && ScannedName(header, rows[i]) != "" && ScannedName(header, rows[i]) in store)
  {
    RequiredAre(header);
    ScanFindsDuplicates(ScannedNames(header, rows));
    SeenIsNew(ScannedNames(header, rows), store);
    assert forall i :: 0 <= i < |rows| ==> ScannedNames(header, rows)[i] == ScannedName(header, rows[i]);
  }
}
