/**
  The two-pass CSV import.  The first pass looks for repeated names under two spellings of the
  name column; the second normalises every column name and inserts.
 */
module CsvImportRules {
  import opened Options
  import opened Texts

  type Row = seq<string>

  const MAX_ROWS := 10000
  const PREVIEW := 10
  const REQUIRED: set<string> := {"name", "type"}

  // ---------- a row as a dictionary ----------

  /** The last column of that name. */
  function Column(header: Row, key: string): (r: Option<nat>)
    ensures r.Some? ==> r.value < |header| && header[r.value] == key && forall i :: r.value < i < |header| ==> header[i] != key
    ensures r.None? ==> key !in header
  {
    if header == [] then None
    else if header[|header| - 1] == key then Some(|header| - 1)
    else Column(header[..|header| - 1], key)
  }

  /** None for a column that is not there, or that the row is too short for. */
  function Cell(header: Row, row: Row, key: string): Option<string> {
    match Column(header, key)
    case None => None
    case Some(i) => if i < |row| then Some(row[i]) else None
  }

  function Text(cell: Option<string>): string { cell.GetOr("") }

  function Either(a: Option<string>, b: Option<string>): string { if Text(a) != "" then Text(a) else Text(b) }

  function Normal(key: string): string { Lower(Strip(key)) }

  /** Of the distinct column names, in order of appearance, the last that normalises to "name". */
  function NameKey(header: Row): (r: Option<string>)
    ensures r.Some? ==> r.value in header && Normal(r.value) == "name"
  {
    if header == [] then None
    else
      var init, last := header[..|header| - 1], header[|header| - 1];
      if last !in init && Normal(last) == "name" then Some(last) else NameKey(init)
  }

  // ---------- the passes ----------

  /** The name the first pass sees. */
  function ScannedName(header: Row, row: Row): string {
    Strip(Either(Cell(header, row, "name"), Cell(header, row, "Name")))
  }

  /** The name the second pass sees. */
  function ImportedName(header: Row, row: Row): string {
    match NameKey(header)
    case None => ""
    case Some(key) => Strip(Text(Cell(header, row, key)))
  }

  function ScannedNames(header: Row, rows: seq<Row>): (r: seq<string>)
    ensures |r| == |rows|
  {
    seq(|rows|, i requires 0 <= i < |rows| => ScannedName(header, rows[i]))
  }

  /** First-pass names with the row that had each first; rows are numbered from 2. */
  datatype Scanned = Scanned(seen: map<string, nat>, duplicates: seq<nat>)

  function ScanNext(s: Scanned, name: string, number: nat): Scanned {
    if name == "" then s
    else if name in s.seen then s.(duplicates := s.duplicates + [number])
    else s.(seen := s.seen[name := number])
  }

  function Scan(names: seq<string>): Scanned {
    if names == [] then Scanned(map[], [])
    else ScanNext(Scan(names[..|names| - 1]), names[|names| - 1], |names| + 1)
  }

  /** What the second pass makes of a row; extra cells have no column name to normalise. */
  function Accepted(header: Row, row: Row): Option<string> {
    if |row| <= |header| && ImportedName(header, row) != "" then Some(ImportedName(header, row)) else None
  }

  function AcceptedNames(header: Row, rows: seq<Row>): (r: seq<Option<string>>)
    ensures |r| == |rows|
  {
    seq(|rows|, i requires 0 <= i < |rows| => Accepted(header, rows[i]))
  }

  datatype Results = Results(names: seq<string>, errors: seq<nat>)

  function ImportNext(r: Results, name: Option<string>, number: nat): Results {
    if name.Some? then r.(names := r.names + [name.value]) else r.(errors := r.errors + [number])
  }

  function Import(names: seq<Option<string>>): Results {
    if names == [] then Results([], [])
    else ImportNext(Import(names[..|names| - 1]), names[|names| - 1], |names| + 1)
  }

  datatype Refusal = EmptyCsv | MissingColumns | TooManyRows | DuplicateNames | ExistingNames

  /** `inserted` are the names of the new rows, `preview` those shown on a dry run. */
  datatype Outcome =
    | Refused(why: Refusal)
    | Done(created: nat, errors: seq<nat>, inserted: seq<string>, preview: seq<string>)

  predicate HasRequired(header: Row) { forall key :: key in REQUIRED ==> exists h :: h in header && Normal(h) == key }

  function Finish(r: Results, dryRun: bool): Outcome {
    Done(|r.names|, r.errors, if dryRun then [] else r.names,
         if !dryRun then [] else if |r.names| <= PREVIEW then r.names else r.names[..PREVIEW])
  }

  function ImportAssets(header: Row, rows: seq<Row>, dryRun: bool, store: set<string>): Outcome {
    if header == [] then Refused(EmptyCsv)
    else if !HasRequired(header) then Refused(MissingColumns)
    else if |rows| > MAX_ROWS then Refused(TooManyRows)
    else
      var s := Scan(ScannedNames(header, rows));
      if s.duplicates != [] then Refused(DuplicateNames)
      else if !dryRun && exists name :: name in s.seen && name in store then Refused(ExistingNames)
      else Finish(Import(AcceptedNames(header, rows)), dryRun)
  }
}
