/**
  The platform's watch over its own packages: what a scan finds and stores, which updates are
  proposed, and how a proposal moves through review.
 */
module SelfSecurityRules {
  import opened Options
  import opened Releases
  import opened Texts

  // ---------- what a scan fetches ----------

  /** The versions one advisory entry says are fixed, for the package it names. */
  datatype Affected = Affected(package: string, fixed: seq<string>)

  datatype Advisory = Advisory(id: string, aliases: seq<string>, affected: seq<Affected>)

  /** An installed package with the advisories fetched for it. */
  datatype Installed = Installed(name: string, version: string, advisories: seq<Advisory>)

  /** `kev` holds the known exploited entries of the CVE catalog. */
  datatype Fetched = FetchFailed | Resolved(installed: seq<Installed>, kev: set<string>)

  datatype Found = Found(cve: string, aliases: seq<string>, fix: Option<string>)

  predicate IsCve(id: string) { "CVE-" <= id }

  /** The first CVE among the aliases, or the advisory's own id. */
  function CveOf(id: string, aliases: seq<string>): string {
    if aliases == [] then id
    else if IsCve(aliases[0]) then aliases[0]
    else CveOf(id, aliases[1..])
  }

  function Candidates(name: string, affected: seq<Affected>): seq<string> {
    if affected == [] then []
    else
      var last := |affected| - 1;
      var rest := Candidates(name, affected[..last]);
      if Lower(affected[last].package) == Lower(name) then rest + affected[last].fixed else rest
  }

  function FoundIn(read: Reader, d: Installed, a: Advisory): Found {
    Found(CveOf(a.id, a.aliases), a.aliases, FixFor(read, d.version, Candidates(d.name, a.affected)))
  }

  function FindVulns(read: Reader, d: Installed): (r: seq<Found>)
    ensures |r| == |d.advisories|
  {
    seq(|d.advisories|, i requires 0 <= i < |d.advisories| => FoundIn(read, d, d.advisories[i]))
  }

  predicate IsKev(kev: set<string>, f: Found) {
    exists id :: id in [f.cve] + f.aliases && IsCve(id) && id in kev
  }

  // ---------- the tables ----------

  datatype Finding = Finding(fix: Option<string>, kev: bool, suppressed: bool)

  datatype Blocked = NoFix | UnreadableFix

  /** A dependency's row with its finding rows, by CVE. */
  datatype Dependency = Dependency(
    version: string, cveCount: nat, blocked: Option<Blocked>, findings: map<string, Finding>)

  datatype Status = Proposed | AiValidated | Approved | Applying | ReadyForPr | Rejected | Failed

  datatype Reason = KevFix | CveFix

  datatype Patch = Patch(original: seq<string>, proposed: seq<string>, previous: string)

  datatype Proposal = Proposal(
    dep: string, current: string, target: string, reason: Reason, cves: set<string>,
    status: Status, approvedBy: Option<string>, patch: Option<Patch>)

  predicate Pending(p: Proposal) {
    p.status.Proposed? || p.status.AiValidated? || p.status.Approved? || p.status.Applying?
  }

  datatype ScanStatus = Never | Running | ScanFailed | Success

  datatype Settings = Settings(
    excluded: set<string>, requireAi: bool, lastScan: ScanStatus, lastSuccess: Option<int>)

  /** Proposals are numbered in the order they are made; `issued` is the next number. */
  datatype Db = Db(settings: Settings, deps: map<string, Dependency>, proposals: map<nat, Proposal>, issued: nat)

  const SCAN_VALID: int := 26 * 60 * 60

  // ---------- scan ----------

  function Stored(existing: map<string, Finding>, kev: set<string>, f: Found): Finding {
    Finding(f.fix, IsKev(kev, f), f.cve in existing && existing[f.cve].suppressed)
  }

  /** The finding rows a scan leaves; none when it would insert the same new CVE twice. */
  function FindingRows(existing: map<string, Finding>, kev: set<string>, fs: seq<Found>)
    : Option<map<string, Finding>>
  {
    if fs == [] then Some(map[])
    else
      var f := fs[|fs| - 1];
      match FindingRows(existing, kev, fs[..|fs| - 1])
      case None => None
      case Some(rows) =>
        if f.cve in rows && f.cve !in existing then None
        else Some(rows[f.cve := Stored(existing, kev, f)])
  }

  function Reported(read: Reader, excluded: set<string>, d: Installed): seq<Found> {
    if d.name in excluded then [] else FindVulns(read, d)
  }

  function FindingsOf(deps: map<string, Dependency>, name: string): map<string, Finding> {
    if name in deps then deps[name].findings else map[]
  }

  function BlockedOf(deps: map<string, Dependency>, name: string): Option<Blocked> {
    if name in deps then deps[name].blocked else None
  }

  function ScanOne(read: Reader, excluded: set<string>, kev: set<string>, deps: map<string, Dependency>, d: Installed)
    : Option<map<string, Dependency>>
  {
    var fs := Reported(read, excluded, d);
    match FindingRows(FindingsOf(deps, d.name), kev, fs)
    case None => None
    case Some(rows) => Some(deps[d.name := Dependency(d.version, |fs|, BlockedOf(deps, d.name), rows)])
  }

  function ScanAll(read: Reader, excluded: set<string>, kev: set<string>, deps: map<string, Dependency>, ds: seq<Installed>)
    : Option<map<string, Dependency>>
  {
    if ds == [] then Some(deps)
    else
      match ScanAll(read, excluded, kev, deps, ds[..|ds| - 1])
      case None => None
      case Some(scanned) => ScanOne(read, excluded, kev, scanned, ds[|ds| - 1])
  }

  function Names(ds: seq<Installed>): set<string> { set d | d in ds :: d.name }

  /** Packages no longer installed go, with their finding rows. */
  function Remaining(deps: map<string, Dependency>, names: set<string>): map<string, Dependency> {
    map n | n in deps && n in names :: deps[n]
  }

  predicate Superseded(deps: map<string, Dependency>, p: Proposal) {
    Pending(p) && p.dep in deps && (deps[p.dep].cveCount == 0 || p.current != deps[p.dep].version)
  }

  function Reviewed(deps: map<string, Dependency>, p: Proposal): Proposal {
    if Superseded(deps, p) then p.(status := Rejected) else p
  }

  /** Proposals go with their dependency; the pending ones a scan contradicts are rejected. */
  function ReviewedAll(deps: map<string, Dependency>, proposals: map<nat, Proposal>): map<nat, Proposal> {
    map id | id in proposals && proposals[id].dep in deps :: Reviewed(deps, proposals[id])
  }

  function Scan(read: Reader, db: Db, fetched: Fetched, now: int): Db {
    if fetched.FetchFailed? || fetched.installed == [] then
      db.(settings := db.settings.(lastScan := ScanFailed))
    else
      match ScanAll(read, db.settings.excluded, fetched.kev, db.deps, fetched.installed)
      case None => db.(settings := db.settings.(lastScan := Running))
      case Some(scanned) =>
        var deps := Remaining(scanned, Names(fetched.installed));
        Db(db.settings.(lastScan := Success, lastSuccess := Some(now)), deps,
           ReviewedAll(deps, db.proposals), db.issued)
  }

  // ---------- propose ----------

  /** A vulnerable dependency and its finding rows, in the order the database lists them. */
  datatype Listed = Listed(dep: string, cves: seq<string>)

  predicate Fixable(d: Dependency, cve: string) {
    cve in d.findings && !d.findings[cve].suppressed && d.findings[cve].fix.Some? && d.findings[cve].fix.value != ""
  }

  function Fixes(d: Dependency, cves: seq<string>): seq<string> {
    if cves == [] then []
    else
      var last := |cves| - 1;
      var rest := Fixes(d, cves[..last]);
      if Fixable(d, cves[last]) then rest + [d.findings[cves[last]].fix.value] else rest
  }

  function FixedCves(d: Dependency): set<string> { set cve | cve in d.findings && Fixable(d, cve) }

  function ReasonFor(d: Dependency): Reason {
    if exists cve :: cve in d.findings && !d.findings[cve].suppressed && d.findings[cve].kev then KevFix else CveFix
  }

  predicate AllReadable(read: Reader, ts: seq<string>) { forall i :: 0 <= i < |ts| ==> read(ts[i]).Some? }

  function ReadAll(read: Reader, ts: seq<string>): (rs: seq<Release>)
    requires AllReadable(read, ts)
    ensures |rs| == |ts|
  {
    seq(|ts|, i requires 0 <= i < |ts| => read(ts[i]).value)
  }

  /** The greatest fix, in its normal spelling. */
  function TargetOf(read: Reader, fixes: seq<string>): string
    requires fixes != [] && AllReadable(read, fixes)
  {
    Greatest(ReadAll(read, fixes)).normal
  }

  function Same(proposals: map<nat, Proposal>, dep: string, target: string): set<nat> {
    set id | id in proposals && proposals[id].dep == dep && proposals[id].target == target && Pending(proposals[id])
  }

  function Block(db: Db, dep: string, why: Blocked): Db
    requires dep in db.deps
  {
    db.(deps := db.deps[dep := db.deps[dep].(blocked := Some(why))])
  }

  function Draft(db: Db, dep: string, target: string): Proposal
    requires dep in db.deps
  {
    var d := db.deps[dep];
    Proposal(dep, d.version, target, ReasonFor(d), FixedCves(d), Proposed, None, None)
  }

  /** One dependency; none when two pending proposals already carry the same target. */
  function ProposeFor(read: Reader, db: Db, l: Listed): Option<Db>
    requires l.dep in db.deps
    ensures ProposeFor(read, db, l).Some? ==> ProposeFor(read, db, l).value.deps.Keys == db.deps.Keys
  {
    var fixes := Fixes(db.deps[l.dep], l.cves);
    if l.dep in db.settings.excluded then Some(db)
    else if fixes == [] then Some(Block(db, l.dep, NoFix))
    else if !AllReadable(read, fixes) then Some(Block(db, l.dep, UnreadableFix))
    else
      var target := TargetOf(read, fixes);
      var same := Same(db.proposals, l.dep, target);
      if |same| > 1 then None
      else if |same| == 1 then Some(db)
      else Some(db.(proposals := db.proposals[db.issued := Draft(db, l.dep, target)], issued := db.issued + 1))
  }

  /** Each vulnerable dependency once, each with all of its finding rows. */
  predicate GoodListing(deps: map<string, Dependency>, listing: seq<Listed>) {
    && (forall n :: n in deps && deps[n].cveCount > 0 ==> exists i :: 0 <= i < |listing| && listing[i].dep == n)
    && (forall i, j :: 0 <= i < j < |listing| ==> listing[i].dep != listing[j].dep)
    && (forall i :: 0 <= i < |listing| ==> GoodEntry(deps, listing[i]))
  }

  predicate GoodEntry(deps: map<string, Dependency>, l: Listed) {
    && l.dep in deps && deps[l.dep].cveCount > 0
    && (set c | c in l.cves) == deps[l.dep].findings.Keys
  }

  function ProposeAll(read: Reader, db: Db, listing: seq<Listed>): (r: Option<Db>)
    requires forall i :: 0 <= i < |listing| ==> listing[i].dep in db.deps
    ensures r.Some? ==> r.value.deps.Keys == db.deps.Keys
  {
    if listing == [] then Some(db)
    else
      match ProposeAll(read, db, listing[..|listing| - 1])
      case None => None
      case Some(t) => ProposeFor(read, t, listing[|listing| - 1])
  }

  predicate RecentlyScanned(s: Settings, now: int) {
    s.lastScan.Success? && s.lastSuccess.Some? && s.lastSuccess.value >= now - SCAN_VALID
  }

  function Propose(read: Reader, db: Db, now: int, listing: seq<Listed>): Db
    requires GoodListing(db.deps, listing)
  {
    if !RecentlyScanned(db.settings, now) then db
    else ProposeAll(read, db, listing).GetOr(db)
  }

  // ---------- review ----------

  /** requirements.in: missing, unreadable, or its lines. */
  datatype Requirements = Absent | Unreadable | Lines(lines: seq<string>)

  const OPERATORS: seq<string> := ["==", ">=", "~=", "<=", ">", "<"]

  predicate Pins(name: string, line: string) {
    exists i :: 0 <= i < |OPERATORS| && Lower(name) + OPERATORS[i] <= Lower(Strip(line))
  }

  function Pinned(name: string, target: string): string { name + "==" + target }

  function PatchedLine(name: string, target: string, line: string): string {
    if Pins(name, line) then Pinned(name, target) else line
  }

  function Patched(name: string, target: string, lines: seq<string>): (r: seq<string>)
    ensures |r| == |lines|
  {
    seq(|lines|, i requires 0 <= i < |lines| => PatchedLine(name, target, lines[i]))
  }

  function Prepared(p: Proposal, file: Requirements): Proposal {
    if file.Lines? && exists i :: 0 <= i < |file.lines| && Pins(p.dep, file.lines[i]) then
      p.(status := ReadyForPr, patch := Some(Patch(file.lines, Patched(p.dep, p.target, file.lines), p.current)))
    else p.(status := Failed)
  }

  function PreparedAll(proposals: map<nat, Proposal>, only: Option<nat>, file: Requirements): map<nat, Proposal> {
    map id | id in proposals ::
      if proposals[id].status.Approved? && (only.Some? ==> only.value == id) then Prepared(proposals[id], file)
      else proposals[id]
  }

  function ValidatedAll(proposals: map<nat, Proposal>, picked: set<nat>): map<nat, Proposal> {
    map id | id in proposals :: if id in picked then proposals[id].(status := AiValidated) else proposals[id]
  }

  function Awaiting(proposals: map<nat, Proposal>): set<nat> {
    set id | id in proposals && proposals[id].status.Proposed?
  }

  const BATCH := 50

  /** At most fifty proposals, all of them when there are no more. */
  predicate GoodBatch(proposals: map<nat, Proposal>, picked: set<nat>) {
    && picked <= Awaiting(proposals)
    && |picked| == if |Awaiting(proposals)| <= BATCH then |Awaiting(proposals)| else BATCH
  }

  function ApprovedBy(p: Proposal, admin: string): Proposal {
    if p.status.Proposed? || p.status.AiValidated? then p.(status := Approved, approvedBy := Some(admin)) else p
  }

  function RolledBack(p: Proposal): Proposal {
    if p.status.ReadyForPr? then p.(status := Approved, patch := None) else p
  }

  function Update(db: Db, id: nat, p: Proposal): Db { db.(proposals := db.proposals[id := p]) }

  function Suppressed(d: Dependency, cve: string): Dependency {
    if cve in d.findings then d.(findings := d.findings[cve := d.findings[cve].(suppressed := true)]) else d
  }

  // ---------- runs ----------

  datatype Step =
    | RunScan(fetched: Fetched, now: int)
    | ProposeUpdates(now: int, listing: seq<Listed>)
    | AiValidate(picked: set<nat>)
    | Approve(id: nat, admin: string)
    | Reject(id: nat)
    | Prepare(only: Option<nat>, file: Requirements)
    | Rollback(id: nat)
    | Suppress(dep: string, cve: string)
    | Configure(excluded: set<string>, requireAi: bool)

  /** A step that cannot happen, or that is refused, changes nothing. */
  function Next(read: Reader, db: Db, step: Step): Db {
    match step
    case RunScan(fetched, now) => Scan(read, db, fetched, now)
    case ProposeUpdates(now, listing) =>
      if GoodListing(db.deps, listing) then Propose(read, db, now, listing) else db
    case AiValidate(picked) =>
      if db.settings.requireAi && GoodBatch(db.proposals, picked)
      then db.(proposals := ValidatedAll(db.proposals, picked)) else db
    case Approve(id, admin) =>
      if id in db.proposals then Update(db, id, ApprovedBy(db.proposals[id], admin)) else db
    case Reject(id) =>
      if id in db.proposals then Update(db, id, db.proposals[id].(status := Rejected)) else db
    case Prepare(only, file) => db.(proposals := PreparedAll(db.proposals, only, file))
    case Rollback(id) =>
      if id in db.proposals then Update(db, id, RolledBack(db.proposals[id])) else db
    case Suppress(dep, cve) =>
      if dep in db.deps then db.(deps := db.deps[dep := Suppressed(db.deps[dep], cve)]) else db
    case Configure(excluded, requireAi) =>
      db.(settings := db.settings.(excluded := excluded, requireAi := requireAi))
  }

  function Run(read: Reader, db: Db, steps: seq<Step>): Db {
    if steps == [] then db else Next(read, Run(read, db, steps[..|steps| - 1]), steps[|steps| - 1])
  }

  function Start(settings: Settings): Db { Db(settings, map[], map[], 0) }
}
