/**
  The self-security tasks and endpoints over the tables they update in place.  Every method is
  proved equal to the step of `SelfSecurityRules` it carries out.
 */
module SelfSecurityWorker {
  import opened Options
  import opened Releases
  import opened SelfSecurityFindings
  import opened SelfSecurityRules
  import opened Texts

  // ---------- reading advisories ----------

  method ChooseCve(id: string, aliases: seq<string>) returns (cve: string)
    ensures cve == CveOf(id, aliases)
    ensures cve == id || (cve in aliases && IsCve(cve))
  {
    for i := 0 to |aliases|
      invariant CveOf(id, aliases) == CveOf(id, aliases[i..])
    {
      if IsCve(aliases[i]) {
        return aliases[i];
      }
    }
    cve := id;
  }

  method CollectFixes(name: string, affected: seq<Affected>) returns (candidates: seq<string>)
    ensures candidates == Candidates(name, affected)
  {
    candidates := [];
    for i := 0 to |affected|
      invariant candidates == Candidates(name, affected[..i])
    {
      assert affected[..i + 1][..i] == affected[..i];
      if Lower(affected[i].package) != Lower(name) {
        continue;
      }
      candidates := candidates + affected[i].fixed;
    }
    assert affected[..|affected|] == affected;
  }

  method ChooseFix(read: Reader, version: string, candidates: seq<string>) returns (fix: Option<string>)
    ensures fix == FixFor(read, version, candidates)
    ensures RoundTrips(read) ==>
              (fix.Some? <==> exists i :: 0 <= i < |candidates| && Above(read, candidates[i], version))
    ensures RoundTrips(read) && fix.Some? ==>
              && Above(read, fix.value, version)
              && forall i :: 0 <= i < |candidates| && Above(read, candidates[i], version) ==> AtLeast(read, candidates[i], fix.value)
  {
    fix := None;
    if RoundTrips(read) {
      FixIsLeast(read, version, candidates);
    }
    var current := read(version);
    if current.Some? {
      var valid: seq<Release> := [];
      for i := 0 to |candidates|
        invariant valid == ValidFixes(read, current.value, candidates[..i])
      {
        assert candidates[..i + 1][..i] == candidates[..i];
        var candidate := read(candidates[i]);
        if candidate.Some? && candidate.value.rank > current.value.rank {
          valid := valid + [candidate.value];
        }
      }
      assert candidates[..|candidates|] == candidates;
      if valid != [] {
        fix := Some(Least(valid).normal);
      }
    }
  }

  method ReadAdvisories(read: Reader, d: Installed) returns (findings: seq<Found>)
    ensures findings == FindVulns(read, d)
    ensures RoundTrips(read) ==>
              forall k :: 0 <= k < |findings| ==>
                IsAbout(d.advisories[k], findings[k].cve) && FixOf(read, d, d.advisories[k], findings[k].fix)
  {
    FindingsSayWhatAdvisoriesSay(read, d);
    findings := [];
    for i := 0 to |d.advisories|
      invariant |findings| == i
      invariant forall k :: 0 <= k < i ==> findings[k] == FoundIn(read, d, d.advisories[k])
    {
      var a := d.advisories[i];
      var cve := ChooseCve(a.id, a.aliases);
      var candidates := CollectFixes(d.name, a.affected);
      var fix := ChooseFix(read, d.version, candidates);
      findings := findings + [Found(cve, a.aliases, fix)];
    }
  }

  // ---------- storing findings ----------

  /** Upserts the reported findings and deletes the stale ones. */
  method StoreFindings(existing: map<string, Finding>, kev: set<string>, fs: seq<Found>)
    returns (rows: Option<map<string, Finding>>)
    ensures rows == FindingRows(existing, kev, fs)
  {
    var table := existing;
    var observed: set<string> := {};
    for i := 0 to |fs|
      invariant FindingRows(existing, kev, fs[..i]) == Some(map c | c in table && c in observed :: table[c])
      invariant observed <= table.Keys
      invariant forall c :: c !in observed ==> (c in table <==> c in existing) && (c in existing ==> table[c] == existing[c])
      invariant forall c :: c in observed && c in existing ==> table[c].suppressed == existing[c].suppressed
    {
      assert fs[..i + 1][..i] == fs[..i];
      var f := fs[i];
      if f.cve in observed && f.cve !in existing {
        UpsertFails(existing, kev, fs, i + 1);
        return None;
      }
      ghost var before := map c | c in table && c in observed :: table[c];
      table := table[f.cve := Stored(existing, kev, f)];
      observed := observed + {f.cve};
      assert before[f.cve := Stored(existing, kev, f)] == (map c | c in table && c in observed :: table[c]);
    }
    assert fs[..|fs|] == fs;
    rows := Some(map c | c in table && c in observed :: table[c]);
  }

  lemma {:induction false} UpsertFails(existing: map<string, Finding>, kev: set<string>, fs: seq<Found>, n: nat)
    requires n <= |fs| && FindingRows(existing, kev, fs[..n]).None?
    ensures FindingRows(existing, kev, fs).None?
  {
    if n < |fs| {
      assert fs[..|fs| - 1][..n] == fs[..n];
      UpsertFails(existing, kev, fs[..|fs| - 1], n);
    } else {
      assert fs[..n] == fs;
    }
  }

  lemma {:induction false} ScanFails(read: Reader, excluded: set<string>, kev: set<string>, deps: map<string, Dependency>,
                                     ds: seq<Installed>, n: nat)
    requires n <= |ds| && ScanAll(read, excluded, kev, deps, ds[..n]).None?
    ensures ScanAll(read, excluded, kev, deps, ds).None?
  {
    if n < |ds| {
      assert ds[..|ds| - 1][..n] == ds[..n];
      ScanFails(read, excluded, kev, deps, ds[..|ds| - 1], n);
    } else {
      assert ds[..n] == ds;
    }
  }

  lemma {:induction false} ProposeFails(read: Reader, db: Db, listing: seq<Listed>, n: nat)
    requires forall i :: 0 <= i < |listing| ==> listing[i].dep in db.deps
    requires n <= |listing| && ProposeAll(read, db, listing[..n]).None?
    ensures ProposeAll(read, db, listing).None?
  {
    if n < |listing| {
      assert listing[..|listing| - 1][..n] == listing[..n];
      ProposeFails(read, db, listing[..|listing| - 1], n);
    } else {
      assert listing[..n] == listing;
    }
  }

  lemma PreparingOneChanges(proposals: map<nat, Proposal>, id: nat, file: Requirements)
    ensures PreparedAll(proposals, Some(id), file) != proposals <==> id in proposals && proposals[id].status.Approved?
  {
    if id in proposals && proposals[id].status.Approved? {
      assert PreparedAll(proposals, Some(id), file)[id].status != proposals[id].status;
    } else {
      assert PreparedAll(proposals, Some(id), file) == proposals;
    }
  }

  lemma PatchedNext(name: string, target: string, lines: seq<string>, i: nat)
    requires i < |lines|
    ensures Patched(name, target, lines[..i + 1]) == Patched(name, target, lines[..i]) + [PatchedLine(name, target, lines[i])]
  {}

  lemma ScanNext(read: Reader, excluded: set<string>, kev: set<string>, deps: map<string, Dependency>,
                 ds: seq<Installed>, i: nat)
    requires i < |ds| && ScanAll(read, excluded, kev, deps, ds[..i]).Some?
    ensures ScanAll(read, excluded, kev, deps, ds[..i + 1])
         == ScanOne(read, excluded, kev, ScanAll(read, excluded, kev, deps, ds[..i]).value, ds[i])
  {
    assert ds[..i + 1][..i] == ds[..i];
  }

  // ---------- the tables ----------

  class Platform {
    var settings: Settings
    var deps: map<string, Dependency>
    var proposals: map<nat, Proposal>
    var issued: nat

    ghost function View(): Db
      reads this
    {
      Db(settings, deps, proposals, issued)
    }

    constructor (settings: Settings)
      ensures View() == Start(settings)
    {
      this.settings := settings;
      deps := map[];
      proposals := map[];
      issued := 0;
    }

    /** One installed package; false when the database refuses its rows. */
    method ScanPackage(read: Reader, excluded: set<string>, kev: set<string>, d: Installed) returns (stored: bool)
      modifies this`deps
      ensures ScanOne(read, excluded, kev, old(deps), d) == if stored then Some(deps) else None
      ensures !stored ==> deps == old(deps)
    {
      var findings: seq<Found> := [];
      if d.name !in excluded {
        findings := ReadAdvisories(read, d);
      }
      var existing: map<string, Finding> := if d.name in deps then deps[d.name].findings else map[];
      var blocked := if d.name in deps then deps[d.name].blocked else None;
      var rows := StoreFindings(existing, kev, findings);
      stored := rows.Some?;
      if stored {
        deps := deps[d.name := Dependency(d.version, |findings|, blocked, rows.value)];
      }
    }

    /** All installed packages; when one is refused, the whole scan is undone. */
    method ScanPackages(read: Reader, excluded: set<string>, kev: set<string>, ds: seq<Installed>) returns (stored: bool)
      modifies this`deps
      ensures ScanAll(read, excluded, kev, old(deps), ds) == if stored then Some(deps) else None
      ensures !stored ==> deps == old(deps)
    {
      var before := deps;
      for i := 0 to |ds|
        invariant ScanAll(read, excluded, kev, before, ds[..i]) == Some(deps)
      {
        ScanNext(read, excluded, kev, before, ds, i);
        var ok := ScanPackage(read, excluded, kev, ds[i]);
        if !ok {
          ScanFails(read, excluded, kev, before, ds, i + 1);
          deps := before;
          return false;
        }
      }
      assert ds[..|ds|] == ds;
      stored := true;
    }

    /** Rejects the pending proposals the scan contradicts, in whatever order they are listed. */
    method RejectSuperseded()
      modifies this`proposals
      ensures proposals.Keys == old(proposals).Keys
      ensures forall id :: id in proposals ==> proposals[id] == Reviewed(deps, old(proposals)[id])
    {
      var todo := set id | id in proposals && Pending(proposals[id]);
      while todo != {}
        invariant proposals.Keys == old(proposals).Keys && todo <= proposals.Keys
        invariant forall id :: id in todo ==> proposals[id] == old(proposals)[id]
        invariant forall id :: id in proposals && id !in todo ==> proposals[id] == Reviewed(deps, old(proposals)[id])
      {
        var id :| id in todo;
        todo := todo - {id};
        var p := proposals[id];
        if Superseded(deps, p) {
          proposals := proposals[id := p.(status := Rejected)];
        }
      }
    }

    method ScanPlatform(read: Reader, fetched: Fetched, now: int)
      modifies this
      ensures View() == Scan(read, old(View()), fetched, now)
    {
      if fetched.FetchFailed? || fetched.installed == [] {
        settings := settings.(lastScan := ScanFailed);
        return;
      }
      var excluded := settings.excluded;
      settings := settings.(lastScan := Running);
      var stored := ScanPackages(read, excluded, fetched.kev, fetched.installed);
      if !stored {
        return;
      }
      FinishScan(Names(fetched.installed));
      settings := settings.(lastScan := Success, lastSuccess := Some(now));
    }

    method FinishScan(installed: set<string>)
      modifies this`deps, this`proposals
      ensures deps == Remaining(old(deps), installed)
      ensures proposals == ReviewedAll(deps, old(proposals))
    {
      DropUninstalled(installed);
      RejectSuperseded();
    }

    /** Deleting a dependency takes its findings and its proposals along. */
    method DropUninstalled(installed: set<string>)
      modifies this`deps, this`proposals
      ensures deps == Remaining(old(deps), installed)
      ensures proposals == map id | id in old(proposals) && old(proposals)[id].dep in deps :: old(proposals)[id]
    {
      deps := map n | n in deps && n in installed :: deps[n];
      proposals := map id | id in proposals && proposals[id].dep in deps :: proposals[id];
    }

    /** One vulnerable dependency; false when two pending proposals share its target. */
    method ProposeUpdate(read: Reader, l: Listed) returns (ok: bool)
      requires l.dep in deps
      modifies this`deps, this`proposals, this`issued
      ensures ok <==> ProposeFor(read, old(View()), l).Some?
      ensures ok ==> View() == ProposeFor(read, old(View()), l).value
    {
      ok := true;
      if l.dep in settings.excluded {
        return;
      }
      var d := deps[l.dep];
      var fixes: seq<string> := [];
      for i := 0 to |l.cves|
        invariant fixes == Fixes(d, l.cves[..i])
      {
        assert l.cves[..i + 1][..i] == l.cves[..i];
        if Fixable(d, l.cves[i]) {
          fixes := fixes + [d.findings[l.cves[i]].fix.value];
        }
      }
      assert l.cves[..|l.cves|] == l.cves;
      if fixes == [] {
        deps := deps[l.dep := d.(blocked := Some(NoFix))];
        return;
      }
      if !AllReadable(read, fixes) {
        deps := deps[l.dep := d.(blocked := Some(UnreadableFix))];
        return;
      }
      var target := TargetOf(read, fixes);
      var same := Same(proposals, l.dep, target);
      if |same| > 1 {
        return false;
      }
      if |same| == 0 {
        proposals := proposals[issued := Proposal(l.dep, d.version, target, ReasonFor(d), FixedCves(d), Proposed, None, None)];
        issued := issued + 1;
      }
    }

    method ProposePlatformUpdates(read: Reader, now: int, listing: seq<Listed>)
      requires GoodListing(deps, listing)
      modifies this
      ensures View() == Propose(read, old(View()), now, listing)
    {
      if !RecentlyScanned(settings, now) {
        return;
      }
      var depsBefore, proposalsBefore, issuedBefore := deps, proposals, issued;
      for i := 0 to |listing|
        invariant settings == old(settings)
        invariant deps.Keys == old(deps).Keys
        invariant ProposeAll(read, old(View()), listing[..i]) == Some(View())
      {
        assert listing[..i + 1][..i] == listing[..i];
        var ok := ProposeUpdate(read, listing[i]);
        if !ok {
          ProposeFails(read, old(View()), listing, i + 1);
          deps, proposals, issued := depsBefore, proposalsBefore, issuedBefore;
          return;
        }
      }
      assert listing[..|listing|] == listing;
    }

    /** Whatever the assessment says, or if it fails, the proposal moves on. */
    method AiValidateProposals(picked: set<nat>)
      requires settings.requireAi ==> GoodBatch(proposals, picked)
      modifies this`proposals
      ensures proposals == if settings.requireAi then ValidatedAll(old(proposals), picked) else old(proposals)
    {
      if !settings.requireAi {
        return;
      }
      var todo := picked;
      while todo != {}
        invariant proposals.Keys == old(proposals).Keys && todo <= picked
        invariant forall id :: id in todo ==> id in proposals && proposals[id] == old(proposals)[id]
        invariant forall id :: id in proposals && id !in todo ==> proposals[id] == ValidatedAll(old(proposals), picked)[id]
      {
        var id :| id in todo;
        todo := todo - {id};
        proposals := proposals[id := proposals[id].(status := AiValidated)];
      }
    }

    /** The lines of the patched file, and whether any line was a requirement on the package. */
    static method PatchLines(name: string, target: string, lines: seq<string>) returns (patched: seq<string>, found: bool)
      ensures patched == Patched(name, target, lines)
      ensures found <==> exists i :: 0 <= i < |lines| && Pins(name, lines[i])
    {
      patched, found := [], false;
      ghost var where := 0;
      for i := 0 to |lines|
        invariant patched == Patched(name, target, lines[..i])
        invariant found ==> where < i && Pins(name, lines[where])
        invariant !found ==> forall k :: 0 <= k < i ==> !Pins(name, lines[k])
      {
        PatchedNext(name, target, lines, i);
        var pins := Pins(name, lines[i]);
        if pins {
          found, where := true, i;
        }
        patched := patched + [if pins then name + "==" + target else lines[i]];
      }
      assert lines[..|lines|] == lines;
    }

    method PrepareUpdate(id: nat, file: Requirements)
      requires id in proposals
      modifies this`proposals
      ensures proposals == old(proposals)[id := Prepared(old(proposals)[id], file)]
    {
      var p := proposals[id];
      if !file.Lines? {
        proposals := proposals[id := p.(status := Failed)];
        return;
      }
      var patched, found := PatchLines(p.dep, p.target, file.lines);
      if !found {
        proposals := proposals[id := p.(status := Failed)];
        return;
      }
      proposals := proposals[id := p.(status := ReadyForPr, patch := Some(Patch(file.lines, patched, p.current)))];
    }

    method ApplyApprovedUpdates(only: Option<nat>, file: Requirements)
      modifies this`proposals
      ensures proposals == PreparedAll(old(proposals), only, file)
    {
      var chosen := set id | id in proposals && proposals[id].status.Approved? && (only.Some? ==> only.value == id);
      PrepareEach(chosen, file, PreparedAll(proposals, only, file));
    }

    /** Prepares the chosen proposals, in whatever order they are listed. */
    method PrepareEach(chosen: set<nat>, file: Requirements, ghost after: map<nat, Proposal>)
      requires chosen <= proposals.Keys == after.Keys
      requires forall id :: id in chosen ==> after[id] == Prepared(proposals[id], file)
      requires forall id :: id in proposals && id !in chosen ==> after[id] == proposals[id]
      modifies this`proposals
      ensures proposals == after
    {
      var todo := chosen;
      while todo != {}
        invariant todo <= chosen && proposals.Keys == after.Keys
        invariant forall id :: id in todo ==> proposals[id] == old(proposals)[id]
        invariant forall id :: id in proposals && id !in todo ==> proposals[id] == after[id]
      {
        var id :| id in todo;
        todo := todo - {id};
        PrepareUpdate(id, file);
      }
    }

    /** Refused unless the proposal still waits for a decision. */
    method ApproveProposal(id: nat, admin: string) returns (ok: bool)
      modifies this`proposals
      ensures ok <==> id in old(proposals) && (old(proposals)[id].status.Proposed? || old(proposals)[id].status.AiValidated?)
      ensures forall read: Reader :: View() == Next(read, old(View()), Approve(id, admin))
    {
      ok := id in proposals && (proposals[id].status.Proposed? || proposals[id].status.AiValidated?);
      if ok {
        proposals := proposals[id := proposals[id].(status := Approved, approvedBy := Some(admin))];
      } else if id in proposals {
        assert old(proposals)[id := old(proposals)[id]] == old(proposals);
      }
    }

    method RejectProposal(id: nat)
      modifies this`proposals
      ensures forall read: Reader :: View() == Next(read, old(View()), Reject(id))
    {
      if id in proposals {
        proposals := proposals[id := proposals[id].(status := Rejected)];
      }
    }

    /** Accepts the request exactly when the queued task will have something to do. */
    method ApplyNow(id: nat) returns (queued: bool)
      ensures forall file :: queued <==> PreparedAll(proposals, Some(id), file) != proposals
    {
      queued := id in proposals && proposals[id].status.Approved?;
      forall file
        ensures queued <==> PreparedAll(proposals, Some(id), file) != proposals
      {
        PreparingOneChanges(proposals, id, file);
      }
    }

    method RollbackProposal(id: nat)
      modifies this`proposals
      ensures forall read: Reader :: View() == Next(read, old(View()), Rollback(id))
    {
      if id in proposals {
        assert old(proposals)[id := old(proposals)[id]] == old(proposals);
        if proposals[id].status.ReadyForPr? {
          proposals := proposals[id := proposals[id].(status := Approved, patch := None)];
        }
      }
    }

    method SuppressFinding(dep: string, cve: string)
      modifies this`deps
      ensures forall read: Reader :: View() == Next(read, old(View()), Suppress(dep, cve))
    {
      if dep in deps {
        assert old(deps)[dep := old(deps)[dep]] == old(deps);
        if cve in deps[dep].findings {
          var d := deps[dep];
          deps := deps[dep := d.(findings := d.findings[cve := d.findings[cve].(suppressed := true)])];
        }
      }
    }
  }
}
