/**
  What every run of scans, proposals and reviews keeps: fixes and targets above the versions
  they replace, and a patch only after an administrator's approval.
 */
module SelfSecurityTheorems {
  import opened Options
  import opened Releases
  import opened SelfSecurityRules

  // ---------- what holds in every reachable state ----------

  predicate FixesAbove(read: Reader, d: Dependency) {
    forall cve :: cve in d.findings && d.findings[cve].fix.Some? ==> Above(read, d.findings[cve].fix.value, d.version)
  }

  predicate GoodDep(read: Reader, d: Dependency) {
    FixesAbove(read, d) && |d.findings| <= d.cveCount && (d.findings == map[] ==> d.cveCount == 0)
  }

  predicate GoodDeps(read: Reader, deps: map<string, Dependency>) {
    forall n :: n in deps ==> GoodDep(read, deps[n])
  }

  predicate Approvable(p: Proposal) {
    && !p.status.Applying? && (Pending(p) ==> p.patch.None?)
    && (p.status.Approved? || p.status.ReadyForPr? || p.status.Failed? ==> p.approvedBy.Some?)
    && (p.status.ReadyForPr? ==>
          p.patch.Some? && p.patch.value == Patch(p.patch.value.original, Patched(p.dep, p.target, p.patch.value.original), p.current))
  }

  predicate GoodProposal(read: Reader, p: Proposal) { Above(read, p.target, p.current) && Approvable(p) }

  predicate GoodProposals(read: Reader, proposals: map<nat, Proposal>) {
    forall id :: id in proposals ==> GoodProposal(read, proposals[id])
  }

  // ---------- scan ----------

  predicate Repeats(existing: map<string, Finding>, fs: seq<Found>) {
    exists i, j :: 0 <= i < j < |fs| && fs[i].cve == fs[j].cve && fs[i].cve !in existing
  }

  function Cves(fs: seq<Found>): set<string> { set f | f in fs :: f.cve }

  lemma CvesOfMore(fs: seq<Found>)
    requires fs != []
    ensures Cves(fs) == Cves(fs[..|fs| - 1]) + {fs[|fs| - 1].cve}
  {
    assert fs == fs[..|fs| - 1] + [fs[|fs| - 1]];
  }

  lemma {:induction false} RowsAreReported(existing: map<string, Finding>, kev: set<string>, fs: seq<Found>)
    requires FindingRows(existing, kev, fs).Some?
    ensures FindingRows(existing, kev, fs).value.Keys == Cves(fs)
  {
    if fs != [] {
      RowsAreReported(existing, kev, fs[..|fs| - 1]);
      CvesOfMore(fs);
    }
  }

  lemma RepeatsOfMore(existing: map<string, Finding>, fs: seq<Found>)
    requires fs != []
    ensures Repeats(existing, fs) <==>
              || Repeats(existing, fs[..|fs| - 1])
              || (fs[|fs| - 1].cve in Cves(fs[..|fs| - 1]) && fs[|fs| - 1].cve !in existing)
  {
    var last := |fs| - 1;
    var init := fs[..last];
    if Repeats(existing, init) {
      var i, j :| 0 <= i < j < |init| && init[i].cve == init[j].cve && init[i].cve !in existing;
      assert fs[i].cve == fs[j].cve;
    }
    if fs[last].cve in Cves(init) && fs[last].cve !in existing {
      var i :| 0 <= i < last && init[i].cve == fs[last].cve;
      assert fs[i].cve == fs[last].cve;
    }
    if Repeats(existing, fs) {
      var i, j :| 0 <= i < j < |fs| && fs[i].cve == fs[j].cve && fs[i].cve !in existing;
      assert init[i] == fs[i];
      assert j < last ==> init[i].cve == init[j].cve;
    }
  }

  /** A scan stores nothing exactly when some package has a new CVE reported twice. */
  lemma {:induction false} RowsClashOnRepeats(existing: map<string, Finding>, kev: set<string>, fs: seq<Found>)
    ensures FindingRows(existing, kev, fs).None? <==> Repeats(existing, fs)
  {
    if fs != [] {
      var init := fs[..|fs| - 1];
      RowsClashOnRepeats(existing, kev, init);
      RepeatsOfMore(existing, fs);
      if FindingRows(existing, kev, init).Some? {
        RowsAreReported(existing, kev, init);
      }
    }
  }

  /** Each row carries the last report of its CVE; the mark that suppresses it survives. */
  lemma {:induction false} RowsComeFromReports(existing: map<string, Finding>, kev: set<string>, fs: seq<Found>, cve: string)
    returns (i: nat)
    requires FindingRows(existing, kev, fs).Some? && cve in FindingRows(existing, kev, fs).value
    ensures i < |fs| && fs[i].cve == cve
    ensures forall j :: i < j < |fs| ==> fs[j].cve != cve
    ensures FindingRows(existing, kev, fs).value[cve].fix == fs[i].fix
    ensures FindingRows(existing, kev, fs).value[cve].suppressed <==> cve in existing && existing[cve].suppressed
    ensures FindingRows(existing, kev, fs).value[cve].kev <==>
              exists id :: (id == cve || id in fs[i].aliases) && "CVE-" <= id && id in kev
  {
    var last := |fs| - 1;
    if fs[last].cve == cve {
      i := last;
      assert forall id :: id in [cve] + fs[i].aliases <==> id == cve || id in fs[i].aliases;
    } else {
      i := RowsComeFromReports(existing, kev, fs[..last], cve);
    }
  }

  predicate AllDistinct(fs: seq<Found>) { forall i, j :: 0 <= i < j < |fs| ==> fs[i].cve != fs[j].cve }

  lemma DistinctOfMore(fs: seq<Found>)
    requires fs != []
    ensures AllDistinct(fs) <==> AllDistinct(fs[..|fs| - 1]) && fs[|fs| - 1].cve !in Cves(fs[..|fs| - 1])
  {
    var last := |fs| - 1;
    var init := fs[..last];
    if fs[last].cve in Cves(init) {
      var i :| 0 <= i < last && init[i].cve == fs[last].cve;
      assert fs[i].cve == fs[last].cve;
    } else {
      assert forall i :: 0 <= i < last ==> init[i] == fs[i] && fs[i].cve in Cves(init);
    }
    if AllDistinct(fs) {
      assert forall i, j :: 0 <= i < j < last ==> init[i] == fs[i] && init[j] == fs[j];
    }
  }

  lemma {:induction false} CvesCount(fs: seq<Found>)
    ensures |Cves(fs)| <= |fs|
    ensures |Cves(fs)| == |fs| <==> AllDistinct(fs)
  {
    if fs != [] {
      CvesCount(fs[..|fs| - 1]);
      CvesOfMore(fs);
      DistinctOfMore(fs);
    }
  }

  /** The stored count is the number of reports: the number of rows exactly when no CVE is reported twice. */
  lemma RowsAreFewer(existing: map<string, Finding>, kev: set<string>, fs: seq<Found>)
    requires FindingRows(existing, kev, fs).Some?
    ensures |FindingRows(existing, kev, fs).value| <= |fs|
    ensures |FindingRows(existing, kev, fs).value| == |fs| <==> AllDistinct(fs)
    ensures FindingRows(existing, kev, fs).value == map[] ==> fs == []
  {
    var rows := FindingRows(existing, kev, fs).value;
    RowsAreReported(existing, kev, fs);
    CvesCount(fs);
    assert |rows| == |rows.Keys|;
    if fs != [] {
      assert fs[0].cve in Cves(fs);
    }
  }

  lemma ScannedRowsAreGood(read: Reader, d: Installed, existing: map<string, Finding>, kev: set<string>,
                           fs: seq<Found>, blocked: Option<Blocked>)
    requires RoundTrips(read) && (fs == [] || fs == FindVulns(read, d))
    requires FindingRows(existing, kev, fs).Some?
    ensures GoodDep(read, Dependency(d.version, |fs|, blocked, FindingRows(existing, kev, fs).value))
  {
    var rows := FindingRows(existing, kev, fs).value;
    RowsAreFewer(existing, kev, fs);
    forall cve | cve in rows && rows[cve].fix.Some?
      ensures Above(read, rows[cve].fix.value, d.version)
    {
      var i := RowsComeFromReports(existing, kev, fs, cve);
      FixIsLeast(read, d.version, Candidates(d.name, d.advisories[i].affected));
    }
  }

  lemma {:induction false} ScanAllKeepsDeps(read: Reader, excluded: set<string>, kev: set<string>,
                                            deps: map<string, Dependency>, ds: seq<Installed>)
    requires RoundTrips(read) && GoodDeps(read, deps)
    requires ScanAll(read, excluded, kev, deps, ds).Some?
    ensures GoodDeps(read, ScanAll(read, excluded, kev, deps, ds).value)
  {
    if ds != [] {
      var d := ds[|ds| - 1];
      ScanAllKeepsDeps(read, excluded, kev, deps, ds[..|ds| - 1]);
      var scanned := ScanAll(read, excluded, kev, deps, ds[..|ds| - 1]).value;
      ScannedRowsAreGood(read, d, FindingsOf(scanned, d.name), kev, Reported(read, excluded, d), BlockedOf(scanned, d.name));
    }
  }

  predicate DistinctNames(ds: seq<Installed>) { forall i, j :: 0 <= i < j < |ds| ==> ds[i].name != ds[j].name }

  /** What a scan leaves of one installed package. */
  predicate Scanned(read: Reader, excluded: set<string>, deps: map<string, Dependency>, d: Installed) {
    && d.name in deps && deps[d.name].version == d.version
    && deps[d.name].cveCount == |Reported(read, excluded, d)|
    && deps[d.name].findings.Keys == Cves(Reported(read, excluded, d))
  }

  lemma ScanOneScans(read: Reader, excluded: set<string>, kev: set<string>, deps: map<string, Dependency>, d: Installed)
    requires ScanOne(read, excluded, kev, deps, d).Some?
    ensures Scanned(read, excluded, ScanOne(read, excluded, kev, deps, d).value, d)
    ensures forall n :: n != d.name ==>
              var t := ScanOne(read, excluded, kev, deps, d).value;
              (n in t <==> n in deps) && (n in t ==> t[n] == deps[n])
  {
    RowsAreReported(FindingsOf(deps, d.name), kev, Reported(read, excluded, d));
  }

  lemma ScanOneLeaves(read: Reader, excluded: set<string>, kev: set<string>, deps: map<string, Dependency>,
                      d: Installed, other: Installed)
    requires ScanOne(read, excluded, kev, deps, d).Some?
    requires other.name != d.name && Scanned(read, excluded, deps, other)
    ensures Scanned(read, excluded, ScanOne(read, excluded, kev, deps, d).value, other)
  {
    ScanOneScans(read, excluded, kev, deps, d);
  }

  lemma {:induction false} ScanAllScans(read: Reader, excluded: set<string>, kev: set<string>,
                                        deps: map<string, Dependency>, ds: seq<Installed>, k: nat)
    requires DistinctNames(ds) && k < |ds| && ScanAll(read, excluded, kev, deps, ds).Some?
    ensures Scanned(read, excluded, ScanAll(read, excluded, kev, deps, ds).value, ds[k])
  {
    var last := |ds| - 1;
    var before := ScanAll(read, excluded, kev, deps, ds[..last]).value;
    if k < last {
      ScanAllScans(read, excluded, kev, deps, ds[..last], k);
      ScanOneLeaves(read, excluded, kev, before, ds[last], ds[k]);
    } else {
      ScanOneScans(read, excluded, kev, before, ds[last]);
    }
  }

  /** Scanning some packages leaves the findings of the others. */
  lemma {:induction false} ScanAllLeaves(read: Reader, excluded: set<string>, kev: set<string>,
                                         deps: map<string, Dependency>, ds: seq<Installed>, name: string)
    requires ScanAll(read, excluded, kev, deps, ds).Some? && forall i :: 0 <= i < |ds| ==> ds[i].name != name
    ensures FindingsOf(ScanAll(read, excluded, kev, deps, ds).value, name) == FindingsOf(deps, name)
    ensures BlockedOf(ScanAll(read, excluded, kev, deps, ds).value, name) == BlockedOf(deps, name)
  {
    if ds != [] {
      var last := |ds| - 1;
      ScanAllLeaves(read, excluded, kev, deps, ds[..last], name);
      ScanOneScans(read, excluded, kev, ScanAll(read, excluded, kev, deps, ds[..last]).value, ds[last]);
    }
  }

  /** The feed repeats a CVE that is new to the package. */
  predicate FeedRepeats(read: Reader, excluded: set<string>, deps: map<string, Dependency>, d: Installed) {
    Repeats(FindingsOf(deps, d.name), Reported(read, excluded, d))
  }

  predicate SomeOf<T>(test: T -> bool, xs: seq<T>) { exists k :: 0 <= k < |xs| && test(xs[k]) }

  lemma SomeOfMore<T>(test: T -> bool, xs: seq<T>)
    requires xs != []
    ensures SomeOf(test, xs) <==> SomeOf(test, xs[..|xs| - 1]) || test(xs[|xs| - 1])
  {
    var init := xs[..|xs| - 1];
    if k :| 0 <= k < |init| && test(init[k]) {
      assert xs[k] == init[k];
    }
    if k :| 0 <= k < |xs| && test(xs[k]) {
      assert k < |init| ==> init[k] == xs[k];
    }
  }

  predicate SomeFeedRepeats(read: Reader, excluded: set<string>, deps: map<string, Dependency>, ds: seq<Installed>) {
    SomeOf(d => FeedRepeats(read, excluded, deps, d), ds)
  }

  lemma ScanOneFailsExactly(read: Reader, excluded: set<string>, kev: set<string>, deps: map<string, Dependency>, d: Installed)
    ensures ScanOne(read, excluded, kev, deps, d).None? <==> FeedRepeats(read, excluded, deps, d)
  {
    RowsClashOnRepeats(FindingsOf(deps, d.name), kev, Reported(read, excluded, d));
  }

  /** A whole scan is refused exactly when the feed of some package repeats a CVE that was new before the scan. */
  lemma {:induction false} ScanFailsExactly(read: Reader, excluded: set<string>, kev: set<string>,
                                            deps: map<string, Dependency>, ds: seq<Installed>)
    requires DistinctNames(ds)
    ensures ScanAll(read, excluded, kev, deps, ds).None? <==> SomeFeedRepeats(read, excluded, deps, ds)
  {
    if ds != [] {
      var last := |ds| - 1;
      var init := ds[..last];
      ScanFailsExactly(read, excluded, kev, deps, init);
      SomeOfMore(d => FeedRepeats(read, excluded, deps, d), ds);
      if ScanAll(read, excluded, kev, deps, init).Some? {
        ScanAllLeaves(read, excluded, kev, deps, init, ds[last].name);
        ScanOneFailsExactly(read, excluded, kev, ScanAll(read, excluded, kev, deps, init).value, ds[last]);
      }
    }
  }

  lemma ScanKeepsDeps(read: Reader, db: Db, fetched: Fetched, now: int)
    requires RoundTrips(read) && GoodDeps(read, db.deps)
    ensures GoodDeps(read, Scan(read, db, fetched, now).deps)
  {
    if fetched.Resolved? && ScanAll(read, db.settings.excluded, fetched.kev, db.deps, fetched.installed).Some? {
      ScanAllKeepsDeps(read, db.settings.excluded, fetched.kev, db.deps, fetched.installed);
    }
  }

  // ---------- propose ----------

  lemma {:induction false} FixesHas(d: Dependency, cves: seq<string>, fix: string)
    ensures fix in Fixes(d, cves) <==>
              exists i :: 0 <= i < |cves| && Fixable(d, cves[i]) && d.findings[cves[i]].fix.value == fix
  {
    if cves != [] {
      var last := |cves| - 1;
      FixesHas(d, cves[..last], fix);
      assert forall i :: 0 <= i < last ==> cves[..last][i] == cves[i];
    }
  }

  lemma FixesAreAbove(read: Reader, d: Dependency, cves: seq<string>)
    requires FixesAbove(read, d)
    ensures forall i :: 0 <= i < |Fixes(d, cves)| ==> Above(read, Fixes(d, cves)[i], d.version)
    ensures AllReadable(read, Fixes(d, cves))
  {
    var fixes := Fixes(d, cves);
    forall i | 0 <= i < |fixes|
      ensures Above(read, fixes[i], d.version)
    {
      FixesHas(d, cves, fixes[i]);
      assert fixes[i] in fixes;
    }
  }

  lemma FixIsCovered(read: Reader, d: Dependency, cves: seq<string>, cve: string)
    requires FixesAbove(read, d) && cve in cves && Fixable(d, cve) && RoundTrips(read)
    ensures Fixes(d, cves) != [] && AllReadable(read, Fixes(d, cves))
    ensures AtLeast(read, TargetOf(read, Fixes(d, cves)), d.findings[cve].fix.value)
  {
    FixesAreAbove(read, d, cves);
    FixesHas(d, cves, d.findings[cve].fix.value);
    var fixes := Fixes(d, cves);
    var rs := ReadAll(read, fixes);
    var i :| 0 <= i < |fixes| && fixes[i] == d.findings[cve].fix.value;
    assert rs[i] == read(fixes[i]).value;
    var j :| 0 <= j < |rs| && rs[j] == Greatest(rs);
    assert read(fixes[j]) == Some(rs[j]);
  }

  /** The target is one of the fixes, so above the version it replaces. */
  lemma TargetIsAFix(read: Reader, d: Dependency, cves: seq<string>)
    requires FixesAbove(read, d) && Fixes(d, cves) != [] && RoundTrips(read)
    ensures AllReadable(read, Fixes(d, cves))
    ensures Above(read, TargetOf(read, Fixes(d, cves)), d.version)
    ensures exists fix :: fix in Fixes(d, cves) && read(fix) == read(TargetOf(read, Fixes(d, cves)))
  {
    FixesAreAbove(read, d, cves);
    var fixes := Fixes(d, cves);
    var rs := ReadAll(read, fixes);
    var j :| 0 <= j < |rs| && rs[j] == Greatest(rs);
    assert read(fixes[j]) == Some(rs[j]);
    assert fixes[j] in fixes;
  }

  predicate SameButBlocked(a: map<string, Dependency>, b: map<string, Dependency>) {
    a.Keys == b.Keys && forall n :: n in a ==> b[n] == a[n].(blocked := b[n].blocked)
  }

  /** A new proposal replaces the installed version by one at least as high as every fix it lists. */
  ghost predicate Drafted(read: Reader, d: Dependency, p: Proposal) {
    && p.current == d.version && Above(read, p.target, d.version)
    && p.cves == FixedCves(d)
    && (forall cve :: cve in p.cves ==> AtLeast(read, p.target, d.findings[cve].fix.value))
    && (exists cve :: cve in p.cves && read(d.findings[cve].fix.value) == read(p.target))
    && (p.reason.KevFix? <==> exists cve :: cve in d.findings && !d.findings[cve].suppressed && d.findings[cve].kev)
    && p.status.Proposed? && p.approvedBy.None? && p.patch.None?
  }

  lemma DraftIsDrafted(read: Reader, db: Db, l: Listed)
    requires RoundTrips(read) && GoodEntry(db.deps, l) && FixesAbove(read, db.deps[l.dep])
    requires Fixes(db.deps[l.dep], l.cves) != [] && AllReadable(read, Fixes(db.deps[l.dep], l.cves))
    ensures Drafted(read, db.deps[l.dep], Draft(db, l.dep, TargetOf(read, Fixes(db.deps[l.dep], l.cves))))
  {
    var d := db.deps[l.dep];
    var target := TargetOf(read, Fixes(d, l.cves));
    TargetIsAFix(read, d, l.cves);
    forall cve | cve in FixedCves(d)
      ensures AtLeast(read, target, d.findings[cve].fix.value)
    {
      assert cve in (set c | c in l.cves);
      FixIsCovered(read, d, l.cves, cve);
    }
    var fix :| fix in Fixes(d, l.cves) && read(fix) == read(target);
    FixesHas(d, l.cves, fix);
    var i :| 0 <= i < |l.cves| && Fixable(d, l.cves[i]) && d.findings[l.cves[i]].fix.value == fix;
    assert l.cves[i] in FixedCves(d);
  }

  ghost predicate New(read: Reader, deps: map<string, Dependency>, p: Proposal) {
    p.dep in deps && Drafted(read, deps[p.dep], p)
  }

  /** What proposing does: old proposals stay, new numbers carry new proposals, rows stay. */
  ghost predicate Adds(read: Reader, db: Db, t: Db) {
    && SameButBlocked(db.deps, t.deps)
    && db.issued <= t.issued
    && (forall id :: id in db.proposals ==> id in t.proposals && t.proposals[id] == db.proposals[id])
    && (forall id :: id in t.proposals && id !in db.proposals ==>
          db.issued <= id < t.issued && New(read, db.deps, t.proposals[id]))
  }

  predicate Numbered(db: Db) { forall id :: id in db.proposals ==> id < db.issued }

  lemma DraftAdds(read: Reader, db: Db, p: Proposal)
    requires Numbered(db) && New(read, db.deps, p)
    ensures Adds(read, db, db.(proposals := db.proposals[db.issued := p], issued := db.issued + 1))
  {}

  lemma BlockAdds(read: Reader, db: Db, dep: string, why: Blocked)
    requires dep in db.deps
    ensures Adds(read, db, Block(db, dep, why))
  {}

  lemma ProposeForKeepsNumbers(read: Reader, db: Db, l: Listed)
    requires Numbered(db) && l.dep in db.deps && ProposeFor(read, db, l).Some?
    ensures Numbered(ProposeFor(read, db, l).value)
  {}

  lemma ProposeForAdds(read: Reader, db: Db, l: Listed)
    requires RoundTrips(read) && GoodDeps(read, db.deps) && Numbered(db) && GoodEntry(db.deps, l)
    requires ProposeFor(read, db, l).Some?
    ensures Adds(read, db, ProposeFor(read, db, l).value)
  {
    var fixes := Fixes(db.deps[l.dep], l.cves);
    if fixes == [] {
      BlockAdds(read, db, l.dep, NoFix);
    } else if !AllReadable(read, fixes) {
      BlockAdds(read, db, l.dep, UnreadableFix);
    } else {
      DraftIsDrafted(read, db, l);
      DraftAdds(read, db, Draft(db, l.dep, TargetOf(read, fixes)));
    }
  }

  lemma AddsThenAdds(read: Reader, a: Db, b: Db, c: Db)
    requires Numbered(a) && Numbered(b) && Adds(read, a, b) && Adds(read, b, c)
    ensures Adds(read, a, c)
  {
    forall id | id in c.proposals && id !in a.proposals
      ensures a.issued <= id < c.issued && New(read, a.deps, c.proposals[id])
    {
      if id !in b.proposals {
        var p := c.proposals[id];
        assert FixedCves(a.deps[p.dep]) == FixedCves(b.deps[p.dep]);
      }
    }
  }

  lemma SameEntry(a: map<string, Dependency>, b: map<string, Dependency>, l: Listed)
    requires SameButBlocked(a, b) && GoodEntry(a, l)
    ensures GoodEntry(b, l)
  {}

  lemma SameDeps(read: Reader, a: map<string, Dependency>, b: map<string, Dependency>)
    requires SameButBlocked(a, b) && GoodDeps(read, a)
    ensures GoodDeps(read, b)
  {
    forall n | n in b
      ensures GoodDep(read, b[n])
    {
      assert GoodDep(read, a[n]);
    }
  }

  lemma {:induction false} ProposeAllAdds(read: Reader, db: Db, listing: seq<Listed>)
    requires RoundTrips(read) && GoodDeps(read, db.deps) && Numbered(db)
    requires forall i :: 0 <= i < |listing| ==> listing[i].dep in db.deps && GoodEntry(db.deps, listing[i])
    requires ProposeAll(read, db, listing).Some?
    ensures Adds(read, db, ProposeAll(read, db, listing).value)
    ensures Numbered(ProposeAll(read, db, listing).value)
  {
    if listing != [] {
      var last := |listing| - 1;
      ProposeAllAdds(read, db, listing[..last]);
      var t := ProposeAll(read, db, listing[..last]).value;
      SameEntry(db.deps, t.deps, listing[last]);
      SameDeps(read, db.deps, t.deps);
      ProposeForAdds(read, t, listing[last]);
      ProposeForKeepsNumbers(read, t, listing[last]);
      AddsThenAdds(read, db, t, ProposeFor(read, t, listing[last]).value);
    }
  }

  lemma ProposeAdds(read: Reader, db: Db, now: int, listing: seq<Listed>)
    requires RoundTrips(read) && GoodDeps(read, db.deps) && Numbered(db) && GoodListing(db.deps, listing)
    ensures Adds(read, db, Propose(read, db, now, listing))
    ensures Numbered(Propose(read, db, now, listing))
  {
    if RecentlyScanned(db.settings, now) && ProposeAll(read, db, listing).Some? {
      ProposeAllAdds(read, db, listing);
    }
  }

  // ---------- how one proposal moves ----------

  predicate PatchesRequirements(p: Proposal, patch: Patch) {
    && patch.previous == p.current
    && patch.proposed == Patched(p.dep, p.target, patch.original)
    && exists i :: 0 <= i < |patch.original| && Pins(p.dep, patch.original[i])
  }

  /** Every way a proposal's row can change. */
  predicate Moves(p: Proposal, q: Proposal) {
    || q == p
    || q == p.(status := Rejected)
    || (p.status.Proposed? && q == p.(status := AiValidated))
    || ((p.status.Proposed? || p.status.AiValidated?) && q.approvedBy.Some? && q == p.(status := Approved, approvedBy := q.approvedBy))
    || (p.status.Approved? && q == p.(status := Failed))
    || (p.status.Approved? && q.patch.Some? && PatchesRequirements(p, q.patch.value) && q == p.(status := ReadyForPr, patch := q.patch))
    || (p.status.ReadyForPr? && q == p.(status := Approved, patch := None))
  }

  lemma NextMoves(read: Reader, db: Db, step: Step, id: nat)
    requires RoundTrips(read) && GoodDeps(read, db.deps) && Numbered(db)
    requires id in db.proposals && id in Next(read, db, step).proposals
    ensures Moves(db.proposals[id], Next(read, db, step).proposals[id])
    ensures var p, q := db.proposals[id], Next(read, db, step).proposals[id];
            && (q.approvedBy != p.approvedBy ==> q.approvedBy.Some? && step == Approve(id, q.approvedBy.value))
            && (p.status.ReadyForPr? && q.status.Approved? ==> step == Rollback(id))
  {
    match step
    case ProposeUpdates(now, listing) =>
      if GoodListing(db.deps, listing) {
        ProposeAdds(read, db, now, listing);
      }
    case AiValidate(picked) =>
      if id in picked && GoodBatch(db.proposals, picked) {
        assert id in Awaiting(db.proposals);
      }
    case Prepare(only, file) =>
      if db.proposals[id].status.Approved? {
        PreparedMoves(db.proposals[id], file);
      }
    case _ =>
  }

  lemma PreparedMoves(p: Proposal, file: Requirements)
    requires p.status.Approved?
    ensures Moves(p, Prepared(p, file))
  {}

  /** A number not in use before is a new one, and its proposal was just drafted. */
  lemma NextDrafts(read: Reader, db: Db, step: Step, id: nat)
    requires RoundTrips(read) && GoodDeps(read, db.deps) && Numbered(db)
    requires id in Next(read, db, step).proposals && id !in db.proposals
    ensures step.ProposeUpdates? && db.issued <= id
    ensures New(read, db.deps, Next(read, db, step).proposals[id])
  {
    if step.ProposeUpdates? && GoodListing(db.deps, step.listing) {
      ProposeAdds(read, db, step.now, step.listing);
    }
  }

  lemma SuppressedStaysGood(read: Reader, d: Dependency, cve: string)
    requires GoodDep(read, d)
    ensures GoodDep(read, Suppressed(d, cve))
  {
    var e := Suppressed(d, cve);
    assert e.findings.Keys == d.findings.Keys;
    assert |e.findings| == |e.findings.Keys| && |d.findings| == |d.findings.Keys|;
  }

  lemma NextKeepsDeps(read: Reader, db: Db, step: Step)
    requires RoundTrips(read) && GoodDeps(read, db.deps) && Numbered(db)
    ensures GoodDeps(read, Next(read, db, step).deps)
  {
    match step
    case RunScan(fetched, now) => ScanKeepsDeps(read, db, fetched, now);
    case ProposeUpdates(now, listing) =>
      if GoodListing(db.deps, listing) {
        ProposeAdds(read, db, now, listing);
        SameDeps(read, db.deps, Propose(read, db, now, listing).deps);
      }
    case Suppress(dep, cve) =>
      if dep in db.deps {
        SuppressedStaysGood(read, db.deps[dep], cve);
      }
    case _ =>
  }

  lemma NextKeepsNumbers(read: Reader, db: Db, step: Step)
    requires RoundTrips(read) && GoodDeps(read, db.deps) && Numbered(db)
    ensures Numbered(Next(read, db, step)) && db.issued <= Next(read, db, step).issued
  {
    if step.ProposeUpdates? && GoodListing(db.deps, step.listing) {
      ProposeAdds(read, db, step.now, step.listing);
    }
  }

  /** Proposals live and die with their dependency. */
  predicate Owned(db: Db) { forall id :: id in db.proposals ==> db.proposals[id].dep in db.deps }

  lemma NextKeepsNames(read: Reader, db: Db, step: Step)
    requires RoundTrips(read) && GoodDeps(read, db.deps) && Numbered(db) && !step.RunScan?
    ensures Next(read, db, step).deps.Keys == db.deps.Keys
  {
    if step.ProposeUpdates? && GoodListing(db.deps, step.listing) {
      ProposeAdds(read, db, step.now, step.listing);
    }
  }

  lemma ScanKeepsOwned(read: Reader, db: Db, fetched: Fetched, now: int)
    requires Owned(db)
    ensures Owned(Scan(read, db, fetched, now))
  {}

  lemma NextKeepsOwned(read: Reader, db: Db, step: Step)
    requires RoundTrips(read) && GoodDeps(read, db.deps) && Numbered(db) && Owned(db)
    ensures Owned(Next(read, db, step))
  {
    if step.RunScan? {
      ScanKeepsOwned(read, db, step.fetched, step.now);
    } else {
      NextKeepsNames(read, db, step);
      var t := Next(read, db, step);
      forall id | id in t.proposals
        ensures t.proposals[id].dep in t.deps
      {
        if id in db.proposals {
          NextMoves(read, db, step, id);
        } else {
          NextDrafts(read, db, step, id);
        }
      }
    }
  }

  lemma MoveKeepsGood(read: Reader, p: Proposal, q: Proposal)
    requires GoodProposal(read, p) && Moves(p, q)
    ensures GoodProposal(read, q)
  {}

  lemma NextKeepsProposals(read: Reader, db: Db, step: Step)
    requires RoundTrips(read) && GoodDeps(read, db.deps) && Numbered(db) && GoodProposals(read, db.proposals)
    ensures GoodProposals(read, Next(read, db, step).proposals)
  {
    forall id | id in Next(read, db, step).proposals
      ensures GoodProposal(read, Next(read, db, step).proposals[id])
    {
      if id in db.proposals {
        NextMoves(read, db, step, id);
        MoveKeepsGood(read, db.proposals[id], Next(read, db, step).proposals[id]);
      } else {
        NextDrafts(read, db, step, id);
      }
    }
  }

  ghost predicate Inv(read: Reader, db: Db) {
    GoodDeps(read, db.deps) && GoodProposals(read, db.proposals) && Numbered(db) && Owned(db)
  }

  lemma NextKeepsInv(read: Reader, db: Db, step: Step)
    requires RoundTrips(read) && Inv(read, db)
    ensures Inv(read, Next(read, db, step))
  {
    NextKeepsDeps(read, db, step);
    NextKeepsNumbers(read, db, step);
    NextKeepsOwned(read, db, step);
    NextKeepsProposals(read, db, step);
  }

  /**
    In every state reachable from an empty database, each stored fix is above its dependency's
    version, each proposal's target is above the version it replaces, and whatever is approved,
    prepared or failed carries an administrator's name.
   */
  lemma {:induction false} RunKeepsInv(read: Reader, settings: Settings, steps: seq<Step>)
    requires RoundTrips(read)
    ensures Inv(read, Run(read, Start(settings), steps))
  {
    if steps != [] {
      RunKeepsInv(read, settings, steps[..|steps| - 1]);
      NextKeepsInv(read, Run(read, Start(settings), steps[..|steps| - 1]), steps[|steps| - 1]);
    }
  }

  lemma {:induction false} RunFromKeepsInv(read: Reader, db: Db, steps: seq<Step>)
    requires RoundTrips(read) && Inv(read, db)
    ensures Inv(read, Run(read, db, steps)) && db.issued <= Run(read, db, steps).issued
  {
    if steps != [] {
      var t := Run(read, db, steps[..|steps| - 1]);
      RunFromKeepsInv(read, db, steps[..|steps| - 1]);
      NextKeepsInv(read, t, steps[|steps| - 1]);
      NextKeepsNumbers(read, t, steps[|steps| - 1]);
    }
  }

  // ---------- the life of one proposal ----------

  /** What a proposal proposes never changes, a rejection is final, and numbers are not used again. */
  lemma {:induction false} ProposalsAreImmutable(read: Reader, db: Db, steps: seq<Step>, id: nat)
    requires RoundTrips(read) && Inv(read, db)
    requires id < db.issued && id in Run(read, db, steps).proposals
    ensures id in db.proposals
    ensures var p, q := db.proposals[id], Run(read, db, steps).proposals[id];
            && q.dep == p.dep && q.current == p.current && q.target == p.target && q.reason == p.reason && q.cves == p.cves
            && (p.status.Rejected? ==> q.status.Rejected?)
            && (p.status.Failed? ==> q.status.Failed? || q.status.Rejected?)
  {
    if steps != [] {
      var t := Run(read, db, steps[..|steps| - 1]);
      var step := steps[|steps| - 1];
      RunFromKeepsInv(read, db, steps[..|steps| - 1]);
      if id !in t.proposals {
        NextDrafts(read, t, step, id);
      }
      ProposalsAreImmutable(read, db, steps[..|steps| - 1], id);
      NextMoves(read, t, step, id);
    }
  }

  lemma ApprovalIsAStep(read: Reader, db: Db, step: Step, id: nat)
    requires RoundTrips(read) && Inv(read, db)
    requires id in Next(read, db, step).proposals && Next(read, db, step).proposals[id].approvedBy.Some?
    ensures id in db.proposals
    ensures db.proposals[id].approvedBy == Next(read, db, step).proposals[id].approvedBy
         || step == Approve(id, Next(read, db, step).proposals[id].approvedBy.value)
  {
    if id in db.proposals {
      NextMoves(read, db, step, id);
    } else {
      NextDrafts(read, db, step, id);
    }
  }

  /** An administrator's name on a proposal was put there by that administrator's approval of it. */
  lemma {:induction false} NamesComeFromApprovals(read: Reader, settings: Settings, steps: seq<Step>, id: nat)
    returns (i: nat)
    requires RoundTrips(read) && id in Run(read, Start(settings), steps).proposals
    requires Run(read, Start(settings), steps).proposals[id].approvedBy.Some?
    ensures i < |steps|
    ensures steps[i] == Approve(id, Run(read, Start(settings), steps).proposals[id].approvedBy.value)
  {
    var last := |steps| - 1;
    var t := Run(read, Start(settings), steps[..last]);
    RunKeepsInv(read, settings, steps[..last]);
    ApprovalIsAStep(read, t, steps[last], id);
    if t.proposals[id].approvedBy.Some? && steps[last] != Approve(id, Run(read, Start(settings), steps).proposals[id].approvedBy.value) {
      i := NamesComeFromApprovals(read, settings, steps[..last], id);
    } else {
      i := last;
    }
  }

  /** A patch is prepared only for a proposal that the named administrator approved earlier in the run. */
  lemma PatchNeedsApproval(read: Reader, settings: Settings, steps: seq<Step>, id: nat) returns (i: nat)
    requires RoundTrips(read) && id in Run(read, Start(settings), steps).proposals
    requires Run(read, Start(settings), steps).proposals[id].status.ReadyForPr?
    ensures var p := Run(read, Start(settings), steps).proposals[id];
            && i < |steps| && p.approvedBy.Some? && steps[i] == Approve(id, p.approvedBy.value)
            && Above(read, p.target, p.current)
            && p.patch.Some? && p.patch.value.proposed == Patched(p.dep, p.target, p.patch.value.original)
  {
    RunKeepsInv(read, settings, steps);
    i := NamesComeFromApprovals(read, settings, steps, id);
  }
}
