/**
  What a completed scan stores of an installed package, read off its advisories: which CVEs,
  which fix for each, which are known exploited and which stay suppressed.
 */
module SelfSecurityFindings {
  import opened Options
  import opened Releases
  import opened SelfSecurityRules
  import opened SelfSecurityTheorems
  import opened SelfSecurityReview
  import opened Texts

  // ---------- what an advisory says ----------

  /** The advisory lists `v` as fixed for the package of this name. */
  ghost predicate ListsFix(a: Advisory, name: string, v: string) {
    exists j :: 0 <= j < |a.affected| && SameLetters(a.affected[j].package, name) && v in a.affected[j].fixed
  }

  /** The advisory is about this CVE: the first CVE among its aliases, its own id when there is none. */
  ghost predicate IsAbout(a: Advisory, cve: string) {
    || (cve == a.id && forall k :: 0 <= k < |a.aliases| ==> !("CVE-" <= a.aliases[k]))
    || exists k :: 0 <= k < |a.aliases| && FirstCve(a.aliases, k) && a.aliases[k] == cve
  }

  ghost predicate FirstCve(aliases: seq<string>, k: nat)
    requires k < |aliases|
  {
    "CVE-" <= aliases[k] && forall m :: 0 <= m < k ==> !("CVE-" <= aliases[m])
  }

  lemma {:induction false} CandidatesAre(name: string, affected: seq<Affected>, v: string)
    ensures v in Candidates(name, affected) <==>
              exists j :: 0 <= j < |affected| && SameLetters(affected[j].package, name) && v in affected[j].fixed
  {
    if affected != [] {
      var last := |affected| - 1;
      var init := affected[..last];
      CandidatesAre(name, init, v);
      SameLettersExactly(affected[last].package, name);
      if j :| 0 <= j < last && SameLetters(init[j].package, name) && v in init[j].fixed {
        assert SameLetters(affected[j].package, name) && v in affected[j].fixed;
      }
      if j :| 0 <= j < last && SameLetters(affected[j].package, name) && v in affected[j].fixed {
        assert SameLetters(init[j].package, name) && v in init[j].fixed;
      }
    }
  }

  lemma {:induction false} CveOfIsAbout(id: string, aliases: seq<string>, affected: seq<Affected>)
    ensures IsAbout(Advisory(id, aliases, affected), CveOf(id, aliases))
  {
    if aliases != [] && !IsCve(aliases[0]) {
      var rest := aliases[1..];
      CveOfIsAbout(id, rest, affected);
      assert forall k :: 0 <= k < |rest| ==> rest[k] == aliases[k + 1];
      if k :| 0 <= k < |rest| && FirstCve(rest, k) && rest[k] == CveOf(id, rest) {
        assert FirstCve(aliases, k + 1);
      } else {
        assert forall k :: 0 < k < |aliases| ==> aliases[k] == rest[k - 1];
      }
    } else if aliases != [] {
      assert FirstCve(aliases, 0);
    }
  }

  lemma IsAboutOne(a: Advisory, cve: string)
    ensures IsAbout(a, cve) <==> cve == CveOf(a.id, a.aliases)
  {
    CveOfIsAbout(a.id, a.aliases, a.affected);
  }

  // ---------- what a scan stores ----------

  /** The row of an installed package, given the packages there were. */
  ghost predicate StoredFrom(read: Reader, excluded: set<string>, kev: set<string>, before: map<string, Dependency>,
                             d: Installed, row: Dependency) {
    && row.version == d.version && row.cveCount == |Reported(read, excluded, d)|
    && row.blocked == BlockedOf(before, d.name)
    && FindingRows(FindingsOf(before, d.name), kev, Reported(read, excluded, d)) == Some(row.findings)
  }

  lemma ScanOneStores(read: Reader, excluded: set<string>, kev: set<string>, deps: map<string, Dependency>, d: Installed)
    requires ScanOne(read, excluded, kev, deps, d).Some?
    ensures d.name in ScanOne(read, excluded, kev, deps, d).value
    ensures StoredFrom(read, excluded, kev, deps, d, ScanOne(read, excluded, kev, deps, d).value[d.name])
  {}

  /** The row depends on what the package had, not on the other packages. */
  lemma SameBefore(read: Reader, excluded: set<string>, kev: set<string>, a: map<string, Dependency>, b: map<string, Dependency>,
                   d: Installed, row: Dependency)
    requires FindingsOf(a, d.name) == FindingsOf(b, d.name) && BlockedOf(a, d.name) == BlockedOf(b, d.name)
    requires StoredFrom(read, excluded, kev, a, d, row)
    ensures StoredFrom(read, excluded, kev, b, d, row)
  {}

  lemma LastScan(read: Reader, excluded: set<string>, kev: set<string>, deps: map<string, Dependency>, ds: seq<Installed>)
    requires ds != [] && ScanAll(read, excluded, kev, deps, ds).Some?
    ensures ScanAll(read, excluded, kev, deps, ds[..|ds| - 1]).Some?
    ensures ScanAll(read, excluded, kev, deps, ds)
         == ScanOne(read, excluded, kev, ScanAll(read, excluded, kev, deps, ds[..|ds| - 1]).value, ds[|ds| - 1])
  {}

  lemma OtherStays(read: Reader, excluded: set<string>, kev: set<string>, deps: map<string, Dependency>,
                   before: map<string, Dependency>, d: Installed, other: Installed, after: map<string, Dependency>)
    requires ScanOne(read, excluded, kev, before, d) == Some(after) && other.name != d.name
    requires other.name in before && StoredFrom(read, excluded, kev, deps, other, before[other.name])
    ensures other.name in after && StoredFrom(read, excluded, kev, deps, other, after[other.name])
  {
    ScanOneScans(read, excluded, kev, before, d);
    assert after[other.name] == before[other.name];
  }

  lemma LastIsStored(read: Reader, excluded: set<string>, kev: set<string>, deps: map<string, Dependency>,
                     before: map<string, Dependency>, d: Installed, after: map<string, Dependency>)
    requires ScanOne(read, excluded, kev, before, d) == Some(after)
    requires FindingsOf(before, d.name) == FindingsOf(deps, d.name) && BlockedOf(before, d.name) == BlockedOf(deps, d.name)
    ensures d.name in after && StoredFrom(read, excluded, kev, deps, d, after[d.name])
  {
    ScanOneStores(read, excluded, kev, before, d);
    SameBefore(read, excluded, kev, before, deps, d, after[d.name]);
  }

  lemma {:induction false} ScanAllStores(read: Reader, excluded: set<string>, kev: set<string>, deps: map<string, Dependency>,
                                         ds: seq<Installed>, k: nat, after: map<string, Dependency>)
    requires DistinctNames(ds) && k < |ds| && ScanAll(read, excluded, kev, deps, ds) == Some(after)
    ensures ds[k].name in after && StoredFrom(read, excluded, kev, deps, ds[k], after[ds[k].name])
  {
    var last := |ds| - 1;
    LastScan(read, excluded, kev, deps, ds);
    var before := ScanAll(read, excluded, kev, deps, ds[..last]).value;
    if k < last {
      ScanAllStores(read, excluded, kev, deps, ds[..last], k, before);
      OtherStays(read, excluded, kev, deps, before, ds[last], ds[k], after);
    } else {
      ScanAllLeaves(read, excluded, kev, deps, ds[..last], ds[last].name);
      LastIsStored(read, excluded, kev, deps, before, ds[last], after);
    }
  }

  lemma ScanStores(read: Reader, db: Db, fetched: Fetched, now: int, k: nat)
    requires Storable(read, db, fetched) && k < |fetched.installed|
    ensures var t, d := Scan(read, db, fetched, now), fetched.installed[k];
            d.name in t.deps
            && StoredFrom(read, db.settings.excluded, fetched.kev, db.deps, d, t.deps[d.name])
  {
    StorableScans(read, db, fetched);
    ScanAllStores(read, db.settings.excluded, fetched.kev, db.deps, fetched.installed, k,
                  ScanAll(read, db.settings.excluded, fetched.kev, db.deps, fetched.installed).value);
    assert fetched.installed[k].name in Names(fetched.installed);
  }

  /** The CVEs stored for a package are those its advisories are about; none when the package is excluded. */
  lemma StoredCvesAreReported(read: Reader, db: Db, fetched: Fetched, now: int, k: nat, cve: string)
    requires Storable(read, db, fetched) && k < |fetched.installed|
    ensures var t, d := Scan(read, db, fetched, now), fetched.installed[k];
            && d.name in t.deps && t.deps[d.name].version == d.version
            && t.deps[d.name].blocked == (if d.name in db.deps then db.deps[d.name].blocked else None)
            && t.deps[d.name].cveCount == (if d.name in db.settings.excluded then 0 else |d.advisories|)
            && (cve in t.deps[d.name].findings <==>
                  d.name !in db.settings.excluded && exists i :: 0 <= i < |d.advisories| && IsAbout(d.advisories[i], cve))
  {
    var d := fetched.installed[k];
    var fs := Reported(read, db.settings.excluded, d);
    ScanStores(read, db, fetched, now, k);
    RowsAreReported(FindingsOf(db.deps, d.name), fetched.kev, fs);
    if d.name !in db.settings.excluded {
      forall i | 0 <= i < |d.advisories|
        ensures IsAbout(d.advisories[i], cve) <==> fs[i].cve == cve
      {
        IsAboutOne(d.advisories[i], cve);
      }
      if cve in Cves(fs) {
        var i :| 0 <= i < |fs| && fs[i].cve == cve;
        assert IsAbout(d.advisories[i], cve);
      }
      if i :| 0 <= i < |d.advisories| && IsAbout(d.advisories[i], cve) { assert fs[i].cve == cve; }
    }
  }

  /** A stored fix is the least listed one above the version, and there is one exactly when some listed version is above. */
  ghost predicate FixOf(read: Reader, d: Installed, a: Advisory, fix: Option<string>) {
    && (fix.Some? <==> exists v :: ListsFix(a, d.name, v) && Above(read, v, d.version))
    && (fix.Some? ==>
          && Above(read, fix.value, d.version)
          && (exists v :: ListsFix(a, d.name, v) && read(v) == read(fix.value))
          && (forall v :: ListsFix(a, d.name, v) && Above(read, v, d.version) ==> AtLeast(read, v, fix.value)))
  }

  lemma FixIsOfAdvisory(read: Reader, d: Installed, a: Advisory)
    requires RoundTrips(read)
    ensures FixOf(read, d, a, FixFor(read, d.version, Candidates(d.name, a.affected)))
  {
    var candidates := Candidates(d.name, a.affected);
    FixIsLeast(read, d.version, candidates);
    forall v
      ensures ListsFix(a, d.name, v) <==> v in candidates
    {
      CandidatesAre(d.name, a.affected, v);
    }
    forall v | ListsFix(a, d.name, v) && Above(read, v, d.version)
      ensures exists i :: 0 <= i < |candidates| && candidates[i] == v
    {
      assert v in candidates;
    }
    forall i | 0 <= i < |candidates|
      ensures ListsFix(a, d.name, candidates[i])
    {
      assert candidates[i] in candidates;
    }
  }

  lemma FindingsSayWhatAdvisoriesSay(read: Reader, d: Installed)
    ensures RoundTrips(read) ==>
              forall k :: 0 <= k < |d.advisories| ==>
                && IsAbout(d.advisories[k], FindVulns(read, d)[k].cve)
                && FixOf(read, d, d.advisories[k], FindVulns(read, d)[k].fix)
  {
    if RoundTrips(read) {
      forall k | 0 <= k < |d.advisories|
        ensures IsAbout(d.advisories[k], FindVulns(read, d)[k].cve) && FixOf(read, d, d.advisories[k], FindVulns(read, d)[k].fix)
      {
        IsAboutOne(d.advisories[k], FindVulns(read, d)[k].cve);
        FixIsOfAdvisory(read, d, d.advisories[k]);
      }
    }
  }

  /**
    Main result on findings: every finding a scan stores is the last advisory's about its CVE,
    with the least version that advisory lists as fixed for this very package above the
    installed one, its known-exploited mark from the catalog, and the suppression it had before.
   */
  lemma StoredFindingsAreExact(read: Reader, db: Db, fetched: Fetched, now: int, k: nat, cve: string) returns (i: nat)
    requires RoundTrips(read) && Storable(read, db, fetched) && k < |fetched.installed|
    requires fetched.installed[k].name in Scan(read, db, fetched, now).deps
    requires cve in Scan(read, db, fetched, now).deps[fetched.installed[k].name].findings
    ensures var d := fetched.installed[k];
            var row := Scan(read, db, fetched, now).deps[d.name].findings[cve];
            && i < |d.advisories| && IsAbout(d.advisories[i], cve)
            && (forall j :: i < j < |d.advisories| ==> !IsAbout(d.advisories[j], cve))
            && FixOf(read, d, d.advisories[i], row.fix)
            && (row.kev <==> exists id :: (id == cve || id in d.advisories[i].aliases) && "CVE-" <= id && id in fetched.kev)
            && (row.suppressed <==>
                  d.name in db.deps && cve in db.deps[d.name].findings && db.deps[d.name].findings[cve].suppressed)
  {
    var d := fetched.installed[k];
    var fs := Reported(read, db.settings.excluded, d);
    ScanStores(read, db, fetched, now, k);
    i := RowsComeFromReports(FindingsOf(db.deps, d.name), fetched.kev, fs, cve);
    FixIsOfAdvisory(read, d, d.advisories[i]);
    IsAboutOne(d.advisories[i], cve);
    forall j | i < j < |d.advisories|
      ensures !IsAbout(d.advisories[j], cve)
    {
      IsAboutOne(d.advisories[j], cve);
      assert fs[j].cve != cve;
    }
  }
}
