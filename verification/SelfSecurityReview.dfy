/**
  Whether pending updates stay current and unique, what proposing twice does, and what a
  prepared patch says.
 */
module SelfSecurityReview {
  import opened Options
  import opened Releases
  import opened SelfSecurityRules
  import opened SelfSecurityTheorems
  import opened Texts

  // ---------- pending proposals and the installed version ----------

  /** Every pending proposal starts from the version that is installed. */
  predicate Current(db: Db) {
    forall id :: id in db.proposals && Pending(db.proposals[id]) ==> IsCurrent(db, db.proposals[id])
  }

  predicate IsCurrent(db: Db, p: Proposal) { p.dep in db.deps && p.current == db.deps[p.dep].version }

  /** An inventory, as the installed distributions are listed. */
  predicate Inventory(fetched: Fetched) { fetched.Resolved? && fetched.installed != [] && DistinctNames(fetched.installed) }

  /** The feeds of an inventory can all be stored. */
  predicate Storable(read: Reader, db: Db, fetched: Fetched) {
    Inventory(fetched) && !SomeFeedRepeats(read, db.settings.excluded, db.deps, fetched.installed)
  }

  lemma StorableScans(read: Reader, db: Db, fetched: Fetched)
    requires Storable(read, db, fetched)
    ensures ScanAll(read, db.settings.excluded, fetched.kev, db.deps, fetched.installed).Some?
  {
    ScanFailsExactly(read, db.settings.excluded, fetched.kev, db.deps, fetched.installed);
  }

  /**
    How a scan ends: it completes exactly on feeds that can all be stored; otherwise the tables
    stay as they were, and the status is "running" when the feeds were fetched, "failed" when not.
   */
  lemma ScanEndsExactly(read: Reader, db: Db, fetched: Fetched, now: int)
    requires fetched.Resolved? ==> DistinctNames(fetched.installed)
    ensures var t := Scan(read, db, fetched, now);
            && (t.settings.lastScan.Success? <==> Storable(read, db, fetched))
            && (t.settings.lastScan.Running? <==> Inventory(fetched) && !Storable(read, db, fetched))
            && (t.settings.lastScan.ScanFailed? <==> !Inventory(fetched))
            && (!t.settings.lastScan.Success? ==>
                  t == db.(settings := db.settings.(lastScan := t.settings.lastScan)))
            && (t.settings.lastScan.Success? ==>
                  && t.settings == db.settings.(lastScan := Success, lastSuccess := Some(now)) && t.issued == db.issued)
  {
    if Inventory(fetched) {
      ScanFailsExactly(read, db.settings.excluded, fetched.kev, db.deps, fetched.installed);
    }
  }

  /** Two advisories for one CVE, as two databases publish them. */
  function TwiceReported(): Fetched {
    Resolved([Installed("a", "1", [Advisory("GHSA-1", ["CVE-1"], []), Advisory("PYSEC-1", ["CVE-1"], [])])], {})
  }

  /** They stop every first scan, and leave it "running". */
  lemma TwiceReportedStopsScan(read: Reader, requireAi: bool, now: int)
    ensures var s := Settings({}, requireAi, Never, None);
            Scan(read, Start(s), TwiceReported(), now) == Start(s.(lastScan := Running))
  {
    var s := Settings({}, requireAi, Never, None);
    var d := TwiceReported().installed[0];
    var fs := Reported(read, {}, d);
    assert CveOf("GHSA-1", ["CVE-1"]) == CveOf("PYSEC-1", ["CVE-1"]) == "CVE-1";
    assert fs[0].cve == "CVE-1" && fs[1].cve == "CVE-1";
    assert FeedRepeats(read, {}, map[], d);
    ScanFailsExactly(read, {}, {}, map[], TwiceReported().installed);
  }

  /**
    A scan that completes leaves exactly the installed packages, each with its version and its
    reported CVEs; it drops the proposals of the others, and rejects exactly the pending ones
    whose package has no findings or another version.
   */
  lemma ScanIsExact(read: Reader, db: Db, fetched: Fetched, now: int, k: nat)
    requires Storable(read, db, fetched) && k < |fetched.installed|
    ensures var t, d := Scan(read, db, fetched, now), fetched.installed[k];
            && Scanned(read, db.settings.excluded, t.deps, d)
            && (forall n :: n in t.deps ==> n in Names(fetched.installed))
            && forall id :: id in db.proposals && db.proposals[id].dep == d.name ==>
                 && id in t.proposals
                 && t.proposals[id] == if Pending(db.proposals[id]) && (d.name in db.settings.excluded || d.advisories == []
                                                                        || db.proposals[id].current != d.version)
                                       then db.proposals[id].(status := Rejected) else db.proposals[id]
  {
    StorableScans(read, db, fetched);
    ScanAllScans(read, db.settings.excluded, fetched.kev, db.deps, fetched.installed, k);
    assert fetched.installed[k].name in Names(fetched.installed);
  }

  /** A pending proposal that survives a scan still targets above the installed, still vulnerable version. */
  lemma SurvivorsTargetAbove(read: Reader, db: Db, fetched: Fetched, now: int, id: nat)
    requires RoundTrips(read) && Inv(read, db)
    requires Storable(read, db, fetched)
    requires id in Scan(read, db, fetched, now).proposals && Pending(Scan(read, db, fetched, now).proposals[id])
    ensures var t := Scan(read, db, fetched, now);
            var p := t.proposals[id];
            && p == db.proposals[id] && IsCurrent(t, p)
            && Above(read, p.target, t.deps[p.dep].version) && t.deps[p.dep].cveCount > 0
  {
    StorableScans(read, db, fetched);
    assert GoodProposal(read, db.proposals[id]);
  }

  /** Taking back a prepared patch whose package has moved on. */
  predicate Revives(db: Db, step: Step) {
    step.Rollback? && step.id in db.proposals && db.proposals[step.id].status.ReadyForPr? && !IsCurrent(db, db.proposals[step.id])
  }

  lemma ScanKeepsCurrent(read: Reader, db: Db, fetched: Fetched, now: int)
    requires Current(db)
    ensures Current(Scan(read, db, fetched, now))
  {}

  lemma ProposeKeepsCurrent(read: Reader, db: Db, now: int, listing: seq<Listed>)
    requires RoundTrips(read) && Inv(read, db) && Current(db) && GoodListing(db.deps, listing)
    ensures Current(Propose(read, db, now, listing))
  {
    ProposeAdds(read, db, now, listing);
    var t := Propose(read, db, now, listing);
    forall id | id in t.proposals && Pending(t.proposals[id])
      ensures IsCurrent(t, t.proposals[id])
    {
      assert id in db.proposals ==> IsCurrent(db, db.proposals[id]);
    }
  }

  lemma SuppressKeepsVersions(read: Reader, db: Db, step: Step)
    requires !step.RunScan? && !step.ProposeUpdates?
    ensures var t := Next(read, db, step);
            t.deps.Keys == db.deps.Keys && forall n :: n in db.deps ==> t.deps[n].version == db.deps[n].version
  {}

  /** Pending proposals stay current, except when a rollback brings back a patch for an older version. */
  lemma NextKeepsCurrent(read: Reader, db: Db, step: Step)
    requires RoundTrips(read) && Inv(read, db) && Current(db)
    ensures Current(Next(read, db, step)) <==> !Revives(db, step)
  {
    var t := Next(read, db, step);
    if step.RunScan? {
      ScanKeepsCurrent(read, db, step.fetched, step.now);
    } else if step.ProposeUpdates? {
      if GoodListing(db.deps, step.listing) {
        ProposeKeepsCurrent(read, db, step.now, step.listing);
      }
    } else {
      SuppressKeepsVersions(read, db, step);
      if step.Rollback? && Revives(db, step) {
        assert !IsCurrent(t, t.proposals[step.id]);
      } else {
        forall id | id in t.proposals && Pending(t.proposals[id])
          ensures IsCurrent(t, t.proposals[id])
        {
          StaysCurrent(read, db, step, id);
        }
      }
    }
  }

  lemma StaysCurrent(read: Reader, db: Db, step: Step, id: nat)
    requires RoundTrips(read) && Inv(read, db) && Current(db) && !step.RunScan? && !step.ProposeUpdates?
    requires !Revives(db, step)
    requires id in Next(read, db, step).proposals && Pending(Next(read, db, step).proposals[id])
    ensures id in db.proposals && IsCurrent(db, Next(read, db, step).proposals[id])
  {
    if id in db.proposals {
      NextMoves(read, db, step, id);
    } else {
      NextDrafts(read, db, step, id);
    }
  }

  lemma RollbackOf(read: Reader, db: Db, id: nat)
    requires id in db.proposals && db.proposals[id].status.ReadyForPr?
    ensures var t := Next(read, db, Rollback(id));
            && t.deps == db.deps && id in t.proposals
            && t.proposals[id] == db.proposals[id].(status := Approved, patch := None)
  {}

  lemma ScanKeepsReady(read: Reader, db: Db, fetched: Fetched, now: int, k: nat, id: nat)
    requires Storable(read, db, fetched) && k < |fetched.installed|
    requires id in db.proposals && db.proposals[id].status.ReadyForPr? && db.proposals[id].dep == fetched.installed[k].name
    ensures var s := Scan(read, db, fetched, now);
            && id in s.proposals && s.proposals[id] == db.proposals[id]
            && db.proposals[id].dep in s.deps && s.deps[db.proposals[id].dep].version == fetched.installed[k].version
  {
    ScanIsExact(read, db, fetched, now, k);
  }

  /**
    A scan of the package and a rollback of its prepared patch leave an approved proposal that
    is an upgrade exactly when its target is above the version the scan found.
   */
  lemma RollbackCanApproveADowngrade(read: Reader, db: Db, fetched: Fetched, now: int, k: nat, id: nat)
    requires Storable(read, db, fetched) && k < |fetched.installed|
    requires id in db.proposals && db.proposals[id].status.ReadyForPr? && db.proposals[id].dep == fetched.installed[k].name
    ensures var t := Next(read, Scan(read, db, fetched, now), Rollback(id));
            var p, d := db.proposals[id], fetched.installed[k];
            && id in t.proposals && t.proposals[id] == p.(status := Approved, patch := None)
            && d.name in t.deps
            && (IsCurrent(t, t.proposals[id]) <==> p.current == d.version)
            && (Above(read, t.proposals[id].target, t.deps[d.name].version) <==> Above(read, p.target, d.version))
  {
    ScanKeepsReady(read, db, fetched, now, k, id);
    RollbackOf(read, Scan(read, db, fetched, now), id);
  }

  // ---------- one pending proposal per target ----------

  predicate Rival(p: Proposal, q: Proposal) { p.dep == q.dep && p.target == q.target && Pending(p) && Pending(q) }

  predicate Unique(proposals: map<nat, Proposal>) {
    forall i, j :: i in proposals && j in proposals && Rival(proposals[i], proposals[j]) ==> i == j
  }

  /** Taking back a patch while another pending proposal carries its target. */
  predicate Doubles(db: Db, step: Step) {
    && step.Rollback? && step.id in db.proposals && db.proposals[step.id].status.ReadyForPr?
    && exists j :: j in db.proposals && j != step.id && Rival(db.proposals[step.id].(status := Approved), db.proposals[j])
  }

  lemma UniqueIsAtMostOne(proposals: map<nat, Proposal>, dep: string, target: string)
    requires Unique(proposals)
    ensures |Same(proposals, dep, target)| <= 1
  {
    var same := Same(proposals, dep, target);
    if |same| > 1 {
      var i :| i in same;
      var rest := same - {i};
      assert |rest| > 0;
      var j :| j in rest;
      assert Rival(proposals[i], proposals[j]);
    }
  }

  lemma ProposeForKeepsUnique(read: Reader, db: Db, l: Listed)
    requires Unique(db.proposals) && Numbered(db) && l.dep in db.deps
    ensures ProposeFor(read, db, l).Some? && Unique(ProposeFor(read, db, l).value.proposals)
    ensures Numbered(ProposeFor(read, db, l).value)
  {
    var fixes := Fixes(db.deps[l.dep], l.cves);
    if fixes != [] && AllReadable(read, fixes) {
      var target := TargetOf(read, fixes);
      var same := Same(db.proposals, l.dep, target);
      UniqueIsAtMostOne(db.proposals, l.dep, target);
      if |same| == 0 {
        assert same == {};
        assert forall j :: j in db.proposals ==> j !in same;
      }
    }
  }

  /** While targets are unique, proposing never fails, and keeps them unique. */
  lemma {:induction false} ProposeAllKeepsUnique(read: Reader, db: Db, listing: seq<Listed>)
    requires Unique(db.proposals) && Numbered(db)
    requires forall i :: 0 <= i < |listing| ==> listing[i].dep in db.deps
    ensures ProposeAll(read, db, listing).Some? && Unique(ProposeAll(read, db, listing).value.proposals)
    ensures Numbered(ProposeAll(read, db, listing).value)
  {
    if listing != [] {
      var last := |listing| - 1;
      ProposeAllKeepsUnique(read, db, listing[..last]);
      ProposeForKeepsUnique(read, ProposeAll(read, db, listing[..last]).value, listing[last]);
    }
  }

  /** Outside a rollback, whatever is pending after a move was pending before, with the same target. */
  lemma PendingWasPending(read: Reader, db: Db, step: Step, id: nat)
    requires RoundTrips(read) && Inv(read, db) && !step.ProposeUpdates?
    requires id in Next(read, db, step).proposals && Pending(Next(read, db, step).proposals[id])
    ensures id in db.proposals
    ensures var p, q := db.proposals[id], Next(read, db, step).proposals[id];
            && q.dep == p.dep && q.target == p.target
            && (Pending(p) || (step == Rollback(id) && p.status.ReadyForPr?))
  {
    if id in db.proposals {
      NextMoves(read, db, step, id);
    } else {
      NextDrafts(read, db, step, id);
    }
  }

  lemma ProposeStepKeepsUnique(read: Reader, db: Db, step: Step)
    requires Inv(read, db) && Unique(db.proposals) && step.ProposeUpdates?
    ensures Unique(Next(read, db, step).proposals)
  {
    if GoodListing(db.deps, step.listing) {
      ProposeAllKeepsUnique(read, db, step.listing);
    }
  }

  lemma DoublingBreaks(read: Reader, db: Db, step: Step)
    requires Doubles(db, step)
    ensures !Unique(Next(read, db, step).proposals)
  {
    var t := Next(read, db, step);
    var j :| j in db.proposals && j != step.id && Rival(db.proposals[step.id].(status := Approved), db.proposals[j]);
    assert Rival(t.proposals[step.id], t.proposals[j]);
  }

  /** Targets stay unique, except when a rollback revives one that was proposed again meanwhile. */
  lemma NextKeepsUnique(read: Reader, db: Db, step: Step)
    requires RoundTrips(read) && Inv(read, db) && Unique(db.proposals)
    ensures Unique(Next(read, db, step).proposals) <==> !Doubles(db, step)
  {
    if step.ProposeUpdates? {
      ProposeStepKeepsUnique(read, db, step);
    } else if Doubles(db, step) {
      DoublingBreaks(read, db, step);
    } else {
      var t := Next(read, db, step).proposals;
      forall i, j | i in t && j in t && Rival(t[i], t[j])
        ensures i == j
      {
        RivalsWereRivals(read, db, step, i, j);
      }
    }
  }

  lemma RivalsWereRivals(read: Reader, db: Db, step: Step, i: nat, j: nat)
    requires RoundTrips(read) && Inv(read, db) && Unique(db.proposals) && !step.ProposeUpdates? && !Doubles(db, step)
    requires var t := Next(read, db, step).proposals; i in t && j in t && Rival(t[i], t[j])
    ensures i == j
  {
    PendingWasPending(read, db, step, i);
    PendingWasPending(read, db, step, j);
    NoDoubling(db, step, i, j);
    NoDoubling(db, step, j, i);
    assert Pending(db.proposals[i]) && Pending(db.proposals[j]) ==> Rival(db.proposals[i], db.proposals[j]);
  }

  lemma NoDoubling(db: Db, step: Step, i: nat, j: nat)
    requires !Doubles(db, step) && i in db.proposals && j in db.proposals
    requires db.proposals[i].dep == db.proposals[j].dep && db.proposals[i].target == db.proposals[j].target
    requires step == Rollback(i) && db.proposals[i].status.ReadyForPr? ==> Pending(db.proposals[j]) || j == i
    ensures step == Rollback(i) && db.proposals[i].status.ReadyForPr? ==> i == j
  {
    if step == Rollback(i) && db.proposals[i].status.ReadyForPr? && i != j {
      assert Rival(db.proposals[i].(status := Approved), db.proposals[j]);
    }
  }

  // ---------- proposing is complete, and idempotent ----------

  /** The row needs nothing more: proposing for it changes nothing. */
  predicate Settled(read: Reader, db: Db, l: Listed) {
    l.dep in db.deps && ProposeFor(read, db, l) == Some(db)
  }

  lemma BlockedAlready(db: Db, dep: string, why: Blocked)
    requires dep in db.deps
    ensures Block(db, dep, why) == db <==> db.deps[dep].blocked == Some(why)
  {
    if db.deps[dep].blocked == Some(why) {
      assert db.deps[dep := db.deps[dep].(blocked := Some(why))] == db.deps;
    } else {
      assert Block(db, dep, why).deps[dep].blocked == Some(why);
    }
  }

  lemma ProposeForSettles(read: Reader, db: Db, l: Listed)
    requires Numbered(db) && l.dep in db.deps && ProposeFor(read, db, l).Some?
    ensures Settled(read, ProposeFor(read, db, l).value, l)
  {
    var d := db.deps[l.dep];
    var fixes := Fixes(d, l.cves);
    var t := ProposeFor(read, db, l).value;
    FixesIgnoreBlocked(d, t.deps[l.dep], l.cves);
    BlockedAlready(t, l.dep, NoFix);
    BlockedAlready(t, l.dep, UnreadableFix);
    if l.dep !in db.settings.excluded && fixes != [] && AllReadable(read, fixes) {
      var target := TargetOf(read, fixes);
      if |Same(db.proposals, l.dep, target)| == 0 {
        assert Same(db.proposals, l.dep, target) == {};
        assert Same(t.proposals, l.dep, target) == {db.issued};
      }
    }
  }

  lemma {:induction false} FixesIgnoreBlocked(d: Dependency, e: Dependency, cves: seq<string>)
    requires d.findings == e.findings
    ensures Fixes(d, cves) == Fixes(e, cves)
  {
    if cves != [] {
      FixesIgnoreBlocked(d, e, cves[..|cves| - 1]);
    }
  }

  /** Proposing for one dependency leaves the others' business alone. */
  lemma ProposeForLeavesOthers(read: Reader, db: Db, l: Listed, other: Listed)
    requires Numbered(db) && l.dep in db.deps && ProposeFor(read, db, l).Some?
    requires Settled(read, db, other) && other.dep != l.dep
    ensures Settled(read, ProposeFor(read, db, l).value, other)
  {
    var t := ProposeFor(read, db, l).value;
    var fixes := Fixes(db.deps[other.dep], other.cves);
    assert t.deps[other.dep] == db.deps[other.dep];
    BlockedAlready(db, other.dep, NoFix);
    BlockedAlready(t, other.dep, NoFix);
    BlockedAlready(db, other.dep, UnreadableFix);
    BlockedAlready(t, other.dep, UnreadableFix);
    if other.dep !in db.settings.excluded && fixes != [] && AllReadable(read, fixes) {
      var target := TargetOf(read, fixes);
      assert Same(t.proposals, other.dep, target) == Same(db.proposals, other.dep, target);
    }
  }

  predicate DistinctDeps(listing: seq<Listed>) {
    forall i, j :: 0 <= i < j < |listing| ==> listing[i].dep != listing[j].dep
  }

  lemma {:induction false} ProposeAllSettles(read: Reader, db: Db, listing: seq<Listed>)
    requires Numbered(db) && DistinctDeps(listing)
    requires forall i :: 0 <= i < |listing| ==> listing[i].dep in db.deps
    requires ProposeAll(read, db, listing).Some?
    ensures Numbered(ProposeAll(read, db, listing).value)
    ensures forall i :: 0 <= i < |listing| ==> Settled(read, ProposeAll(read, db, listing).value, listing[i])
  {
    if listing != [] {
      var last := |listing| - 1;
      var init := listing[..last];
      ProposeAllSettles(read, db, init);
      var t := ProposeAll(read, db, init).value;
      ProposeForSettles(read, t, listing[last]);
      ProposeForKeepsNumbers(read, t, listing[last]);
      forall i | 0 <= i < last
        ensures Settled(read, ProposeFor(read, t, listing[last]).value, listing[i])
      {
        assert init[i] == listing[i] && Settled(read, t, init[i]);
        ProposeForLeavesOthers(read, t, listing[last], listing[i]);
      }
    }
  }

  lemma {:induction false} SettledStays(read: Reader, db: Db, listing: seq<Listed>)
    requires forall i :: 0 <= i < |listing| ==> listing[i].dep in db.deps && Settled(read, db, listing[i])
    ensures ProposeAll(read, db, listing) == Some(db)
  {
    if listing != [] {
      var init := listing[..|listing| - 1];
      assert forall i :: 0 <= i < |init| ==> init[i] == listing[i];
      SettledStays(read, db, init);
      assert Settled(read, db, listing[|listing| - 1]);
    }
  }

  /** Proposing again over the same rows adds nothing. */
  lemma ProposeTwiceIsOnce(read: Reader, db: Db, listing: seq<Listed>)
    requires Numbered(db) && DistinctDeps(listing)
    requires forall i :: 0 <= i < |listing| ==> listing[i].dep in db.deps
    requires ProposeAll(read, db, listing).Some?
    ensures ProposeAll(read, ProposeAll(read, db, listing).value, listing) == ProposeAll(read, db, listing)
  {
    ProposeAllSettles(read, db, listing);
    SettledStays(read, ProposeAll(read, db, listing).value, listing);
  }

  /** Some pending proposal for the package meets every unsuppressed fix. */
  ghost predicate Served(read: Reader, db: Db, dep: string)
    requires dep in db.deps
  {
    exists id :: id in db.proposals && Serves(read, db, dep, db.proposals[id])
  }

  predicate Serves(read: Reader, db: Db, dep: string, p: Proposal)
    requires dep in db.deps
  {
    && p.dep == dep && Pending(p)
    && forall cve :: cve in db.deps[dep].findings && Fixable(db.deps[dep], cve) ==>
         AtLeast(read, p.target, db.deps[dep].findings[cve].fix.value)
  }

  lemma SettledIsServed(read: Reader, db: Db, l: Listed)
    requires RoundTrips(read) && Inv(read, db) && GoodEntry(db.deps, l) && Settled(read, db, l)
    requires l.dep !in db.settings.excluded && FixedCves(db.deps[l.dep]) != {}
    ensures Served(read, db, l.dep)
  {
    var d := db.deps[l.dep];
    var some :| some in FixedCves(d);
    assert some in (set c | c in l.cves);
    FixIsCovered(read, d, l.cves, some);
    var target := TargetOf(read, Fixes(d, l.cves));
    var same := Same(db.proposals, l.dep, target);
    assert |same| == 1;
    var id :| id in same;
    forall cve | cve in d.findings && Fixable(d, cve)
      ensures AtLeast(read, target, d.findings[cve].fix.value)
    {
      assert cve in (set c | c in l.cves);
      FixIsCovered(read, d, l.cves, cve);
    }
    assert Serves(read, db, l.dep, db.proposals[id]);
  }

  /**
    After proposing, every vulnerable package that is not excluded and has an unsuppressed fix
    has a pending proposal at or above all of its unsuppressed fixes.
   */
  lemma ProposingServesEveryone(read: Reader, db: Db, now: int, listing: seq<Listed>, dep: string)
    requires RoundTrips(read) && Inv(read, db) && Unique(db.proposals) && GoodListing(db.deps, listing)
    requires RecentlyScanned(db.settings, now)
    requires dep in db.deps && dep !in db.settings.excluded && FixedCves(db.deps[dep]) != {}
    ensures var t := Propose(read, db, now, listing); dep in t.deps && Served(read, t, dep)
  {
    ProposeAllKeepsUnique(read, db, listing);
    ProposeAllAdds(read, db, listing);
    var t := ProposeAll(read, db, listing).value;
    NextKeepsInv(read, db, ProposeUpdates(now, listing));
    var i := FixableIsListed(read, db, listing, dep);
    ProposeAllSettles(read, db, listing);
    SameEntry(db.deps, t.deps, listing[i]);
    SameSettings(read, db, listing);
    assert FixedCves(t.deps[dep]) == FixedCves(db.deps[dep]);
    SettledIsServed(read, t, listing[i]);
  }

  lemma FixableIsListed(read: Reader, db: Db, listing: seq<Listed>, dep: string) returns (i: nat)
    requires GoodDeps(read, db.deps) && GoodListing(db.deps, listing)
    requires dep in db.deps && FixedCves(db.deps[dep]) != {}
    ensures i < |listing| && listing[i].dep == dep
  {
    var d := db.deps[dep];
    assert GoodDep(read, d);
    var cve :| cve in FixedCves(d);
    assert cve in d.findings.Keys && |d.findings| == |d.findings.Keys|;
    i :| 0 <= i < |listing| && listing[i].dep == dep;
  }

  lemma {:induction false} SameSettings(read: Reader, db: Db, listing: seq<Listed>)
    requires forall i :: 0 <= i < |listing| ==> listing[i].dep in db.deps
    requires ProposeAll(read, db, listing).Some?
    ensures ProposeAll(read, db, listing).value.settings == db.settings
  {
    if listing != [] {
      SameSettings(read, db, listing[..|listing| - 1]);
    }
  }

  // ---------- the patch ----------

  lemma LowerOfSum(a: string, b: string)
    ensures Lower(a + b) == Lower(a) + Lower(b)
  {}

  lemma LowerOfPrefix(a: string, b: string)
    requires a <= b
    ensures Lower(a) <= Lower(b)
  {}

  /** A package name as the inventory keeps it. */
  predicate GoodName(name: string) { name != "" && !IsSpace(name[0]) }

  lemma PinnedPins(name: string, target: string)
    requires GoodName(name)
    ensures Pins(name, Pinned(name, target))
  {
    var line := Pinned(name, target);
    assert line == (name + "==") + target;
    StripRightKeeps(name + "==", target);
    LowerOfPrefix(name + "==", Strip(line));
    LowerOfSum(name, "==");
    assert Lower("==") == "==";
    assert Lower(name) + OPERATORS[0] <= Lower(Strip(line));
  }

  /**
    The line, after blanks, names the package in any case of letters, at once followed by one of
    the operators.
   */
  ghost predicate Constrains(name: string, line: string, lead: nat) {
    && lead + |name| <= |line| && (forall i :: 0 <= i < lead ==> IsSpace(line[i]))
    && SameLetters(line[lead..lead + |name|], name)
    && exists op :: op in ["==", ">=", "~=", "<=", ">", "<"] && op <= line[lead + |name|..]
  }

  lemma OperatorsAre(op: string)
    ensures op in ["==", ">=", "~=", "<=", ">", "<"] <==> exists i :: 0 <= i < |OPERATORS| && OPERATORS[i] == op
    ensures op in ["==", ">=", "~=", "<=", ">", "<"] ==> op != "" && !IsSpace(op[|op| - 1]) && Lower(op) == op
  {}

  lemma StartingPins(name: string, line: string, word: string, op: string)
    requires op in ["==", ">=", "~=", "<=", ">", "<"] && SameLetters(word, name) && word + op <= Strip(line)
    ensures Pins(name, line)
  {
    OperatorsAre(op);
    LowerOfPrefix(word + op, Strip(line));
    LowerOfSum(word, op);
    SameLettersExactly(word, name);
    var i :| 0 <= i < |OPERATORS| && OPERATORS[i] == op;
    assert Lower(name) + OPERATORS[i] <= Lower(Strip(line));
  }

  /** Stripping finds what follows the leading blanks and ends in something visible. */
  lemma StripKeeps(line: string, lead: nat, a: string, b: string)
    requires lead <= |line| && line[lead..] == a + b && (forall i :: 0 <= i < lead ==> IsSpace(line[i]))
    requires a != "" && !IsSpace(a[0]) && !IsSpace(a[|a| - 1])
    ensures a <= Strip(line)
  {
    var drop := StripLeftDrops(line);
    assert line[lead] == a[0];
    assert drop == lead;
    StripRightKeeps(a, b);
  }

  lemma ConstrainingPins(name: string, line: string, lead: nat)
    requires GoodName(name) && Constrains(name, line, lead)
    ensures Pins(name, line)
  {
    var word, rest := line[lead..lead + |name|], line[lead + |name|..];
    var op :| op in ["==", ">=", "~=", "<=", ">", "<"] && op <= rest;
    OperatorsAre(op);
    assert line[lead..] == (word + op) + rest[|op|..];
    StripKeeps(line, lead, word + op, rest[|op|..]);
    StartingPins(name, line, word, op);
  }

  lemma LowerOfSlice(s: string, from: nat, to: nat)
    requires from <= to <= |s|
    ensures Lower(s)[from..to] == Lower(s[from..to])
  {}

  /** A text that starts, in lower case, with a name and an operator. */
  lemma StartsWith(text: string, name: string, op: string)
    requires op in ["==", ">=", "~=", "<=", ">", "<"] && Lower(name) + op <= Lower(text)
    ensures |name| + |op| <= |text| && SameLetters(text[..|name|], name) && text[|name|..|name| + |op|] == op
  {
    LowerOfSlice(text, 0, |name|);
    LowerOfSlice(text, |name|, |name| + |op|);
    assert (Lower(name) + op)[..|name|] == Lower(name) && (Lower(name) + op)[|name|..] == op;
    SameLettersExactly(text[..|name|], name);
    OperatorLetters(text[|name|..|name| + |op|], op);
  }

  lemma PinningConstrains(name: string, line: string) returns (lead: nat)
    requires Pins(name, line)
    ensures Constrains(name, line, lead)
  {
    lead := StripLeftDrops(line);
    StripRightIsPrefix(line[lead..]);
    var i :| 0 <= i < |OPERATORS| && Lower(name) + OPERATORS[i] <= Lower(Strip(line));
    var op := OPERATORS[i];
    OperatorsAre(op);
    var text := Strip(line);
    StartsWith(text, name, op);
    assert text[..|name|] == line[lead..lead + |name|];
    assert op <= line[lead + |name|..];
  }

  /** Operators have no letters to be written otherwise. */
  lemma OperatorLetters(x: string, op: string)
    requires op in ["==", ">=", "~=", "<=", ">", "<"] && Lower(x) == op
    ensures x == op
  {
    forall i | 0 <= i < |x|
      ensures x[i] == op[i]
    {
      assert LowerChar(x[i]) == op[i];
    }
  }

  /** What a requirement on the package looks like. */
  lemma PinsExactly(name: string, line: string)
    requires GoodName(name)
    ensures Pins(name, line) <==> exists lead :: Constrains(name, line, lead)
  {
    if Pins(name, line) {
      var lead := PinningConstrains(name, line);
    }
    if lead :| Constrains(name, line, lead) {
      ConstrainingPins(name, line, lead);
    }
  }

  /** Every line that constrains the package becomes the exact pin, every other line stays, and patching again changes nothing. */
  lemma PatchIsExactAndSettles(name: string, target: string, lines: seq<string>)
    requires GoodName(name)
    ensures forall i :: 0 <= i < |lines| ==>
              Patched(name, target, lines)[i] == if Pins(name, lines[i]) then name + "==" + target else lines[i]
    ensures Patched(name, target, Patched(name, target, lines)) == Patched(name, target, lines)
    ensures Patched(name, target, lines) == lines <==>
              forall i :: 0 <= i < |lines| && Pins(name, lines[i]) ==> lines[i] == name + "==" + target
  {
    PinnedPins(name, target);
    var once := Patched(name, target, lines);
    assert forall i :: 0 <= i < |lines| ==> Patched(name, target, once)[i] == once[i];
    if once == lines {
      assert forall i :: 0 <= i < |lines| ==> lines[i] == once[i];
    }
  }

  /** Rolling a prepared patch back undoes the preparation; a failed one cannot be rolled back. */
  lemma RollbackUndoesPrepare(p: Proposal, file: Requirements)
    requires p.status.Approved? && p.patch.None?
    ensures Prepared(p, file).status.ReadyForPr? ==> RolledBack(Prepared(p, file)) == p
    ensures !Prepared(p, file).status.ReadyForPr? ==> RolledBack(Prepared(p, file)).status.Failed?
  {}

  /** Once a prepared patch is merged, preparing the same update again succeeds and changes no line. */
  lemma MergedPatchIsStable(p: Proposal, file: Requirements)
    requires GoodName(p.dep) && Prepared(p, file).status.ReadyForPr?
    ensures var merged := Prepared(p, file).patch.value.proposed;
            var again := Prepared(p, Lines(merged));
            && again.status.ReadyForPr?
            && again.patch.value.original == again.patch.value.proposed == merged
            && |merged| == |file.lines|
            && exists i :: 0 <= i < |merged| && merged[i] == p.dep + "==" + p.target
  {
    PatchIsExactAndSettles(p.dep, p.target, file.lines);
    PinnedPins(p.dep, p.target);
    var i :| 0 <= i < |file.lines| && Pins(p.dep, file.lines[i]);
    assert Patched(p.dep, p.target, file.lines)[i] == Pinned(p.dep, p.target);
  }

  // ---------- every decision does its work ----------

  /** What preparing makes of an approved proposal. */
  ghost predicate PreparedFrom(p: Proposal, q: Proposal, file: Requirements) {
    if file.Lines? && (exists i, lead :: 0 <= i < |file.lines| && Constrains(p.dep, file.lines[i], lead)) then
      && q.patch.Some? && q == p.(status := ReadyForPr, patch := q.patch)
      && q.patch.value.original == file.lines && q.patch.value.previous == p.current
      && |q.patch.value.proposed| == |file.lines|
      && forall i :: 0 <= i < |file.lines| ==>
           q.patch.value.proposed[i] == if exists lead :: Constrains(p.dep, file.lines[i], lead) then p.dep + "==" + p.target else file.lines[i]
    else q == p.(status := Failed)
  }

  lemma PreparingIs(p: Proposal, file: Requirements)
    requires GoodName(p.dep)
    ensures PreparedFrom(p, Prepared(p, file), file)
  {
    if file.Lines? {
      forall i | 0 <= i < |file.lines|
        ensures Pins(p.dep, file.lines[i]) <==> exists lead :: Constrains(p.dep, file.lines[i], lead)
      {
        PinsExactly(p.dep, file.lines[i]);
      }
      if i, lead :| 0 <= i < |file.lines| && Constrains(p.dep, file.lines[i], lead) {
        assert Pins(p.dep, file.lines[i]);
      }
      if i :| 0 <= i < |file.lines| && Pins(p.dep, file.lines[i]) {
        var lead :| Constrains(p.dep, file.lines[i], lead);
      }
    }
  }

  /** What each decision makes of a proposal. */
  lemma DecisionsAre(read: Reader, db: Db, id: nat, admin: string)
    requires id in db.proposals
    ensures var p := db.proposals[id];
            && Becomes(read, db, Approve(id, admin), id,
                       if p.status.Proposed? || p.status.AiValidated? then p.(status := Approved, approvedBy := Some(admin)) else p)
            && Becomes(read, db, Reject(id), id, p.(status := Rejected))
            && Becomes(read, db, Rollback(id), id, if p.status.ReadyForPr? then p.(status := Approved, patch := None) else p)
  {}

  /** The picked proposals are marked as validated, and no others. */
  lemma ValidatingIs(read: Reader, db: Db, id: nat, picked: set<nat>)
    requires id in db.proposals && db.settings.requireAi && GoodBatch(db.proposals, picked)
    ensures var p := db.proposals[id];
            Becomes(read, db, AiValidate(picked), id, if id in picked then p.(status := AiValidated) else p)
  {}

  /** The approved proposals are prepared, or the chosen one only; the others stay. */
  lemma PreparingStepIs(read: Reader, db: Db, id: nat, only: Option<nat>, file: Requirements)
    requires id in db.proposals
    ensures var p := db.proposals[id];
            Becomes(read, db, Prepare(only, file), id,
                    if p.status.Approved? && (only.None? || only.value == id) then Prepared(p, file) else p)
  {}

  /** A decision on one proposal leaves the others. */
  lemma DecisionsLeaveOthers(read: Reader, db: Db, id: nat, admin: string, other: nat)
    requires other in db.proposals && other != id
    ensures Becomes(read, db, Approve(id, admin), other, db.proposals[other])
    ensures Becomes(read, db, Reject(id), other, db.proposals[other])
    ensures Becomes(read, db, Rollback(id), other, db.proposals[other])
  {}

  /** After the step the proposal is this; packages and settings are as before. */
  ghost predicate Becomes(read: Reader, db: Db, step: Step, id: nat, q: Proposal) {
    var t := Next(read, db, step);
    id in t.proposals && t.proposals[id] == q && t.deps == db.deps && t.settings == db.settings
  }

  /** Suppressing marks one finding and nothing else. */
  lemma SuppressingIs(read: Reader, db: Db, dep: string, cve: string, name: string, other: string)
    requires name in db.deps && other in db.deps[name].findings
    ensures var t := Next(read, db, Suppress(dep, cve));
            && t.proposals == db.proposals && t.settings == db.settings && t.deps.Keys == db.deps.Keys
            && t.deps[name].version == db.deps[name].version && t.deps[name].cveCount == db.deps[name].cveCount
            && t.deps[name].findings.Keys == db.deps[name].findings.Keys
            && t.deps[name].findings[other]
                 == if name == dep && other == cve then db.deps[name].findings[other].(suppressed := true) else db.deps[name].findings[other]
  {}

  lemma ConfiguringIs(read: Reader, db: Db, excluded: set<string>, requireAi: bool)
    ensures var t := Next(read, db, Configure(excluded, requireAi));
            && t.settings.excluded == excluded && t.settings.requireAi == requireAi
            && t == db.(settings := db.settings.(excluded := t.settings.excluded, requireAi := t.settings.requireAi))
  {}

  /** One batch takes at most fifty proposals, and leaves none out that still waits when it takes fewer. */
  lemma BatchIsFull(proposals: map<nat, Proposal>, picked: set<nat>, id: nat)
    requires GoodBatch(proposals, picked)
    ensures |picked| <= 50
    ensures id in picked ==> id in proposals && proposals[id].status.Proposed?
    ensures |picked| < 50 && id in proposals && proposals[id].status.Proposed? ==> id in picked
  {
    if id in Awaiting(proposals) && id !in picked {
      SubsetIsSmaller(picked + {id}, Awaiting(proposals));
    }
  }

  lemma SubsetIsSmaller(s: set<nat>, t: set<nat>)
    requires s <= t
    ensures |s| <= |t|
  {
    if s != {} {
      var x :| x in s;
      SubsetIsSmaller(s - {x}, t - {x});
    }
  }
}
