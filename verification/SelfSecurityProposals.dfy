/**
  What proposing does for each package, read off its findings and the proposals it has: when it
  is blocked, when a proposal is added, and what that proposal says.
 */
module SelfSecurityProposals {
  import opened Options
  import opened Releases
  import opened SelfSecurityRules
  import opened SelfSecurityTheorems
  import opened SelfSecurityReview

  // ---------- what the findings ask for ----------

  /** An unsuppressed finding with a version that fixes it. */
  predicate OpenFix(d: Dependency, cve: string) {
    && cve in d.findings && !d.findings[cve].suppressed
    && d.findings[cve].fix.Some? && d.findings[cve].fix.value != ""
  }

  ghost predicate HasOpenFix(d: Dependency) { exists cve :: OpenFix(d, cve) }

  /** The greatest of the open fixes. */
  ghost predicate Covers(read: Reader, d: Dependency, target: string) {
    && (exists cve :: OpenFix(d, cve) && read(d.findings[cve].fix.value) == read(target))
    && (forall cve :: OpenFix(d, cve) ==> AtLeast(read, target, d.findings[cve].fix.value))
  }

  /** A new proposal for the package: from its version to the target, for all its open fixes. */
  ghost predicate Drafts(p: Proposal, dep: string, d: Dependency, target: string) {
    && p.dep == dep && p.current == d.version && p.target == target
    && (forall cve :: cve in p.cves <==> OpenFix(d, cve))
    && (p.reason.KevFix? <==> exists cve :: cve in d.findings && !d.findings[cve].suppressed && d.findings[cve].kev)
    && p.status.Proposed? && p.approvedBy.None? && p.patch.None?
  }

  ghost function ProposalsOf(proposals: map<nat, Proposal>, dep: string): map<nat, Proposal> {
    map id | id in proposals && proposals[id].dep == dep :: proposals[id]
  }

  predicate Waits(p: Proposal) {
    p.status.Proposed? || p.status.AiValidated? || p.status.Approved? || p.status.Applying?
  }

  ghost predicate WaitsFor(proposals: map<nat, Proposal>, dep: string, target: string) {
    exists id :: id in proposals && proposals[id].dep == dep && proposals[id].target == target && Waits(proposals[id])
  }

  /** One new proposal of the package, or none because one for the same target waits already. */
  ghost predicate AddsFor(before: map<nat, Proposal>, after: map<nat, Proposal>, dep: string, d: Dependency, target: string) {
    if WaitsFor(before, dep, target) then ProposalsOf(after, dep) == ProposalsOf(before, dep)
    else exists id :: && id !in before && id in after && Drafts(after[id], dep, d, target)
                      && ProposalsOf(after, dep) == ProposalsOf(before, dep)[id := after[id]]
  }

  /** What proposing makes of one vulnerable package. */
  ghost predicate ProposedFor(read: Reader, db: Db, t: Db, dep: string)
    requires dep in db.deps
  {
    var d := db.deps[dep];
    && dep in t.deps
    && if dep in db.settings.excluded then
         t.deps[dep] == d && ProposalsOf(t.proposals, dep) == ProposalsOf(db.proposals, dep)
       else if !HasOpenFix(d) then
         t.deps[dep] == d.(blocked := Some(NoFix)) && ProposalsOf(t.proposals, dep) == ProposalsOf(db.proposals, dep)
       else
         t.deps[dep] == d && exists target :: Covers(read, d, target) && AddsFor(db.proposals, t.proposals, dep, d, target)
  }

  // ---------- one package ----------

  lemma FixesOfListed(db: Db, l: Listed)
    requires GoodEntry(db.deps, l)
    ensures Fixes(db.deps[l.dep], l.cves) != [] <==> HasOpenFix(db.deps[l.dep])
  {
    var d := db.deps[l.dep];
    var fixes := Fixes(d, l.cves);
    if fixes != [] {
      assert fixes[0] in fixes;
      FixesHas(d, l.cves, fixes[0]);
      var i :| 0 <= i < |l.cves| && Fixable(d, l.cves[i]) && d.findings[l.cves[i]].fix.value == fixes[0];
      assert OpenFix(d, l.cves[i]);
    }
    if cve :| OpenFix(d, cve) {
      assert cve in (set c | c in l.cves);
      FixesHas(d, l.cves, d.findings[cve].fix.value);
    }
  }

  lemma TargetCovers(read: Reader, db: Db, l: Listed)
    requires RoundTrips(read) && GoodEntry(db.deps, l) && FixesAbove(read, db.deps[l.dep])
    requires HasOpenFix(db.deps[l.dep])
    ensures Fixes(db.deps[l.dep], l.cves) != [] && AllReadable(read, Fixes(db.deps[l.dep], l.cves))
    ensures var target := TargetOf(read, Fixes(db.deps[l.dep], l.cves));
            Covers(read, db.deps[l.dep], target) && Drafts(Draft(db, l.dep, target), l.dep, db.deps[l.dep], target)
  {
    var d := db.deps[l.dep];
    FixesOfListed(db, l);
    FixesAreAbove(read, d, l.cves);
    DraftIsDrafted(read, db, l);
    var target := TargetOf(read, Fixes(d, l.cves));
    var p := Draft(db, l.dep, target);
    assert forall cve :: cve in p.cves <==> OpenFix(d, cve);
    var cve :| cve in p.cves && read(d.findings[cve].fix.value) == read(target);
    assert OpenFix(d, cve);
  }

  lemma WaitingIsSame(proposals: map<nat, Proposal>, dep: string, target: string)
    ensures WaitsFor(proposals, dep, target) <==> |Same(proposals, dep, target)| > 0
  {
    var same := Same(proposals, dep, target);
    if id :| id in proposals && proposals[id].dep == dep && proposals[id].target == target && Waits(proposals[id]) {
      assert id in same;
    }
    if |same| > 0 {
      var id :| id in same;
      assert Waits(proposals[id]);
    }
  }

  lemma NewDraftAdds(db: Db, dep: string, target: string)
    requires dep in db.deps && Numbered(db) && !WaitsFor(db.proposals, dep, target)
    requires Drafts(Draft(db, dep, target), dep, db.deps[dep], target)
    ensures AddsFor(db.proposals, db.proposals[db.issued := Draft(db, dep, target)], dep, db.deps[dep], target)
  {
    var id, p := db.issued, Draft(db, dep, target);
    var after := db.proposals[id := p];
    assert id !in db.proposals;
    assert ProposalsOf(after, dep) == ProposalsOf(db.proposals, dep)[id := p];
  }

  lemma ProposeForOne(read: Reader, db: Db, l: Listed)
    requires RoundTrips(read) && Unique(db.proposals) && Numbered(db)
    requires GoodEntry(db.deps, l) && FixesAbove(read, db.deps[l.dep])
    ensures ProposeFor(read, db, l).Some? && ProposedFor(read, db, ProposeFor(read, db, l).value, l.dep)
  {
    var d := db.deps[l.dep];
    ProposeForKeepsUnique(read, db, l);
    FixesOfListed(db, l);
    if l.dep !in db.settings.excluded && HasOpenFix(d) {
      TargetCovers(read, db, l);
      var target := TargetOf(read, Fixes(d, l.cves));
      WaitingIsSame(db.proposals, l.dep, target);
      if !WaitsFor(db.proposals, l.dep, target) { NewDraftAdds(db, l.dep, target); }
      assert AddsFor(db.proposals, ProposeFor(read, db, l).value.proposals, l.dep, d, target);
    }
  }

  // ---------- the others ----------

  /** Nothing about this package differs. */
  ghost predicate Agree(a: Db, b: Db, dep: string) {
    && a.settings == b.settings && dep in a.deps && dep in b.deps && a.deps[dep] == b.deps[dep]
    && ProposalsOf(a.proposals, dep) == ProposalsOf(b.proposals, dep)
  }

  lemma OthersAgree(read: Reader, db: Db, l: Listed, dep: string)
    requires l.dep in db.deps && Numbered(db) && dep in db.deps && dep != l.dep && ProposeFor(read, db, l).Some?
    ensures Agree(db, ProposeFor(read, db, l).value, dep)
  {
    var t := ProposeFor(read, db, l).value;
    assert ProposalsOf(db.proposals, dep) == ProposalsOf(t.proposals, dep);
  }

  lemma AgreeOnWaiting(a: Db, b: Db, dep: string, target: string)
    requires Agree(a, b, dep)
    ensures WaitsFor(a.proposals, dep, target) <==> WaitsFor(b.proposals, dep, target)
  {
    forall id
      ensures id in a.proposals && a.proposals[id].dep == dep <==> id in b.proposals && b.proposals[id].dep == dep
      ensures id in a.proposals && a.proposals[id].dep == dep ==> a.proposals[id] == b.proposals[id]
    {
      assert id in ProposalsOf(a.proposals, dep) <==> id in ProposalsOf(b.proposals, dep);
      if id in ProposalsOf(a.proposals, dep) { assert ProposalsOf(a.proposals, dep)[id] == ProposalsOf(b.proposals, dep)[id]; }
    }
  }

  lemma AddsForAgain(a: Db, b: Db, c: Db, dep: string, d: Dependency, target: string)
    requires Agree(a, b, dep) && (forall id :: id in a.proposals ==> id in b.proposals)
    requires AddsFor(b.proposals, c.proposals, dep, d, target)
    ensures AddsFor(a.proposals, c.proposals, dep, d, target)
  {
    AgreeOnWaiting(a, b, dep, target);
  }

  lemma AddsForStill(a: Db, b: Db, c: Db, dep: string, d: Dependency, target: string)
    requires Agree(b, c, dep) && AddsFor(a.proposals, b.proposals, dep, d, target)
    ensures AddsFor(a.proposals, c.proposals, dep, d, target)
  {
    if !WaitsFor(a.proposals, dep, target) {
      var id :| && id !in a.proposals && id in b.proposals && Drafts(b.proposals[id], dep, d, target)
                && ProposalsOf(b.proposals, dep) == ProposalsOf(a.proposals, dep)[id := b.proposals[id]];
      assert id in ProposalsOf(b.proposals, dep) && ProposalsOf(c.proposals, dep)[id] == b.proposals[id];
      assert id in c.proposals && c.proposals[id] == b.proposals[id];
    }
  }

  lemma AgreeThenProposed(read: Reader, a: Db, b: Db, c: Db, dep: string)
    requires Agree(a, b, dep) && (forall id :: id in a.proposals ==> id in b.proposals)
    requires ProposedFor(read, b, c, dep)
    ensures ProposedFor(read, a, c, dep)
  {
    if dep !in a.settings.excluded && HasOpenFix(a.deps[dep]) {
      var target :| Covers(read, b.deps[dep], target) && AddsFor(b.proposals, c.proposals, dep, b.deps[dep], target);
      AddsForAgain(a, b, c, dep, b.deps[dep], target);
    }
  }

  lemma ProposedThenAgree(read: Reader, a: Db, b: Db, c: Db, dep: string)
    requires dep in a.deps && ProposedFor(read, a, b, dep) && Agree(b, c, dep)
    ensures ProposedFor(read, a, c, dep)
  {
    if dep !in a.settings.excluded && HasOpenFix(a.deps[dep]) {
      var target :| Covers(read, a.deps[dep], target) && AddsFor(a.proposals, b.proposals, dep, a.deps[dep], target);
      AddsForStill(a, b, c, dep, a.deps[dep], target);
    }
  }

  // ---------- all packages ----------

  ghost predicate Entries(deps: map<string, Dependency>, listing: seq<Listed>) {
    DistinctDeps(listing) && forall i :: 0 <= i < |listing| ==> listing[i].dep in deps && GoodEntry(deps, listing[i])
  }

  ghost predicate ListedIn(listing: seq<Listed>, dep: string) { exists i :: 0 <= i < |listing| && listing[i].dep == dep }

  lemma ListedNext(listing: seq<Listed>, dep: string)
    requires listing != [] && DistinctDeps(listing)
    ensures var last := |listing| - 1;
            && (ListedIn(listing, dep) <==> ListedIn(listing[..last], dep) || listing[last].dep == dep)
            && (listing[last].dep == dep ==> !ListedIn(listing[..last], dep))
  {
    var last := |listing| - 1;
    var init := listing[..last];
    if i :| 0 <= i < last && listing[i].dep == dep { assert init[i].dep == dep; }
    if i :| 0 <= i < last && init[i].dep == dep { assert listing[i].dep == dep; }
  }

  /** The state before the last package of a listing, and what it still offers. */
  lemma BeforeLast(read: Reader, db: Db, listing: seq<Listed>)
    requires RoundTrips(read) && GoodDeps(read, db.deps) && Numbered(db) && Unique(db.proposals)
    requires listing != [] && Entries(db.deps, listing)
    ensures var last := |listing| - 1;
            && Entries(db.deps, listing[..last]) && ProposeAll(read, db, listing[..last]).Some?
            && var t := ProposeAll(read, db, listing[..last]).value;
               && Numbered(t) && Unique(t.proposals) && GoodEntry(t.deps, listing[last])
               && GoodDeps(read, t.deps) && (forall id :: id in db.proposals ==> id in t.proposals)
               && t.deps.Keys == db.deps.Keys
  {
    var last := |listing| - 1;
    var init := listing[..last];
    assert forall i :: 0 <= i < last ==> init[i] == listing[i];
    ProposeAllKeepsUnique(read, db, init);
    ProposeAllAdds(read, db, init);
    var t := ProposeAll(read, db, init).value;
    SameEntry(db.deps, t.deps, listing[last]);
    SameDeps(read, db.deps, t.deps);
  }

  /** One more package of the listing, whatever it is. */
  lemma NextPackage(read: Reader, db: Db, t: Db, l: Listed, dep: string, listed: bool)
    requires RoundTrips(read) && GoodDeps(read, t.deps) && Numbered(t) && Unique(t.proposals) && GoodEntry(t.deps, l)
    requires dep in db.deps && t.deps.Keys == db.deps.Keys && (forall id :: id in db.proposals ==> id in t.proposals)
    requires l.dep == dep ==> !listed
    requires if listed then ProposedFor(read, db, t, dep) else Agree(db, t, dep)
    ensures ProposeFor(read, t, l).Some?
    ensures var u := ProposeFor(read, t, l).value;
            if listed || l.dep == dep then ProposedFor(read, db, u, dep) else Agree(db, u, dep)
  {
    ProposeForKeepsUnique(read, t, l);
    var u := ProposeFor(read, t, l).value;
    if l.dep == dep {
      assert GoodDep(read, t.deps[dep]);
      ProposeForOne(read, t, l);
      AgreeThenProposed(read, db, t, u, dep);
    } else {
      OthersAgree(read, t, l, dep);
      if listed { ProposedThenAgree(read, db, t, u, dep); }
    }
  }

  lemma {:induction false} ProposeAllFor(read: Reader, db: Db, listing: seq<Listed>, dep: string)
    requires RoundTrips(read) && GoodDeps(read, db.deps) && Numbered(db) && Unique(db.proposals)
    requires Entries(db.deps, listing) && dep in db.deps
    ensures ProposeAll(read, db, listing).Some?
    ensures var t := ProposeAll(read, db, listing).value;
            if ListedIn(listing, dep) then ProposedFor(read, db, t, dep) else Agree(db, t, dep)
  {
    if listing != [] {
      var last := |listing| - 1;
      BeforeLast(read, db, listing);
      ProposeAllFor(read, db, listing[..last], dep);
      ListedNext(listing, dep);
      NextPackage(read, db, ProposeAll(read, db, listing[..last]).value, listing[last], dep, ListedIn(listing[..last], dep));
    }
  }

  lemma ListedWhenVulnerable(deps: map<string, Dependency>, listing: seq<Listed>, dep: string)
    requires GoodListing(deps, listing) && dep in deps
    ensures ListedIn(listing, dep) <==> deps[dep].cveCount > 0
  {
    if ListedIn(listing, dep) {
      var i :| 0 <= i < |listing| && listing[i].dep == dep;
      assert GoodEntry(deps, listing[i]);
    }
  }

  /**
    Main result on proposing: within 26 hours of a successful scan, each vulnerable package that
    is not excluded is blocked when it has no open fix; otherwise it has a pending proposal for
    the greatest of them, a new one exactly when none waited.  Other packages keep their row and
    their proposals, and without such a scan nothing changes at all.
   */
  lemma ProposedExactly(read: Reader, db: Db, now: int, listing: seq<Listed>, dep: string)
    requires RoundTrips(read) && Inv(read, db) && Unique(db.proposals) && GoodListing(db.deps, listing)
    requires dep in db.deps
    ensures var t := Propose(read, db, now, listing);
            if db.settings.lastScan == Success && db.settings.lastSuccess.Some? && now - db.settings.lastSuccess.value <= 26 * 60 * 60 then
              if db.deps[dep].cveCount > 0 then ProposedFor(read, db, t, dep) else Agree(db, t, dep)
            else t == db
  {
    if RecentlyScanned(db.settings, now) {
      ProposeAllFor(read, db, listing, dep);
      ListedWhenVulnerable(db.deps, listing, dep);
    }
  }

  /** Whatever else a package has: an open fix that cannot be read blocks it. */
  lemma UnreadableFixBlocks(read: Reader, db: Db, l: Listed, cve: string)
    requires GoodEntry(db.deps, l) && l.dep !in db.settings.excluded
    requires OpenFix(db.deps[l.dep], cve) && read(db.deps[l.dep].findings[cve].fix.value).None?
    ensures ProposeFor(read, db, l) == Some(db.(deps := db.deps[l.dep := db.deps[l.dep].(blocked := Some(UnreadableFix))]))
  {
    var fix := db.deps[l.dep].findings[cve].fix.value;
    assert cve in (set c | c in l.cves);
    FixesHas(db.deps[l.dep], l.cves, fix);
    var i :| 0 <= i < |Fixes(db.deps[l.dep], l.cves)| && Fixes(db.deps[l.dep], l.cves)[i] == fix;
  }
}
