/**
  Two runs from an empty database that end where a rollback breaks a promise: one approves a
  downgrade, the other leaves two pending proposals for one target.
 */
module SelfSecurityWitness {
  import opened Options
  import opened Releases
  import opened SelfSecurityRules
  import opened SelfSecurityTheorems
  import opened SelfSecurityReview

  // ---------- the inputs ----------

  function Digits(): Reader {
    (t: string) =>
      if t == "1" then Some(Release(1.0, "1"))
      else if t == "2" then Some(Release(2.0, "2"))
      else if t == "3" then Some(Release(3.0, "3"))
      else None
  }

  function Begun(): Settings { Settings({}, true, Never, None) }

  /** Package a at version 1, with an advisory fixed in 2. */
  function Vulnerable(): Fetched {
    Resolved([Installed("a", "1", [Advisory("CVE-1", [], [Affected("a", ["2"])])])], {})
  }

  /** Package a at version 3, with nothing known against it. */
  function Upgraded(): Fetched { Resolved([Installed("a", "3", [])], {}) }

  function Listing(): seq<Listed> { [Listed("a", ["CVE-1"])] }

  function Pin(): Requirements { Lines(["a==1"]) }

  /** Scan, propose, approve, prepare. */
  function ToPatch(): seq<Step> {
    [RunScan(Vulnerable(), 0)] + [ProposeUpdates(0, Listing())] + [Approve(0, "admin")] + [Prepare(None, Pin())]
  }

  // ---------- the states on the way ----------

  function Scanned1(): Db {
    Db(Begun().(lastScan := Success, lastSuccess := Some(0)),
       map["a" := Dependency("1", 1, None, map["CVE-1" := Finding(Some("2"), false, false)])], map[], 0)
  }

  function Update0(status: Status, admin: Option<string>, patch: Option<Patch>): Proposal {
    Proposal("a", "1", "2", CveFix, {"CVE-1"}, status, admin, patch)
  }

  function With(db: Db, p: Proposal): Db { db.(proposals := map[0 := p], issued := 1) }

  function ReadyPatch(): Proposal {
    Update0(ReadyForPr, Some("admin"), Some(Patch(["a==1"], Patched("a", "2", ["a==1"]), "1")))
  }

  lemma RunNext(read: Reader, db: Db, steps: seq<Step>, step: Step)
    ensures Run(read, db, steps + [step]) == Next(read, Run(read, db, steps), step)
  {
    assert (steps + [step])[..|steps|] == steps;
  }

  lemma FixIsTwo()
    ensures FixFor(Digits(), "1", ["2"]) == Some("2")
  {
    assert ["2"][..0] == [];
    assert ValidFixes(Digits(), Release(1.0, "1"), []) == [];
    assert ValidFixes(Digits(), Release(1.0, "1"), ["2"]) == [Release(2.0, "2")];
  }

  lemma FoundInFeed()
    ensures var d := Vulnerable().installed[0];
            FoundIn(Digits(), d, d.advisories[0]) == Found("CVE-1", [], Some("2"))
  {
    var affected := [Affected("a", ["2"])];
    FixIsTwo();
    assert affected[..0] == [];
    assert Candidates("a", affected) == Candidates("a", affected[..0]) + ["2"] == ["2"];
  }

  lemma FirstScan()
    ensures Next(Digits(), Start(Begun()), RunScan(Vulnerable(), 0)) == Scanned1()
  {
    var ds := Vulnerable().installed;
    var d := ds[0];
    FoundInFeed();
    var fs := [Found("CVE-1", [], Some("2"))];
    assert Reported(Digits(), {}, d) == fs;
    assert fs[..0] == [] && ds[..0] == [];
    assert !IsKev({}, fs[0]);
    assert FindingRows(map[], {}, fs[..0]) == Some(map[]);
    assert FindingRows(map[], {}, fs) == Some(map["CVE-1" := Finding(Some("2"), false, false)]);
    assert ScanAll(Digits(), {}, {}, map[], ds[..0]) == Some(map[]);
    assert ScanAll(Digits(), {}, {}, map[], ds) == Some(Scanned1().deps);
    assert Names(ds) == {"a"} by { assert d in ds; }
    assert Remaining(Scanned1().deps, {"a"}) == Scanned1().deps;
  }

  lemma TwoIsTheTarget()
    ensures var d, cves := Scanned1().deps["a"], ["CVE-1"];
            Fixes(d, cves) == ["2"] && AllReadable(Digits(), ["2"]) && TargetOf(Digits(), ["2"]) == "2" && FixedCves(d) == {"CVE-1"}
  {
    var cves := ["CVE-1"];
    assert cves[..0] == [];
    assert Fixes(Scanned1().deps["a"], cves) == Fixes(Scanned1().deps["a"], cves[..0]) + ["2"];
    assert ReadAll(Digits(), ["2"]) == [Release(2.0, "2")];
  }

  lemma ListingIsGood()
    ensures GoodListing(Scanned1().deps, Listing())
  {
    assert (set c | c in ["CVE-1"]) == {"CVE-1"};
    assert Listing()[0].dep == "a";
  }

  lemma ProposeTwo(proposals: map<nat, Proposal>, issued: nat)
    requires forall id :: id in proposals ==> !Pending(proposals[id])
    ensures var db := Scanned1().(proposals := proposals, issued := issued);
            Next(Digits(), db, ProposeUpdates(0, Listing()))
              == db.(proposals := proposals[issued := Update0(Proposed, None, None)], issued := issued + 1)
  {
    var db := Scanned1().(proposals := proposals, issued := issued);
    TwoIsTheTarget();
    ListingIsGood();
    assert Same(proposals, "a", "2") == {};
    assert ProposeFor(Digits(), db, Listing()[0]) == Some(db.(proposals := proposals[issued := Update0(Proposed, None, None)], issued := issued + 1));
    assert Listing()[..0] == [];
    assert ProposeAll(Digits(), db, Listing()[..0]) == Some(db);
  }

  lemma Approved0()
    ensures Next(Digits(), With(Scanned1(), Update0(Proposed, None, None)), Approve(0, "admin"))
         == With(Scanned1(), Update0(Approved, Some("admin"), None))
  {
    assert map[0 := Update0(Proposed, None, None)][0 := Update0(Approved, Some("admin"), None)]
        == map[0 := Update0(Approved, Some("admin"), None)];
  }

  lemma PinIsFound()
    ensures Pins("a", Pin().lines[0])
  {
    PinnedPins("a", "1");
    assert Pinned("a", "1") == "a==1";
  }

  lemma PreparedRow()
    ensures Prepared(Update0(Approved, Some("admin"), None), Pin()) == ReadyPatch()
  {
    PinIsFound();
  }

  lemma Prepared0()
    ensures Next(Digits(), With(Scanned1(), Update0(Approved, Some("admin"), None)), Prepare(None, Pin()))
         == With(Scanned1(), ReadyPatch())
  {
    PreparedRow();
    assert PreparedAll(map[0 := Update0(Approved, Some("admin"), None)], None, Pin()) == map[0 := ReadyPatch()];
  }

  /** The first four steps prepare a patch from 1 to 2. */
  lemma PatchIsReached()
    ensures Run(Digits(), Start(Begun()), ToPatch()) == With(Scanned1(), ReadyPatch())
  {
    var start := Start(Begun());
    var a, b := [RunScan(Vulnerable(), 0)], [RunScan(Vulnerable(), 0)] + [ProposeUpdates(0, Listing())];
    assert a == [] + [RunScan(Vulnerable(), 0)];
    RunNext(Digits(), start, [], RunScan(Vulnerable(), 0));
    FirstScan();
    RunNext(Digits(), start, a, ProposeUpdates(0, Listing()));
    ProposeTwo(map[], 0);
    RunNext(Digits(), start, b, Approve(0, "admin"));
    Approved0();
    RunNext(Digits(), start, b + [Approve(0, "admin")], Prepare(None, Pin()));
    Prepared0();
  }

  // ---------- a downgrade ----------

  lemma UpgradedScans()
    ensures Storable(Digits(), With(Scanned1(), ReadyPatch()), Upgraded())
  {
    var d := Upgraded().installed[0];
    assert Reported(Digits(), {}, d) == [];
    assert !FeedRepeats(Digits(), {}, Scanned1().deps, d);
  }

  /** Scanned at 1, patched to 2, found at 3, rolled back: an approved proposal from 3 down to 2. */
  lemma CurrencyCanBeLost()
    ensures var t := Run(Digits(), Start(Begun()), ToPatch() + [RunScan(Upgraded(), 1)] + [Rollback(0)]);
            && 0 in t.proposals && t.proposals[0].status.Approved? && !Current(t)
            && "a" in t.deps && Above(Digits(), t.deps["a"].version, t.proposals[0].target)
  {
    var start, ready := Start(Begun()), With(Scanned1(), ReadyPatch());
    PatchIsReached();
    RunNext(Digits(), start, ToPatch(), RunScan(Upgraded(), 1));
    RunNext(Digits(), start, ToPatch() + [RunScan(Upgraded(), 1)], Rollback(0));
    UpgradedScans();
    ScanKeepsReady(Digits(), ready, Upgraded(), 1, 0, 0);
    RollbackOf(Digits(), Scan(Digits(), ready, Upgraded(), 1), 0);
    var t := Run(Digits(), start, ToPatch() + [RunScan(Upgraded(), 1)] + [Rollback(0)]);
    assert !IsCurrent(t, t.proposals[0]);
  }

  // ---------- two pending proposals for one target ----------

  /** Patched to 2, proposed again meanwhile, rolled back: two pending proposals for 2. */
  lemma UniquenessCanBeLost()
    ensures var before := Run(Digits(), Start(Begun()), ToPatch() + [ProposeUpdates(0, Listing())]);
            && Unique(before.proposals) && Doubles(before, Rollback(0))
            && !Unique(Next(Digits(), before, Rollback(0)).proposals)
  {
    var start := Start(Begun());
    PatchIsReached();
    RunNext(Digits(), start, ToPatch(), ProposeUpdates(0, Listing()));
    ProposeTwo(map[0 := ReadyPatch()], 1);
    var before := Run(Digits(), start, ToPatch() + [ProposeUpdates(0, Listing())]);
    assert before.proposals == map[0 := ReadyPatch()][1 := Update0(Proposed, None, None)];
    assert Rival(before.proposals[0].(status := Approved), before.proposals[1]);
    DoublingBreaks(Digits(), before, Rollback(0));
  }
}
