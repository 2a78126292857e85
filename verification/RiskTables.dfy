/** What a risk result says in terms of the asset's own attributes and CVEs: scales, weights, thresholds and rounding. */
module RiskTables {
  import opened Options
  import opened RiskEngine
  import opened Texts

  // ---------- the scales ----------

  const EXPOSURES: seq<string> := ["isolated", "internal", "dmz", "cloud", "internet-facing"]
  const CRITICALITIES: seq<string> := ["low", "medium", "high", "critical", "tier-1"]
  const CONTROLS: seq<string> := ["full", "partial", "none"]
  const ACCESSES: seq<set<string>> := [{"mfa+pam"}, {"mfa", "certificate"}, {}, {"password"}, {"password-only", "none"}]
  const CLASSES: seq<string> := ["public", "internal", "", "confidential", "restricted"]

  /** Known values score their place on the scale, unknown and null ones the middle, absent ones as the default does. */
  lemma ScalesAreFollowed(a: Asset, i: nat)
    ensures var b := ComputeRisk(a).breakdown;
            && (i < 5 && a.exposure == Attribute.Text(EXPOSURES[i]) ==> b.exposure == i + 1)
            && (i < 5 && a.criticality == Attribute.Text(CRITICALITIES[i]) ==> b.criticality == i + 1)
            && (i < 3 && a.controls == Attribute.Text(CONTROLS[i]) ==> b.controls == 2 * i + 1)
            && (i < 5 && a.access.Text? && a.access.text in ACCESSES[i] ==> b.access == i + 1)
    ensures var b := ComputeRisk(a).breakdown;
            && (a.exposure == Null || (a.exposure.Text? && a.exposure.text !in EXPOSURES) ==> b.exposure == 3)
            && (a.criticality == Null || (a.criticality.Text? && a.criticality.text !in CRITICALITIES) ==> b.criticality == 3)
            && (a.controls == Null || (a.controls.Text? && a.controls.text !in CONTROLS) ==> b.controls == 3)
            && (a.access == Null || (a.access.Text? && forall j :: 0 <= j < 5 ==> a.access.text !in ACCESSES[j]) ==> b.access == 3)
    ensures var b := ComputeRisk(a).breakdown;
            && (a.exposure.Absent? ==> b.exposure == 2) && (a.criticality.Absent? ==> b.criticality == 2)
            && (a.controls.Absent? ==> b.controls == 5) && (a.access.Absent? ==> b.access == 4)
  {
    if a.access.Text? { AccessScale(a.access.text); }
    if a.exposure.Text? { ExposureScale(a.exposure.text); }
    if a.criticality.Text? { CriticalityScale(a.criticality.text); }
    if a.controls.Text? { ControlScale(a.controls.text); }
  }

  lemma ExposureScale(t: string)
    ensures forall i :: 0 <= i < 5 && t == EXPOSURES[i] ==> Exposure(t) == i + 1
    ensures t !in EXPOSURES ==> Exposure(t) == 3
  {}

  lemma CriticalityScale(t: string)
    ensures forall i :: 0 <= i < 5 && t == CRITICALITIES[i] ==> Criticality(t) == i + 1
    ensures t !in CRITICALITIES ==> Criticality(t) == 3
  {}

  lemma ControlScale(t: string)
    ensures forall i :: 0 <= i < 3 && t == CONTROLS[i] ==> Control(t) == 2 * i + 1
    ensures t !in CONTROLS ==> Control(t) == 3
  {}

  lemma AccessScale(t: string)
    ensures forall i :: 0 <= i < 5 && t in ACCESSES[i] ==> Access(t) == i + 1
    ensures (forall j :: 0 <= j < 5 ==> t !in ACCESSES[j]) ==> Access(t) == 3
  {
    assert "mfa+pam" in ACCESSES[0] && "mfa" in ACCESSES[1] && "certificate" in ACCESSES[1];
    assert "password" in ACCESSES[3] && "password-only" in ACCESSES[4] && "none" in ACCESSES[4];
  }

  /** The classification is read in lower case; one that is unknown, null or absent counts as internal. */
  lemma ClassificationFollowsScale(a: Asset, i: nat)
    ensures var b := ComputeRisk(a).breakdown;
            && (i < 5 && i != 2 && a.classification.Text? && SameLetters(a.classification.text, CLASSES[i]) ==> b.classification == i + 1)
            && ((forall j :: 0 <= j < 5 && j != 2 && a.classification.Text? ==> !SameLetters(a.classification.text, CLASSES[j]))
                  ==> b.classification == 2)
  {
    ScaleIsLower();
    if a.classification.Text? {
      var t := a.classification.text;
      SameLettersExactly(t, CLASSES[0]);
      SameLettersExactly(t, CLASSES[1]);
      SameLettersExactly(t, CLASSES[3]);
      SameLettersExactly(t, CLASSES[4]);
    }
  }

  lemma ScaleIsLower()
    ensures Lower(CLASSES[0]) == CLASSES[0] && Lower(CLASSES[1]) == CLASSES[1]
    ensures Lower(CLASSES[3]) == CLASSES[3] && Lower(CLASSES[4]) == CLASSES[4]
  {}

  // ---------- weights, tiers and deadlines ----------

  /** In hundredths the seven weights are 23, 18, 18, 14, 9, 10 and 8, and nothing else enters the score. */
  lemma WeightsAre(a: Asset)
    ensures var r := ComputeRisk(a);
            var b := r.breakdown;
            r.score == 100 + 23 * (b.cve - 1) + 18 * (b.kev - 1) + 18 * (b.controls - 1) + 14 * (b.exposure - 1)
                       + 9 * (b.access - 1) + 10 * (b.criticality - 1) + 8 * (b.classification - 1)
  {}

  const THRESHOLDS: set<int> := {150, 200, 300, 400}

  /** The tier is the number of thresholds the score reaches. */
  lemma TierCountsThresholds(a: Asset)
    ensures Rank(ComputeRisk(a).tier) == |set t | t in THRESHOLDS && t <= ComputeRisk(a).score|
  {
    var s := ComputeRisk(a).score;
    var reached := set t | t in THRESHOLDS && t <= s;
    assert reached == if s >= 400 then {150, 200, 300, 400} else if s >= 300 then {150, 200, 300}
                      else if s >= 200 then {150, 200} else if s >= 150 then {150} else {};
  }

  /** The deadline in terms of the score. */
  lemma DeadlinesAre(a: Asset)
    ensures var r := ComputeRisk(a);
            && (r.slaDays == 7 <==> r.score >= 400)
            && (r.slaDays == 30 <==> 300 <= r.score < 400)
            && (r.slaDays == 90 <==> 200 <= r.score < 300)
            && (r.slaDays == 180 <==> r.score < 200 && a.eol)
            && (r.slaDays == 14 <==> r.score < 200 && !a.eol && exists c :: c in a.cves && c.kev)
            && (r.slaDays == 365 <==> r.score < 200 && !a.eol && !exists c :: c in a.cves && c.kev)
  {}

  // ---------- CVEs ----------

  /** A base score out of ten becomes the nearest of five steps, the even one of two, and at least one. */
  lemma CvssIsNearest(x: real)
    requires 0.0 <= x <= 10.0
    ensures var n := NormCvss(x);
            && 1 <= n <= 5 && (x < 1.0 ==> n == 1)
            && (x >= 1.0 ==> -1.0 <= x - 2.0 * n as real <= 1.0)
            && (x > 1.0 && (x - 2.0 * n as real == 1.0 || x - 2.0 * n as real == -1.0) ==> n % 2 == 0)
  {}

  lemma EpssIsNearest(x: real)
    requires 0.0 <= x <= 1.0
    ensures var n := NormEpss(x);
            && 1 <= n <= 5 && (x < 0.1 ==> n == 1)
            && (x >= 0.1 ==> -0.5 <= 5.0 * x - n as real <= 0.5)
            && (x > 0.1 && (5.0 * x - n as real == 0.5 || 5.0 * x - n as real == -0.5) ==> n % 2 == 0)
  {}

  /** What one CVE counts: the larger of its two readings, each the first of its fields that is present and not zero. */
  function Severity(c: Cve): int {
    var cvss := if c.cvssV3 == None || c.cvssV3 == Some(0.0) then c.cvss.GetOr(0.0) else c.cvssV3.value;
    var epss := if c.epssScore == None || c.epssScore == Some(0.0) then c.epss.GetOr(0.0) else c.epssScore.value;
    Larger(NormCvss(cvss), NormEpss(epss))
  }

  lemma ReadingsAre(c: Cve)
    ensures Severity(c) == Larger(NormCvss(CvssOf(c)), NormEpss(EpssOf(c)))
  {}

  lemma WorstSeverity(cves: seq<Cve>) returns (worst: Cve)
    requires cves != []
    ensures worst in cves && forall c :: c in cves ==> Severity(c) <= Severity(worst)
    ensures Severity(worst) == Larger(NormCvss(MaxOrZero(cves, CvssOf)), NormEpss(MaxOrZero(cves, EpssOf)))
  {
    var x, y := MaxOrZero(cves, CvssOf), MaxOrZero(cves, EpssOf);
    var c := WorstReading(cves, CvssOf);
    var d := WorstReading(cves, EpssOf);
    worst := if NormCvss(x) >= NormEpss(y) then c else d;
    ReadingsAre(worst);
    NormsAreMonotone(CvssOf(worst), x);
    NormsAreMonotone(EpssOf(worst), y);
    forall c | c in cves
      ensures Severity(c) <= Larger(NormCvss(x), NormEpss(y))
    {
      ReadingsAre(c);
      NormsAreMonotone(CvssOf(c), x);
      NormsAreMonotone(EpssOf(c), y);
    }
  }

  /** The CVE part and its worst CVE. */
  lemma PartIsOfWorst(cves: seq<Cve>, worst: Cve)
    requires cves != [] && Severity(worst) == Larger(NormCvss(MaxOrZero(cves, CvssOf)), NormEpss(MaxOrZero(cves, EpssOf)))
    ensures CveScore(cves) == Capped(Severity(worst) + (if exists c :: c in cves && c.kev && c.ransomware then 1 else 0))
  {}

  /** The base of the CVE part is that of the worst single CVE; ransomware adds one, up to five; none at all counts one. */
  lemma WorstCveDecides(a: Asset) returns (worst: Cve)
    ensures ComputeRisk(a).breakdown.kev == if exists c :: c in a.cves && c.kev then 5 else 1
    ensures a.cves == [] ==> ComputeRisk(a).breakdown.cve == 1
    ensures a.cves != [] ==>
              && worst in a.cves && (forall c :: c in a.cves ==> Severity(c) <= Severity(worst))
              && ComputeRisk(a).breakdown.cve
                   == Capped(Severity(worst) + (if exists c :: c in a.cves && c.kev && c.ransomware then 1 else 0))
  {
    worst := Cve(None, None, None, None, false, false);
    if a.cves != [] {
      worst := WorstSeverity(a.cves);
      PartIsOfWorst(a.cves, worst);
    }
  }

  function Capped(n: int): int { if n < 5 then n else 5 }

  lemma WorstReading(cves: seq<Cve>, f: Cve -> real) returns (worst: Cve)
    requires cves != []
    ensures worst in cves && f(worst) == MaxOrZero(cves, f)
    ensures forall c :: c in cves ==> f(c) <= MaxOrZero(cves, f)
  {
    var values := Values(cves, f);
    MaxIsGreatest(values);
    forall c | c in cves
      ensures f(c) <= MaxOrZero(cves, f)
    {
      var i :| 0 <= i < |cves| && cves[i] == c;
      assert values[i] == f(c);
    }
    var i :| 0 <= i < |values| && values[i] == Max(values);
    worst := cves[i];
  }
}
