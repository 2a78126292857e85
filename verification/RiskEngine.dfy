/**
  The weighted risk score in exact hundredths, its tier and its deadline.
 */
module RiskEngine {
  import opened Options
  import opened Texts

  datatype Cve = Cve(cvssV3: Option<real>, cvss: Option<real>, epssScore: Option<real>, epss: Option<real>,
                     kev: bool, ransomware: bool)

  /** An attribute of an asset record: absent, null, or a text. */
  datatype Attribute = Absent | Null | Text(text: string)

  datatype Asset = Asset(
    cves: seq<Cve>, controls: Attribute, exposure: Attribute, access: Attribute,
    criticality: Attribute, classification: Attribute, eol: bool)

  datatype Tier = Informational | Low | Medium | High | Critical

  datatype Breakdown = Breakdown(
    cve: int, kev: int, controls: int, exposure: int, access: int, criticality: int, classification: int)

  datatype RiskResult = RiskResult(score: int, tier: Tier, breakdown: Breakdown, slaDays: int)

  // ---------- tables ----------

  function Control(t: string): int { match t case "full" => 1 case "partial" => 3 case "none" => 5 case _ => 3 }

  function Exposure(t: string): int {
    match t
    case "isolated" => 1
    case "internal" => 2
    case "dmz" => 3
    case "cloud" => 4
    case "internet-facing" => 5
    case _ => 3
  }

  function Access(t: string): int {
    match t
    case "mfa+pam" => 1
    case "mfa" => 2
    case "certificate" => 2
    case "password" => 4
    case "password-only" => 5
    case "none" => 5
    case _ => 3
  }

  function Criticality(t: string): int {
    match t
    case "low" => 1
    case "medium" => 2
    case "high" => 3
    case "critical" => 4
    case "tier-1" => 5
    case _ => 3
  }

  function Classification(t: string): int {
    match t
    case "public" => 1
    case "internal" => 2
    case "confidential" => 4
    case "restricted" => 5
    case _ => 2
  }

  /** Looks an attribute up: its default when absent, `other` when null. */
  function Lookup(a: Attribute, default: string, table: string -> int, other: int): int {
    match a
    case Absent => table(default)
    case Null => other
    case Text(t) => table(t)
  }

  function ClassificationOf(a: Attribute): int {
    match a
    case Absent => Classification("internal")
    case Null => Classification("none")
    case Text(t) => Classification(Lower(t))
  }

  // ---------- the CVE part ----------

  /** Rounds halves to the even neighbour. */
  function Round(x: real): int {
    var n := x.Floor;
    var rest := x - n as real;
    if rest < 0.5 || (rest == 0.5 && n % 2 == 0) then n else n + 1
  }

  function Clamp(n: int): (r: int)
    ensures 1 <= r <= 5
  {
    if n < 1 then 1 else if n > 5 then 5 else n
  }

  function NormCvss(cvss: real): int { Clamp(Round((cvss / 10.0) * 5.0)) }

  function NormEpss(epss: real): int { Clamp(Round(epss * 5.0)) }

  /** The first value that is present and not zero. */
  function Either(a: Option<real>, b: Option<real>): real {
    if a.Some? && a.value != 0.0 then a.value else b.GetOr(0.0)
  }

  function CvssOf(c: Cve): real { Either(c.cvssV3, c.cvss) }

  function EpssOf(c: Cve): real { Either(c.epssScore, c.epss) }

  function Max(values: seq<real>): real
    requires values != []
  {
    var last := |values| - 1;
    if last == 0 then values[0]
    else
      var m := Max(values[..last]);
      if values[last] > m then values[last] else m
  }

  function Values(cves: seq<Cve>, f: Cve -> real): (r: seq<real>)
    ensures |r| == |cves|
  {
    seq(|cves|, i requires 0 <= i < |cves| => f(cves[i]))
  }

  function MaxOrZero(cves: seq<Cve>, f: Cve -> real): real {
    if cves == [] then 0.0 else Max(Values(cves, f))
  }

  predicate HasKev(cves: seq<Cve>) { exists c :: c in cves && c.kev }

  predicate HasRansomware(cves: seq<Cve>) { exists c :: c in cves && c.kev && c.ransomware }

  function Larger(a: int, b: int): int { if a >= b then a else b }

  function CveScore(cves: seq<Cve>): int {
    var base := if cves == [] then 1 else Larger(NormCvss(MaxOrZero(cves, CvssOf)), NormEpss(MaxOrZero(cves, EpssOf)));
    if HasRansomware(cves) then (if base + 1 < 5 then base + 1 else 5) else base
  }

  // ---------- the score ----------

  function Factors(a: Asset): Breakdown {
    Breakdown(
      CveScore(a.cves), if HasKev(a.cves) then 5 else 1,
      Lookup(a.controls, "none", Control, 3), Lookup(a.exposure, "internal", Exposure, 3),
      Lookup(a.access, "password", Access, 3), Lookup(a.criticality, "medium", Criticality, 3),
      ClassificationOf(a.classification))
  }

  /** In hundredths: the weights add up to one hundred. */
  function Weighted(b: Breakdown): int {
    23 * b.cve + 18 * b.kev + 18 * b.controls + 14 * b.exposure + 9 * b.access + 10 * b.criticality + 8 * b.classification
  }

  function TierOf(score: int): Tier {
    if score >= 400 then Critical
    else if score >= 300 then High
    else if score >= 200 then Medium
    else if score >= 150 then Low
    else Informational
  }

  function SlaOf(tier: Tier, eol: bool, hasKev: bool): int {
    if tier.Critical? then 7
    else if tier.High? then 30
    else if tier.Medium? then 90
    else if eol then 180
    else if hasKev then 14
    else 365
  }

  function ComputeRisk(a: Asset): RiskResult {
    var b := Factors(a);
    var score := Weighted(b);
    RiskResult(score, TierOf(score), b, SlaOf(TierOf(score), a.eol, HasKev(a.cves)))
  }

  // ---------- bounds ----------

  lemma FactorsAreBounded(a: Asset)
    ensures var b := Factors(a);
            && 1 <= b.cve <= 5 && b.kev in {1, 5} && 1 <= b.controls <= 5 && 1 <= b.exposure <= 5
            && 1 <= b.access <= 5 && 1 <= b.criticality <= 5 && 1 <= b.classification <= 5
  {
    TablesAreBounded(a.controls, "none", Control);
    TablesAreBounded(a.exposure, "internal", Exposure);
    TablesAreBounded(a.access, "password", Access);
    TablesAreBounded(a.criticality, "medium", Criticality);
  }

  lemma TablesAreBounded(a: Attribute, default: string, table: string -> int)
    requires forall t :: 1 <= table(t) <= 5
    ensures 1 <= Lookup(a, default, table, 3) <= 5
  {}

  /** Every score lies between one and five. */
  lemma ScoreIsBounded(a: Asset)
    ensures 100 <= ComputeRisk(a).score <= 500
  {
    FactorsAreBounded(a);
  }

  // ---------- more CVEs ----------

  lemma {:induction false} MaxIsGreatest(values: seq<real>)
    requires values != []
    ensures Max(values) in values
    ensures forall i :: 0 <= i < |values| ==> values[i] <= Max(values)
  {
    var last := |values| - 1;
    if last > 0 {
      MaxIsGreatest(values[..last]);
      assert forall i :: 0 <= i < last ==> values[i] == values[..last][i];
    }
  }

  lemma MaxGrows(xs: seq<Cve>, ys: seq<Cve>, f: Cve -> real)
    requires xs != [] && forall c :: c in xs ==> c in ys
    ensures ys != [] && MaxOrZero(xs, f) <= MaxOrZero(ys, f)
  {
    assert xs[0] in ys;
    MaxIsGreatest(Values(xs, f));
    MaxIsGreatest(Values(ys, f));
    var i :| 0 <= i < |xs| && Values(xs, f)[i] == Max(Values(xs, f));
    assert xs[i] in ys;
    var j :| 0 <= j < |ys| && ys[j] == xs[i];
    assert Values(ys, f)[j] == f(xs[i]);
  }

  lemma RoundIsMonotone(x: real, y: real)
    requires x <= y
    ensures Round(x) <= Round(y)
  {
    assert x.Floor <= y.Floor;
    if x.Floor < y.Floor {
      assert x.Floor + 1 <= y.Floor;
    }
  }

  lemma NormsAreMonotone(x: real, y: real)
    requires x <= y
    ensures NormCvss(x) <= NormCvss(y) && NormEpss(x) <= NormEpss(y)
  {
    RoundIsMonotone((x / 10.0) * 5.0, (y / 10.0) * 5.0);
    RoundIsMonotone(x * 5.0, y * 5.0);
  }

  /** With every CVE kept, in whatever order and number, the CVE part does not fall. */
  lemma CveScoreGrows(xs: seq<Cve>, ys: seq<Cve>)
    requires forall c :: c in xs ==> c in ys
    ensures CveScore(xs) <= CveScore(ys)
    ensures HasKev(xs) ==> HasKev(ys)
  {
    if xs != [] {
      MaxGrows(xs, ys, CvssOf);
      MaxGrows(xs, ys, EpssOf);
      NormsAreMonotone(MaxOrZero(xs, CvssOf), MaxOrZero(ys, CvssOf));
      NormsAreMonotone(MaxOrZero(xs, EpssOf), MaxOrZero(ys, EpssOf));
    }
  }

  predicate AtMost(b: Breakdown, c: Breakdown) {
    && b.cve <= c.cve && b.kev <= c.kev && b.controls <= c.controls && b.exposure <= c.exposure
    && b.access <= c.access && b.criticality <= c.criticality && b.classification <= c.classification
  }

  /** No factor can rise without the score, and the tier, at least staying. */
  lemma ScoreFollowsFactors(a: Asset, b: Asset)
    requires AtMost(Factors(a), Factors(b))
    ensures ComputeRisk(a).score <= ComputeRisk(b).score
    ensures Rank(ComputeRisk(a).tier) <= Rank(ComputeRisk(b).tier)
    ensures Factors(a) != Factors(b) ==> ComputeRisk(a).score < ComputeRisk(b).score
  {}

  function Rank(t: Tier): int {
    match t case Informational => 0 case Low => 1 case Medium => 2 case High => 3 case Critical => 4
  }

  /** An asset with more CVEs is at no less risk; with the same ones, listed in any order and number, at the same risk. */
  lemma MoreCvesMoreRisk(a: Asset, cves: seq<Cve>)
    requires forall c :: c in a.cves ==> c in cves
    ensures var b := a.(cves := cves);
            && ComputeRisk(a).score <= ComputeRisk(b).score
            && Rank(ComputeRisk(a).tier) <= Rank(ComputeRisk(b).tier)
            && ((forall c :: c in cves ==> c in a.cves) ==> ComputeRisk(a) == ComputeRisk(b))
  {
    CveScoreGrows(a.cves, cves);
    ScoreFollowsFactors(a, a.(cves := cves));
    if forall c :: c in cves ==> c in a.cves {
      CveScoreGrows(cves, a.cves);
    }
  }

  // ---------- deadlines ----------

  /** A higher tier brings the deadline forward, unless it loses the short deadline of a known exploited low tier. */
  lemma DeadlineFollowsTier(s: Tier, t: Tier, eol: bool, hasKev: bool)
    requires Rank(s) <= Rank(t)
    ensures SlaOf(t, eol, hasKev) <= SlaOf(s, eol, hasKev) <==>
              !(Rank(s) <= 1 && hasKev && !eol && (t.Medium? || t.High?))
  {}

  /** The exception is real: opening this asset to the internet takes its deadline from 14 days to 90. */
  lemma MoreExposureLaterDeadline()
    ensures var a := Asset([Cve(None, None, None, None, true, false)], Text("full"), Text("isolated"), Text("mfa+pam"),
                           Text("low"), Text("public"), false);
            var b := a.(exposure := Text("internet-facing"));
            && ComputeRisk(a).score < ComputeRisk(b).score
            && ComputeRisk(a).slaDays == 14 && ComputeRisk(b).slaDays == 90
  {
    var cves := [Cve(None, None, None, None, true, false)];
    assert cves[0].kev && cves[0] in cves;
    assert CvssOf(cves[0]) == 0.0 && EpssOf(cves[0]) == 0.0;
    assert Values(cves, CvssOf)[0] == 0.0 && Values(cves, EpssOf)[0] == 0.0;
    assert Round(0.0) == 0;
  }
}
