/**
  Version texts under an arbitrary reading of PEP 440: a reader turns a text into a release, a
  point on a total order together with its normal spelling, or rejects it.
 */
module Releases {
  import opened Options

  datatype Release = Release(rank: real, normal: string)

  type Reader = string -> Option<Release>

  /** A normal spelling reads back as the release it spells. */
  ghost predicate RoundTrips(read: Reader) {
    forall t :: read(t).Some? ==> read(read(t).value.normal) == read(t)
  }

  predicate Above(read: Reader, a: string, b: string) {
    read(a).Some? && read(b).Some? && read(a).value.rank > read(b).value.rank
  }

  predicate AtLeast(read: Reader, a: string, b: string) {
    read(a).Some? && read(b).Some? && read(a).value.rank >= read(b).value.rank
  }

  /** The first of the smallest. */
  function Least(rs: seq<Release>): (r: Release)
    requires rs != []
    ensures r in rs && forall i :: 0 <= i < |rs| ==> r.rank <= rs[i].rank
  {
    var last := |rs| - 1;
    if last == 0 then rs[0]
    else
      var m := Least(rs[..last]);
      if rs[last].rank < m.rank then rs[last] else m
  }

  /** The first of the greatest. */
  function Greatest(rs: seq<Release>): (r: Release)
    requires rs != []
    ensures r in rs && forall i :: 0 <= i < |rs| ==> rs[i].rank <= r.rank
  {
    var last := |rs| - 1;
    if last == 0 then rs[0]
    else
      var m := Greatest(rs[..last]);
      if rs[last].rank > m.rank then rs[last] else m
  }

  /** The readable candidates above the current release, in order. */
  function ValidFixes(read: Reader, current: Release, candidates: seq<string>): seq<Release> {
    if candidates == [] then []
    else
      var last := |candidates| - 1;
      var rest := ValidFixes(read, current, candidates[..last]);
      var r := read(candidates[last]);
      if r.Some? && r.value.rank > current.rank then rest + [r.value] else rest
  }

  lemma {:induction false} ValidFixesHas(read: Reader, current: Release, candidates: seq<string>, r: Release)
    ensures r in ValidFixes(read, current, candidates) <==>
              r.rank > current.rank && exists i :: 0 <= i < |candidates| && read(candidates[i]) == Some(r)
  {
    if candidates != [] {
      var last := |candidates| - 1;
      ValidFixesHas(read, current, candidates[..last], r);
      assert forall i :: 0 <= i < last ==> candidates[..last][i] == candidates[i];
    }
  }

  /** The smallest fix above the version, in its normal spelling. */
  function FixFor(read: Reader, version: string, candidates: seq<string>): Option<string> {
    if read(version).None? then None
    else
      var fixes := ValidFixes(read, read(version).value, candidates);
      if fixes == [] then None else Some(Least(fixes).normal)
  }

  /** A fix is chosen exactly when some candidate is above the version, and then the least such. */
  lemma FixIsLeast(read: Reader, version: string, candidates: seq<string>)
    requires RoundTrips(read)
    ensures FixFor(read, version, candidates).Some? <==>
              exists i :: 0 <= i < |candidates| && Above(read, candidates[i], version)
    ensures FixFor(read, version, candidates).Some? ==>
              var fix := FixFor(read, version, candidates).value;
              && Above(read, fix, version)
              && (forall i :: 0 <= i < |candidates| && Above(read, candidates[i], version) ==> AtLeast(read, candidates[i], fix))
              && exists i :: 0 <= i < |candidates| && read(candidates[i]) == read(fix)
  {
    if read(version).Some? {
      var current := read(version).value;
      var fixes := ValidFixes(read, current, candidates);
      forall i | 0 <= i < |candidates| && Above(read, candidates[i], version)
        ensures read(candidates[i]).value in fixes
      {
        ValidFixesHas(read, current, candidates, read(candidates[i]).value);
      }
      if fixes != [] {
        var least := Least(fixes);
        ValidFixesHas(read, current, candidates, least);
        var i :| 0 <= i < |candidates| && read(candidates[i]) == Some(least);
        assert read(least.normal) == read(candidates[i]);
        assert Above(read, candidates[i], version);
      }
    }
  }
}
