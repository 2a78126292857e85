/** The ASCII part of the text operations the application leans on. */
module Texts {

  predicate IsSpace(c: char) { c in " \t\n\r\U{000B}\U{000C}\U{001C}\U{001D}\U{001E}\U{001F}" }

  /** The controls from tab to carriage return, the four separators and the blank. */
  lemma SpacesAre(c: char)
    ensures IsSpace(c) <==> 9 <= c as int <= 13 || 28 <= c as int <= 32
  {}

  function LowerChar(c: char): char { if 'A' <= c <= 'Z' then c - 'A' + 'a' else c }

  function Lower(s: string): (r: string)
    ensures |r| == |s|
  {
    seq(|s|, i requires 0 <= i < |s| => LowerChar(s[i]))
  }

  function StripLeft(s: string): string {
    if s != "" && IsSpace(s[0]) then StripLeft(s[1..]) else s
  }

  function StripRight(s: string): string {
    if s != "" && IsSpace(s[|s| - 1]) then StripRight(s[..|s| - 1]) else s
  }

  function Strip(s: string): string { StripRight(StripLeft(s)) }

  /** Stripping the right end never eats into text that ends in something visible. */
  lemma {:induction false} StripRightKeeps(a: string, b: string)
    requires a != "" && !IsSpace(a[|a| - 1])
    ensures a <= StripRight(a + b)
  {
    if b == "" {
      assert a + b == a;
    } else if IsSpace(b[|b| - 1]) {
      assert (a + b)[..|a + b| - 1] == a + b[..|b| - 1];
      StripRightKeeps(a, b[..|b| - 1]);
    }
  }

  predicate IsUpper(c: char) { 'A' <= c <= 'Z' }

  /** Equal apart from the case of letters. */
  predicate SameLetters(x: string, y: string) {
    |x| == |y| && forall i :: 0 <= i < |x| ==>
      || x[i] == y[i]
      || (IsUpper(x[i]) && y[i] as int == x[i] as int + 32)
      || (IsUpper(y[i]) && x[i] as int == y[i] as int + 32)
  }

  lemma SameLettersExactly(x: string, y: string)
    ensures SameLetters(x, y) <==> Lower(x) == Lower(y)
  {
    if Lower(x) == Lower(y) {
      forall i | 0 <= i < |x|
        ensures LowerChar(x[i]) == LowerChar(y[i])
      {
        assert Lower(x)[i] == Lower(y)[i];
      }
    }
  }

  lemma {:induction false} StripRightIsPrefix(s: string)
    ensures StripRight(s) <= s
  {
    if s != "" && IsSpace(s[|s| - 1]) { StripRightIsPrefix(s[..|s| - 1]); }
  }

  /** Stripping the left end drops exactly the leading blanks. */
  lemma {:induction false} StripLeftDrops(s: string) returns (lead: nat)
    ensures lead <= |s| && StripLeft(s) == s[lead..]
    ensures forall i :: 0 <= i < lead ==> IsSpace(s[i])
    ensures lead < |s| ==> !IsSpace(s[lead])
  {
    if s != "" && IsSpace(s[0]) {
      var rest := StripLeftDrops(s[1..]);
      lead := rest + 1;
      assert forall i :: 0 < i < lead ==> s[i] == s[1..][i - 1];
    } else {
      lead := 0;
    }
  }
}
