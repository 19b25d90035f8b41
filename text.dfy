/** The string operations the server relies on: `toLowerCase`, `includes` and a
    case-insensitive regular-expression test for a literal pattern. */
module Text {

  /** Lower-cases one character. Only the ASCII letters A-Z are folded. */
  function LowerChar(c: char): char {
    if 'A' <= c <= 'Z' then (c as int + 32) as char else c
  }

  /** `String.prototype.toLowerCase`, on ASCII letters. */
  function Lower(s: string): (r: string)
    ensures |r| == |s|
    ensures forall i :: 0 <= i < |s| ==> r[i] == LowerChar(s[i])
  {
    if s == [] then [] else [LowerChar(s[0])] + Lower(s[1..])
  }

  /** `p` occurs in `s` starting at index `i`. */
  predicate OccursAt(s: string, p: string, i: int) {
    0 <= i && i + |p| <= |s| && s[i..i + |p|] == p
  }

  /** `p` is a substring of `s`. */
  ghost predicate Occurs(s: string, p: string) {
    exists i :: OccursAt(s, p, i)
  }

  lemma OccursShift(s: string, p: string)
    requires s != [] && !OccursAt(s, p, 0)
    ensures Occurs(s, p) <==> Occurs(s[1..], p)
  {
    if Occurs(s, p) {
      var i :| OccursAt(s, p, i);
      assert s[1..][i - 1..i - 1 + |p|] == s[i..i + |p|];
      assert OccursAt(s[1..], p, i - 1);
    }
    if Occurs(s[1..], p) {
      var i :| OccursAt(s[1..], p, i);
      assert s[1..][i..i + |p|] == s[i + 1..i + 1 + |p|];
      assert OccursAt(s, p, i + 1);
    }
  }

  /** `String.prototype.includes`: scans `s` left to right for `p`. */
  function Includes(s: string, p: string): (r: bool)
    ensures r <==> Occurs(s, p)
    decreases |s|
  {
    if |s| < |p| then false
    else if s[..|p|] == p then assert OccursAt(s, p, 0); true
    else OccursShift(s, p); Includes(s[1..], p)
  }

  /** A longer pattern that occurs brings every one of its prefixes with it. */
  lemma OccursPrefix(s: string, p: string, q: string)
    requires q <= p && Occurs(s, p)
    ensures Occurs(s, q)
  {
    var i :| OccursAt(s, p, i);
    assert s[i..i + |q|] == p[..|q|];
    assert OccursAt(s, q, i);
  }

  /** `p` matches the window of `s` at `i`, character by character after folding. */
  ghost predicate MatchesIgnoringCaseAt(s: string, p: string, i: int) {
    0 <= i && i + |p| <= |s| && forall k :: 0 <= k < |p| ==> LowerChar(s[i + k]) == LowerChar(p[k])
  }

  /** What a case-insensitive regular expression `/p/i` made of literal characters
      matches: some window of `s` equal to `p` after folding. */
  ghost predicate MatchesIgnoringCase(s: string, p: string) {
    exists i :: MatchesIgnoringCaseAt(s, p, i)
  }

  lemma WindowMatch(s: string, p: string, i: int)
    requires Lower(p) == p && 0 <= i && i + |p| <= |s|
    ensures OccursAt(Lower(s), p, i) <==> MatchesIgnoringCaseAt(s, p, i)
  {
  }

  /** Lower-casing and then searching for a lower-case pattern is the same test as
      the case-insensitive match. */
  lemma IncludesLowerIsCaseInsensitive(s: string, p: string)
    requires Lower(p) == p
    ensures Includes(Lower(s), p) <==> MatchesIgnoringCase(s, p)
  {
    if Occurs(Lower(s), p) {
      var i :| OccursAt(Lower(s), p, i);
      WindowMatch(s, p, i);
    }
    if MatchesIgnoringCase(s, p) {
      var i :| MatchesIgnoringCaseAt(s, p, i);
      WindowMatch(s, p, i);
    }
  }
}
