/** Strings as the page treats them: ASCII lower-casing (standing in for
    JavaScript's `toLowerCase`) and the substring test behind `includes`. */
module Text {

  predicate IsUpper(c: char) {
    'A' <= c <= 'Z'
  }

  /** Lower-cases one character; only the ASCII letters A-Z change. */
  function LowerChar(c: char): (d: char)
    ensures !IsUpper(d)
    ensures IsUpper(c) ==> 'a' <= d <= 'z' && d as int - c as int == 32
    ensures !IsUpper(c) ==> d == c
  {
    if IsUpper(c) then (c as int + 32) as char else c
  }

  /** `s.toLowerCase()`, restricted to ASCII: every position is lowered on its own. */
  function Lower(s: string): (r: string)
    ensures |r| == |s|
    ensures forall i :: 0 <= i < |s| ==> r[i] == LowerChar(s[i])
  {
    if s == [] then [] else [LowerChar(s[0])] + Lower(s[1..])
  }

  predicate IsPrefix(p: string, s: string) {
    |p| <= |s| && s[..|p|] == p
  }

  predicate IsSuffix(p: string, s: string) {
    |p| <= |s| && s[|s| - |p|..] == p
  }

  /** `s.includes(q)`: `q` starts at some position of `s`. Every string contains "". */
  predicate Contains(s: string, q: string)
    decreases |s|
  {
    IsPrefix(q, s) || (|s| > 0 && Contains(s[1..], q))
  }

  /** Reference reading of "q occurs in s at position i". */
  ghost predicate OccursAt(s: string, q: string, i: int) {
    0 <= i && i + |q| <= |s| && s[i..i + |q|] == q
  }

  /** Reference reading of "q occurs somewhere in s". */
  ghost predicate Occurs(s: string, q: string) {
    exists i :: OccursAt(s, q, i)
  }

  /** Lower-casing is a fixpoint after one application. */
  lemma LowerIdempotent(s: string)
    ensures Lower(Lower(s)) == Lower(s)
  {
  }

  /** Lower-casing commutes with taking a prefix. */
  lemma LowerPrefix(p: string, s: string)
    requires IsPrefix(p, s)
    ensures IsPrefix(Lower(p), Lower(s))
  {
    assert Lower(s)[..|p|] == Lower(p);
  }

  /** A successful test names a position where the query occurs. */
  lemma {:induction false} ContainsWitness(s: string, q: string) returns (i: int)
    requires Contains(s, q)
    ensures OccursAt(s, q, i)
    decreases |s|
  {
    if IsPrefix(q, s) {
      i := 0;
    } else {
      var j := ContainsWitness(s[1..], q);
      assert s[1..][j..j + |q|] == s[j + 1..j + 1 + |q|];
      i := j + 1;
    }
  }

  /** An occurrence at any position makes the test succeed. */
  lemma {:induction false} OccursContains(s: string, q: string, i: int)
    requires OccursAt(s, q, i)
    ensures Contains(s, q)
    decreases i
  {
    if i > 0 {
      assert s[1..][i - 1..i - 1 + |q|] == s[i..i + |q|];
      OccursContains(s[1..], q, i - 1);
    }
  }

  /** The recursive test agrees with the positional reading, in both directions. */
  lemma ContainsIffOccurs(s: string, q: string)
    ensures Contains(s, q) <==> exists i :: OccursAt(s, q, i)
  {
    if Contains(s, q) {
      var i := ContainsWitness(s, q);
    }
    forall i | OccursAt(s, q, i)
      ensures Contains(s, q)
    {
      OccursContains(s, q, i);
    }
  }

  lemma ContainsEmpty(s: string)
    ensures Contains(s, "")
  {
    assert IsPrefix("", s);
  }

  /** If `q` occurs in `s`, so does every prefix of `q`. */
  lemma ContainsPrefixOfQuery(s: string, p: string, q: string)
    requires IsPrefix(p, q)
    requires Contains(s, q)
    ensures Contains(s, p)
  {
    ContainsIffOccurs(s, q);
    var i :| OccursAt(s, q, i);
    assert s[i..i + |p|] == q[..|p|] == p;
    assert OccursAt(s, p, i);
    ContainsIffOccurs(s, p);
  }
}
