/**
 The string operations used by the match search: `toLowerCase` restricted to
 ASCII letters, and `String.prototype.includes`.
 */
module Text {

  /** ASCII lower-casing of one character; every other character is kept. */
  function LowerChar(c: char): (r: char)
    ensures 'A' <= c <= 'Z' ==> 'a' <= r <= 'z' && r as int - c as int == 'a' as int - 'A' as int
    ensures !('A' <= c <= 'Z') ==> r == c
  {
    if 'A' <= c <= 'Z' then (c as int - 'A' as int + 'a' as int) as char else c
  }

  /** `s.toLowerCase()` over ASCII. */
  function Lower(s: string): (r: string)
    ensures |r| == |s|
    ensures forall i :: 0 <= i < |s| ==> r[i] == LowerChar(s[i])
  {
    seq(|s|, i requires 0 <= i < |s| => LowerChar(s[i]))
  }

  /** Lower-casing an already lower-cased string changes nothing. */
  lemma LowerIdempotent(s: string)
    ensures Lower(Lower(s)) == Lower(s)
  {
  }

  /** `sub` occurs in `s` starting at index `i`. */
  ghost predicate OccursAt(s: string, sub: string, i: nat) {
    i + |sub| <= |s| && s[i..i + |sub|] == sub
  }

  /** `sub` is a prefix of `s`. */
  predicate IsPrefix(sub: string, s: string) {
    |sub| <= |s| && s[..|sub|] == sub
  }

  /** `s.includes(sub)`: `sub` occurs somewhere in `s`; the empty string occurs everywhere. */
  predicate Includes(s: string, sub: string)
    ensures Includes(s, sub) <==> exists i: nat :: OccursAt(s, sub, i)
    decreases |s|
  {
    IncludesStep(s, sub);
    IsPrefix(sub, s) || (|s| > 0 && Includes(s[1..], sub))
  }

  /** An occurrence is either at the front or an occurrence in the tail. */
  lemma IncludesStep(s: string, sub: string)
    ensures (exists i: nat :: OccursAt(s, sub, i))
        <==> IsPrefix(sub, s) || (|s| > 0 && exists i: nat :: OccursAt(s[1..], sub, i))
  {
    if IsPrefix(sub, s) {
      assert OccursAt(s, sub, 0);
    }
    if i: nat :| OccursAt(s, sub, i) {
      if i > 0 {
        assert s[1..][i - 1..i - 1 + |sub|] == s[i..i + |sub|];
        assert OccursAt(s[1..], sub, i - 1);
      }
    }
    if |s| > 0 && exists i: nat :: OccursAt(s[1..], sub, i) {
      var i: nat :| OccursAt(s[1..], sub, i);
      assert s[1..][i..i + |sub|] == s[i + 1..i + 1 + |sub|];
      assert OccursAt(s, sub, i + 1);
    }
  }

  /** Every string includes the empty string. */
  lemma IncludesEmpty(s: string)
    ensures Includes(s, "")
  {
    assert OccursAt(s, "", 0);
  }
}
