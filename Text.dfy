/** Case handling for email addresses and names: `toLowerCase()` on the
    application side, `lower(...)` and `ILIKE` on the database side, all
    modelled as ASCII case folding. */
module Text {

  predicate IsUpper(c: char) {
    'A' <= c <= 'Z'
  }

  function LowerChar(c: char): (r: char)
    ensures !IsUpper(r)
    ensures !IsUpper(c) ==> r == c
  {
    if IsUpper(c) then (c as int + 32) as char else c
  }

  /** ASCII lower-casing of a whole string. */
  function Lower(s: string): (r: string)
    ensures |r| == |s|
    ensures forall i | 0 <= i < |s| :: r[i] == LowerChar(s[i])
  {
    seq(|s|, i requires 0 <= i < |s| => LowerChar(s[i]))
  }

  /** A string has no upper-case letter. */
  predicate IsLowercase(s: string) {
    forall i | 0 <= i < |s| :: !IsUpper(s[i])
  }

  /** Lower-cased strings are lower case, and lower-casing them again changes nothing. */
  lemma LowerIsLowercase(s: string)
    ensures IsLowercase(Lower(s))
    ensures Lower(Lower(s)) == Lower(s)
  {
    var l := Lower(s);
    assert forall i | 0 <= i < |l| :: Lower(l)[i] == l[i];
  }

  /** `t` is a prefix of `s`. */
  predicate IsPrefix(t: string, s: string) {
    |t| <= |s| && s[..|t|] == t
  }

  /** `t` occurs in `s` as a contiguous substring. */
  predicate Contains(s: string, t: string)
    decreases |s|
  {
    IsPrefix(t, s) || (s != [] && Contains(s[1..], t))
  }

  /** `s ILIKE '%q%'`: a case-insensitive substring match. Wildcard characters
      inside `q` are taken literally. */
  predicate ILike(s: string, q: string) {
    Contains(Lower(s), Lower(q))
  }

  /** Every string contains every one of its own substrings, starting at `k`. */
  lemma {:induction false} ContainsAt(s: string, t: string, k: nat)
    requires k + |t| <= |s| && s[k..k + |t|] == t
    ensures Contains(s, t)
    decreases k
  {
    if k == 0 {
      assert s[..|t|] == t;
    } else {
      assert s[1..][k - 1..k - 1 + |t|] == s[k..k + |t|];
      ContainsAt(s[1..], t, k - 1);
    }
  }

  /** A case variant of a string ILIKE-matches it. */
  lemma ILikeCaseVariant(s: string, q: string)
    requires Lower(s) == Lower(q)
    ensures ILike(s, q)
  {
    ContainsAt(Lower(s), Lower(q), 0);
  }
}
