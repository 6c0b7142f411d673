/** Substring tests on strings, as sequences of characters. */
module Strings {

  /** `s.startswith(p)`. */
  predicate StartsWith(s: string, p: string) {
    |p| <= |s| && s[..|p|] == p
  }

  /** `p` occurs in `s` at index `i`. */
  predicate HasAt(s: string, i: nat, p: string) {
    i + |p| <= |s| && s[i..i + |p|] == p
  }

  /** An occurrence of `a + b` is an occurrence of `a` followed by one of `b`, and conversely. */
  lemma HasAtConcat(s: string, i: nat, a: string, b: string)
    ensures HasAt(s, i, a + b) <==> HasAt(s, i, a) && HasAt(s, i + |a|, b)
  {
    if HasAt(s, i, a) && HasAt(s, i + |a|, b) {
      assert s[i..i + |a + b|] == s[i..i + |a|] + s[i + |a|..i + |a| + |b|];
    }
    if HasAt(s, i, a + b) {
      assert s[i..i + |a|] == s[i..i + |a + b|][..|a|];
      assert s[i + |a|..i + |a| + |b|] == s[i..i + |a + b|][|a|..];
    }
  }

  /** Each character of an occurrence is the pattern's character. */
  lemma HasAtChar(s: string, i: nat, p: string, k: nat)
    requires HasAt(s, i, p) && k < |p|
    ensures s[i + k] == p[k]
  {
    assert s[i..i + |p|][k] == s[i + k];
  }
}
