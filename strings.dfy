/**
 * The JavaScript string primitives the library relies on: `indexOf`, `replace` with a
 * string pattern, and prefix tests, over `seq<char>`.
 */
module Strings {

  /** `pat` occurs in `s` starting at index `i`. */
  predicate MatchesAt(s: string, pat: string, i: int)
  {
    0 <= i && i + |pat| <= |s| && s[i..i + |pat|] == pat
  }

  /** `pat` occurs somewhere in `s`. */
  ghost predicate Contains(s: string, pat: string)
  {
    exists i :: MatchesAt(s, pat, i)
  }

  /** The first occurrence of `pat` in `s` at or after `k`, or -1. */
  function IndexFrom(s: string, pat: string, k: nat): (r: int)
    decreases |s| - k
    ensures r == -1 || (k <= r && MatchesAt(s, pat, r))
    ensures r == -1 ==> forall i :: k <= i ==> !MatchesAt(s, pat, i)
    ensures r != -1 ==> forall i :: k <= i < r ==> !MatchesAt(s, pat, i)
  {
    if k + |pat| > |s| then -1
    else if s[k..k + |pat|] == pat then k
    else IndexFrom(s, pat, k + 1)
  }

  /** JavaScript's `s.indexOf(pat)`: the index of the first occurrence, or -1 when there is none. */
  function IndexOf(s: string, pat: string): (r: int)
    ensures r == -1 <==> !Contains(s, pat)
    ensures r != -1 ==> MatchesAt(s, pat, r) && forall i :: 0 <= i < r ==> !MatchesAt(s, pat, i)
  {
    IndexFrom(s, pat, 0)
  }

  /**
   * JavaScript's `s.replace(pat, rep)` with a string pattern: only the first occurrence is
   * replaced, and `s` is returned unchanged when `pat` does not occur. The replacement is
   * taken literally.
   */
  function ReplaceFirst(s: string, pat: string, rep: string): (r: string)
    ensures !Contains(s, pat) ==> r == s
    ensures Contains(s, pat) ==> |r| == |s| - |pat| + |rep|
  {
    var i := IndexOf(s, pat);
    if i == -1 then s else s[..i] + rep + s[i + |pat|..]
  }

  /** `s` begins with `p` (JavaScript's `s.slice(0, |p|) === p`). */
  predicate StartsWith(s: string, p: string)
  {
    |p| <= |s| && s[..|p|] == p
  }

  /** A string ending in `pat` contains it. */
  lemma ContainsSuffix(s: string, pat: string)
    ensures Contains(s + pat, pat)
  {
    assert (s + pat)[|s|..|s| + |pat|] == pat;
    assert MatchesAt(s + pat, pat, |s|);
  }

  /** When the first character of `pat` does not occur where a match could start, `pat` does not occur. */
  lemma {:induction false} AbsentWithoutFirstChar(s: string, pat: string)
    requires |pat| > 0
    requires forall i :: 0 <= i <= |s| - |pat| ==> s[i] != pat[0]
    ensures !Contains(s, pat)
  {
    forall i | 0 <= i <= |s| - |pat|
      ensures !MatchesAt(s, pat, i)
    {
      assert s[i..i + |pat|][0] == s[i];
    }
  }

  /**
   * When the first character of `pat` does not occur in `p`, the first occurrence of `pat`
   * in `p + pat + q` is right after `p`, so `replace` substitutes exactly there.
   */
  lemma {:induction false} ReplaceAfterPrefix(p: string, pat: string, q: string, rep: string)
    requires |pat| > 0 && pat[0] !in p
    ensures IndexOf(p + pat + q, pat) == |p|
    ensures ReplaceFirst(p + pat + q, pat, rep) == p + rep + q
  {
    var s := p + pat + q;
    assert s[|p|..|p| + |pat|] == pat;
    assert MatchesAt(s, pat, |p|);
    forall i | 0 <= i < |p|
      ensures !MatchesAt(s, pat, i)
    {
      if i + |pat| <= |s| {
        assert s[i..i + |pat|][0] == s[i] == p[i];
      }
    }
    var k := IndexOf(s, pat);
    assert k == |p|;
    assert s[..k] == p;
    assert s[k + |pat|..] == q;
  }
}
