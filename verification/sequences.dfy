/** Small facts about sequence slices, kept apart so that the proofs that
    use them see only the one equation they need. */
module Sequences {
  /** Taking the whole length gives the sequence back. */
  lemma TakeWhole<T>(s: seq<T>, i: int)
    requires i == |s|
    ensures s[..i] == s
  {
  }

  /** Taking one more element appends it. */
  lemma TakeOneMore<T>(s: seq<T>, i: int)
    requires 0 <= i < |s|
    ensures s[..i + 1] == s[..i] + [s[i]]
  {
  }

  /** Two adjacent slices from the start make one. */
  lemma SliceConcat<T>(s: seq<T>, a: int, b: int)
    requires 0 <= a <= b <= |s|
    ensures s[..a] + s[a..b] == s[..b]
  {
  }

  /** An element of the right part is an element of the whole. */
  lemma InRightPart<T>(a: seq<T>, b: seq<T>, x: T)
    requires x in b
    ensures x in a + b
  {
    var k :| 0 <= k < |b| && b[k] == x;
    assert (a + b)[|a| + k] == x;
  }

  /** An element of a non-empty sequence satisfies `P` exactly when one of
      the elements before the last does or the last one does. */
  lemma ExistsSplit<T>(s: seq<T>, init: seq<T>, P: T -> bool)
    requires s != [] && init == s[..|s| - 1]
    ensures (exists i | 0 <= i < |s| :: P(s[i]))
        <==> (exists i | 0 <= i < |init| :: P(init[i])) || P(s[|s| - 1])
  {
    if exists i | 0 <= i < |s| :: P(s[i]) {
      var i :| 0 <= i < |s| && P(s[i]);
      if i < |s| - 1 {
        assert init[i] == s[i];
      }
    }
    if exists i | 0 <= i < |init| :: P(init[i]) {
      var i :| 0 <= i < |s| - 1 && P(init[i]);
      assert init[i] == s[i];
    }
  }

  /** A prefix of `s` that splits as `p + g` puts `p` first and `g` right after it. */
  lemma PrefixSplit<T>(s: seq<T>, p: seq<T>, g: seq<T>)
    requires |p| + |g| <= |s| && s[..|p| + |g|] == p + g
    ensures s[..|p|] == p && s[|p|..|p| + |g|] == g
  {
    assert s[..|p|] == (p + g)[..|p|];
    assert s[|p|..|p| + |g|] == (p + g)[|p|..];
  }
}
