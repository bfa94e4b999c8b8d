/** ComputeBigrams (soft_bisim.go:11-19): the sliding two-rune window. */
module Bigrams {

  /** A string of L runes gives max(L-1, 0) bigrams; bigram k is runes k and k+1. */
  function ComputeBigrams(s: string): (r: seq<string>)
    ensures |r| == if |s| < 2 then 0 else |s| - 1
    ensures forall k :: 0 <= k < |r| ==> r[k] == s[k..k + 2]
    decreases |s|
  {
    if |s| < 2 then []
    else
      var rest := ComputeBigrams(s[1..]);
      var r := [s[..2]] + rest;
      assert forall k :: 1 <= k < |r| ==> r[k] == rest[k - 1] == s[1..][k - 1..k + 1] == s[k..k + 2];
      r
  }

  /** The string a bigram sequence overlaps into: the first rune of the first
      bigram, then the second rune of each. */
  function Join(r: seq<string>): string
    requires |r| > 0 && forall k :: 0 <= k < |r| ==> |r[k]| == 2
  {
    [r[0][0]] + seq(|r|, k requires 0 <= k < |r| => r[k][1])
  }

  /** The bigrams of a string of two or more runes give the string back. */
  lemma JoinComputeBigrams(s: string)
    requires |s| >= 2
    ensures Join(ComputeBigrams(s)) == s
  {
    var r := ComputeBigrams(s);
    var t := Join(r);
    assert |t| == |s|;
    forall k | 0 <= k < |s|
      ensures t[k] == s[k]
    {
      if k > 0 {
        assert t[k] == r[k - 1][1] == s[k - 1..k + 1][1];
      }
    }
  }
}
