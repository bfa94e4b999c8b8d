/** SoftBisimDistance on whole names and FitnessFunction (soft_bisim.go:240-316).
    The language-dependent ApplyPhoneticTransform that opens the distance is a
    parameter `normalize`; everything after it is the model of this project. */
module Fitness {
  import opened Costs
  import opened Text
  import opened Vowels
  import opened Bigrams
  import opened Distance
  import opened Phonetic

  /** A name as the recurrence sees it: normalised, vowel-reduced, cut into
      bigrams (soft_bisim.go:242-250). */
  function Prepare(s: string, normalize: string -> string): (r: seq<string>)
    ensures |r| == 0 || |r| < |normalize(s)|
    ensures |normalize(s)| <= 1 ==> r == []
    ensures forall k :: 0 <= k < |r| ==> |r[k]| == 2
  {
    ComputeBigrams(VowelReduction(normalize(s)))
  }

  /** Prepare as the source writes it, with the byte-level vowel reduction
      (soft_bisim.go:242-250 calling VowelReduction at soft_bisim.go:224-237).
      It gives the same bigrams whenever the normal form is empty or starts
      with an ASCII rune. */
  function PrepareAsWritten(s: string, normalize: string -> string): (r: seq<string>)
    ensures |normalize(s)| == 0 || normalize(s)[0] as int < 0x80 ==> r == Prepare(s, normalize)
  {
    var n := normalize(s);
    assert |n| == 0 || n[0] as int < 0x80 ==> VowelReductionAsWritten(n) == VowelReduction(n) by {
      if |n| == 0 || n[0] as int < 0x80 { AsWrittenAgreesOnAsciiLead(n); }
    }
    ComputeBigrams(VowelReductionAsWritten(n))
  }

  /** The distance as the source computes it, with the byte-level reduction:
      equal to the model's whenever both normal forms are empty or start with
      an ASCII rune. */
  function SoftBisimDistanceAsWritten(s1: string, s2: string, w: Weights, normalize: string -> string): (d: real)
    ensures (|normalize(s1)| == 0 || normalize(s1)[0] as int < 0x80) && (|normalize(s2)| == 0 || normalize(s2)[0] as int < 0x80)
            ==> d == SoftBisimDistance(s1, s2, w, normalize)
  {
    BigramDistance(PrepareAsWritten(s1, normalize), PrepareAsWritten(s2, normalize), w)
  }

  /** Where the two reductions differ: a one-rune normal form outside ASCII has
      no bigram under the corrected reduction, while the byte-level one turns
      "é" into the single bigram "Ã\uFFFD", whose first rune is upper case. */
  lemma OneRuneNonAsciiAsWritten(name: string, normalize: string -> string)
    requires normalize(name) == "é"
    ensures Prepare(name, normalize) == []
    ensures PrepareAsWritten(name, normalize) == [['\U{00C3}', ReplacementChar]]
    ensures IsLower(normalize(name)) && !AllLower(PrepareAsWritten(name, normalize))
  {
    var n := normalize(name);
    assert ByteLength(n) == 2 by {
      assert ByteLength(n) == Utf8Width(n[0]) + ByteLength(n[1..]);
    }
    assert Utf8LeadByte(n[0]) == 0xC3;
    var v := VowelReductionAsWritten(n);
    assert v == ['\U{00C3}', ReplacementChar];
    assert ComputeBigrams(v)[0] == v[0..2] == v;
    assert !IsLower(ComputeBigrams(v)[0]) by { assert IsUpperChar(v[0]); }
  }

  /** The Soft-Bisim distance of two names. */
  function SoftBisimDistance(s1: string, s2: string, w: Weights, normalize: string -> string): real {
    BigramDistance(Prepare(s1, normalize), Prepare(s2, normalize), w)
  }

  /** With non-negative costs the distance is non-negative; exchanging the names
      is the same as exchanging Insert and Delete; Merge, Split and
      PhoneticChange play no part. */
  lemma SoftBisimProperties(s1: string, s2: string, v: Weights, w: Weights, normalize: string -> string)
    ensures UsedCostsNonNegative(w) ==> SoftBisimDistance(s1, s2, w, normalize) >= 0.0
    ensures SoftBisimDistance(s1, s2, w, normalize) == SoftBisimDistance(s2, s1, SwapInsertDelete(w), normalize)
    ensures SameUsedCosts(v, w) ==> SoftBisimDistance(s1, s2, v, normalize) == SoftBisimDistance(s1, s2, w, normalize)
  {
    var A, B := Prepare(s1, normalize), Prepare(s2, normalize);
    if UsedCostsNonNegative(w) {
      DistNonNegative(A, B, w, |A|, |B|);
    }
    DistanceSymmetric(A, B, w);
    if SameUsedCosts(v, w) {
      DistIgnoresUnusedCosts(A, B, v, w, |A|, |B|);
    }
  }

  /** Two names with the same normal form are |bigrams| * Match apart, and so
      at distance 0 when Match is 0. */
  lemma SameNormalForm(s1: string, s2: string, w: Weights, normalize: string -> string)
    requires normalize(s1) == normalize(s2)
    ensures SoftBisimDistance(s1, s2, w, normalize) == |Prepare(s1, normalize)| as real * w.Match
    ensures w.Match == 0.0 ==> SoftBisimDistance(s1, s2, w, normalize) == 0.0
  {
    IdenticalDistance(Prepare(s1, normalize), w);
  }

  /** A name whose normal form has at most one rune has no bigrams: against
      another such name the distance is 0, against any other name it is pure
      insertion. */
  lemma ShortNormalForm(s1: string, s2: string, w: Weights, normalize: string -> string)
    requires |normalize(s1)| <= 1
    ensures SoftBisimDistance(s1, s2, w, normalize) == |Prepare(s2, normalize)| as real * w.Insert
    ensures |normalize(s2)| <= 1 ==> SoftBisimDistance(s1, s2, w, normalize) == 0.0
  {
    Boundary([], Prepare(s2, normalize), w);
  }

  /** A lower-case normal form gives lower-case bigrams. */
  lemma PrepareLower(s: string, normalize: string -> string)
    requires IsLower(normalize(s))
    ensures AllLower(Prepare(s, normalize))
  {
    var v := VowelReduction(normalize(s));
    SubsequenceKeeps(v, normalize(s));
    assert IsLower(v);
    var r := Prepare(s, normalize);
    forall k | 0 <= k < |r|
      ensures IsLower(r[k])
    {
      assert r[k] == v[k..k + 2];
    }
  }

  /** When both names normalise to lower case, as every path of the source's
      normalisation except the Hebrew one does, the CaseChange coefficient
      never affects the distance. */
  lemma CaseChangeUnusedOnLowerForms(s1: string, s2: string, w: Weights, c: real, normalize: string -> string)
    requires IsLower(normalize(s1)) && IsLower(normalize(s2))
    ensures SoftBisimDistance(s1, s2, w, normalize) == SoftBisimDistance(s1, s2, w.(CaseChange := c), normalize)
  {
    var A, B := Prepare(s1, normalize), Prepare(s2, normalize);
    PrepareLower(s1, normalize);
    PrepareLower(s2, normalize);
    DistIgnoresCaseChange(A, B, w, c, |A|, |B|);
  }

  /** In particular under the generic phonetic transform. */
  lemma CaseChangeUnusedByGenericTransform(s1: string, s2: string, w: Weights, c: real)
    ensures SoftBisimDistance(s1, s2, w, PhoneticTransform) == SoftBisimDistance(s1, s2, w.(CaseChange := c), PhoneticTransform)
  {
    CaseChangeUnusedOnLowerForms(s1, s2, w, c, PhoneticTransform);
  }

  /** The larger rune count of two names (soft_bisim.go:306-311). */
  function MaxRuneLength(a: string, b: string): (n: nat)
    ensures n >= |a| && n >= |b|
    ensures n == |a| || n == |b|
  {
    if |b| > |a| then |b| else |a|
  }

  /** The similarity of one pair: 1 - distance / larger rune count of the
      original, un-normalised names (soft_bisim.go:303-313). */
  function Similarity(name1: string, name2: string, w: Weights, normalize: string -> string): real
    requires |name1| > 0 || |name2| > 0
  {
    1.0 - SoftBisimDistance(name1, name2, w, normalize) / MaxRuneLength(name1, name2) as real
  }

  /** With non-negative costs a similarity is at most 1, and it is exactly 1 for
      two names with the same normal form when Match is 0. */
  lemma SimilarityBounds(name1: string, name2: string, w: Weights, normalize: string -> string)
    requires |name1| > 0 || |name2| > 0
    ensures UsedCostsNonNegative(w) ==> Similarity(name1, name2, w, normalize) <= 1.0
    ensures normalize(name1) == normalize(name2) && w.Match == 0.0 ==> Similarity(name1, name2, w, normalize) == 1.0
  {
    var d, n := SoftBisimDistance(name1, name2, w, normalize), MaxRuneLength(name1, name2) as real;
    SoftBisimProperties(name1, name2, w, w, normalize);
    if normalize(name1) == normalize(name2) {
      SameNormalForm(name1, name2, w, normalize);
    }
    RatioFacts(d, n);
  }

  lemma RatioFacts(d: real, n: real)
    requires n > 0.0
    ensures d >= 0.0 ==> 1.0 - d / n <= 1.0
    ensures d == 0.0 ==> 1.0 - d / n == 1.0
  {
  }

  /** Every pair has at least one non-empty name, so its similarity is defined. */
  predicate PairsDefined(data: seq<(string, string)>) {
    forall k :: 0 <= k < |data| ==> |data[k].0| > 0 || |data[k].1| > 0
  }

  /** The similarity of every pair, in order. */
  function Similarities(data: seq<(string, string)>, w: Weights, normalize: string -> string): (r: seq<real>)
    requires PairsDefined(data)
    ensures |r| == |data|
  {
    seq(|data|, k requires 0 <= k < |data| => Similarity(data[k].0, data[k].1, w, normalize))
  }

  /** The running total of the source's loop: the values added left to right. */
  function Sum(xs: seq<real>): real {
    if |xs| == 0 then 0.0 else Sum(xs[..|xs| - 1]) + xs[|xs| - 1]
  }

  /** The mean similarity over the pairs (soft_bisim.go:300-316). Defined only for
      non-empty data whose every pair has a non-empty name. */
  function FitnessFunction(data: seq<(string, string)>, w: Weights, normalize: string -> string): real
    requires |data| > 0 && PairsDefined(data)
  {
    var xs := Similarities(data, w, normalize);
    Sum(xs) / |xs| as real
  }

  lemma {:induction false} SumAtMost(xs: seq<real>, hi: real)
    requires forall k :: 0 <= k < |xs| ==> xs[k] <= hi
    ensures Sum(xs) <= |xs| as real * hi
  {
    if |xs| > 0 {
      SumAtMost(xs[..|xs| - 1], hi);
      ScaleStep(|xs| - 1, hi);
    }
  }

  lemma {:induction false} SumAtLeast(xs: seq<real>, lo: real)
    requires forall k :: 0 <= k < |xs| ==> lo <= xs[k]
    ensures |xs| as real * lo <= Sum(xs)
  {
    if |xs| > 0 {
      SumAtLeast(xs[..|xs| - 1], lo);
      ScaleStep(|xs| - 1, lo);
    }
  }

  lemma MeanAtMost(total: real, n: nat, hi: real)
    requires n > 0 && total <= n as real * hi
    ensures total / n as real <= hi
  {
  }

  lemma MeanAtLeast(total: real, n: nat, lo: real)
    requires n > 0 && n as real * lo <= total
    ensures lo <= total / n as real
  {
  }

  /** The mean of values between lo and hi lies between lo and hi. */
  lemma MeanOfBounded(xs: seq<real>, lo: real, hi: real)
    requires |xs| > 0
    requires forall k :: 0 <= k < |xs| ==> lo <= xs[k] <= hi
    ensures lo <= Sum(xs) / |xs| as real <= hi
  {
    SumAtMost(xs, hi);
    SumAtLeast(xs, lo);
    MeanAtMost(Sum(xs), |xs|, hi);
    MeanAtLeast(Sum(xs), |xs|, lo);
  }

  /** The fitness lies between any lower and upper bound of its pairs'
      similarities. */
  lemma FitnessBounds(data: seq<(string, string)>, w: Weights, normalize: string -> string, lo: real, hi: real)
    requires |data| > 0 && PairsDefined(data)
    requires forall k :: 0 <= k < |data| ==> lo <= Similarity(data[k].0, data[k].1, w, normalize) <= hi
    ensures lo <= FitnessFunction(data, w, normalize) <= hi
  {
    MeanOfBounded(Similarities(data, w, normalize), lo, hi);
  }

  /** With non-negative costs the fitness is at most 1. */
  lemma FitnessAtMostOne(data: seq<(string, string)>, w: Weights, normalize: string -> string)
    requires |data| > 0 && PairsDefined(data) && UsedCostsNonNegative(w)
    ensures FitnessFunction(data, w, normalize) <= 1.0
  {
    var xs := Similarities(data, w, normalize);
    forall k | 0 <= k < |data|
      ensures xs[k] <= 1.0
    {
      SimilarityBounds(data[k].0, data[k].1, w, normalize);
    }
    MeanOfAtMost(xs, 1.0);
  }

  lemma MeanOfAtMost(xs: seq<real>, hi: real)
    requires |xs| > 0
    requires forall k :: 0 <= k < |xs| ==> xs[k] <= hi
    ensures Sum(xs) / |xs| as real <= hi
  {
    SumAtMost(xs, hi);
    MeanAtMost(Sum(xs), |xs|, hi);
  }

  /** The fitness is exactly 1 when Match is 0 and the names of every pair share
      their normal form. */
  lemma FitnessPerfect(data: seq<(string, string)>, w: Weights, normalize: string -> string)
    requires |data| > 0 && PairsDefined(data) && w.Match == 0.0
    requires forall k :: 0 <= k < |data| ==> normalize(data[k].0) == normalize(data[k].1)
    ensures FitnessFunction(data, w, normalize) == 1.0
  {
    forall k | 0 <= k < |data|
      ensures Similarity(data[k].0, data[k].1, w, normalize) == 1.0
    {
      SimilarityBounds(data[k].0, data[k].1, w, normalize);
    }
    FitnessBounds(data, w, normalize, 1.0, 1.0);
  }

  /** Cost records that agree on the six coefficients the recurrence reads have
      the same fitness: Merge, Split and PhoneticChange do not steer the search. */
  lemma FitnessIgnoresUnusedCosts(data: seq<(string, string)>, v: Weights, w: Weights, normalize: string -> string)
    requires |data| > 0 && PairsDefined(data) && SameUsedCosts(v, w)
    ensures FitnessFunction(data, v, normalize) == FitnessFunction(data, w, normalize)
  {
    forall k | 0 <= k < |data|
      ensures Similarity(data[k].0, data[k].1, v, normalize) == Similarity(data[k].0, data[k].1, w, normalize)
    {
      SoftBisimProperties(data[k].0, data[k].1, v, w, normalize);
    }
    assert Similarities(data, v, normalize) == Similarities(data, w, normalize);
  }

  /** Adding the next value to the running total. */
  lemma SumStep(xs: seq<real>, k: nat)
    requires k < |xs|
    ensures Sum(xs[..k + 1]) == Sum(xs[..k]) + xs[k]
  {
    assert xs[..k + 1][..k] == xs[..k];
  }

  /** The loop body for one pair (soft_bisim.go:303-313): the distance divided
      by the larger rune count, subtracted from 1. */
  method PairSimilarity(name1: string, name2: string, w: Weights, normalize: string -> string) returns (similarity: real)
    requires |name1| > 0 || |name2| > 0
    ensures similarity == Similarity(name1, name2, w, normalize)
  {
    var distance := SoftBisimDistance(name1, name2, w, normalize);
    var len1, len2 := |name1|, |name2|;
    var maxLen := len1 as real;
    if len2 > len1 {
      maxLen := len2 as real;
    }
    similarity := 1.0 - distance / maxLen;
  }

  /** The source's loop: the running total over the pairs in order, divided by
      their number. */
  method ComputeFitness(data: seq<(string, string)>, w: Weights, normalize: string -> string) returns (f: real)
    requires |data| > 0 && PairsDefined(data)
    ensures f == FitnessFunction(data, w, normalize)
  {
    ghost var xs := Similarities(data, w, normalize);
    var totalScore := 0.0;
    var k := 0;
    while k < |data|
      invariant 0 <= k <= |data|
      invariant totalScore == Sum(xs[..k])
    {
      var similarity := PairSimilarity(data[k].0, data[k].1, w, normalize);
      SumStep(xs, k);
      totalScore := totalScore + similarity;
      k := k + 1;
    }
    assert xs[..k] == xs;
    assert |xs| == |data|;
    f := totalScore / |data| as real;
  }
}
