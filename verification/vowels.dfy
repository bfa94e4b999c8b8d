/** VowelReduction (phonetic.go:43-56, repeated in soft_bisim.go:224-237): keep
    the first character and drop every later 'a', 'e', 'i', 'o', 'u'. */
module Vowels {
  import opened Text
  import opened Replacer

  predicate IsVowel(c: char) {
    c == 'a' || c == 'e' || c == 'i' || c == 'o' || c == 'u'
  }

  predicate NotVowel(c: char) { !IsVowel(c) }

  /** No character of s is a vowel. */
  predicate VowelFree(s: string) {
    All(s, NotVowel)
  }

  /** a can be obtained from b by deleting characters. */
  predicate IsSubsequence(a: string, b: string)
    decreases |b|
  {
    if |a| == 0 then true
    else if |b| == 0 then false
    else if a[0] == b[0] then IsSubsequence(a[1..], b[1..])
    else IsSubsequence(a, b[1..])
  }

  /** Every character of a subsequence occurs in the original. */
  lemma {:induction false} SubsequenceKeeps(a: string, b: string)
    requires IsSubsequence(a, b)
    ensures forall k :: 0 <= k < |a| ==> a[k] in b
    decreases |b|
  {
    if |a| > 0 && |b| > 0 {
      if a[0] == b[0] {
        SubsequenceKeeps(a[1..], b[1..]);
        forall k | 0 <= k < |a| ensures a[k] in b {
          if k > 0 { assert a[k] == a[1..][k - 1]; assert a[1..][k - 1] in b[1..]; }
        }
      } else {
        SubsequenceKeeps(a, b[1..]);
      }
    }
  }

  /** The loop over s[1:] of VowelReduction: every non-vowel, in order. */
  function DropVowels(s: string): (r: string)
    ensures |r| <= |s|
    ensures VowelFree(r)
    ensures IsSubsequence(r, s)
    ensures forall c :: !IsVowel(c) ==> multiset(r)[c] == multiset(s)[c]
    ensures VowelFree(s) ==> r == s
  {
    if |s| == 0 then []
    else
      var rest := DropVowels(s[1..]);
      DropVowelsStep(s, rest);
      if IsVowel(s[0]) then rest else [s[0]] + rest
  }

  /** One step of the loop: the properties of the result for s[1..] carry over
      to s, whether s[0] is dropped or kept. */
  lemma DropVowelsStep(s: string, rest: string)
    requires |s| > 0
    requires |rest| <= |s| - 1 && VowelFree(rest) && IsSubsequence(rest, s[1..])
    requires forall c :: !IsVowel(c) ==> multiset(rest)[c] == multiset(s[1..])[c]
    requires VowelFree(s[1..]) ==> rest == s[1..]
    ensures var r := if IsVowel(s[0]) then rest else [s[0]] + rest;
      && |r| <= |s| && VowelFree(r) && IsSubsequence(r, s)
      && (forall c :: !IsVowel(c) ==> multiset(r)[c] == multiset(s)[c])
      && (VowelFree(s) ==> r == s)
  {
    assert s == [s[0]] + s[1..];
    assert multiset(s) == multiset([s[0]]) + multiset(s[1..]);
    if IsVowel(s[0]) {
      assert |rest| > 0 ==> rest[0] != s[0];
    } else {
      var r := [s[0]] + rest;
      assert r[0] == s[0] && r[1..] == rest;
      assert multiset(r) == multiset([s[0]]) + multiset(rest);
      if VowelFree(s) {
        assert VowelFree(s[1..]) by {
          forall k | 0 <= k < |s[1..]| ensures !IsVowel(s[1..][k]) { assert s[1..][k] == s[k + 1]; }
        }
      }
    }
  }

  /** VowelReduction on runes: the first rune is kept whole. The rest of the
      model uses this definition (see VowelReductionAsWritten for Go's bytes). */
  function VowelReduction(s: string): (r: string)
    ensures |s| <= 1 ==> r == s
    ensures |s| > 0 ==> |r| > 0 && r[0] == s[0]
    ensures |r| <= |s|
    ensures IsSubsequence(r, s)
    ensures |s| > 0 ==> IsSubsequence(r[1..], s[1..])
    ensures |s| > 0 ==> VowelFree(r[1..])
    ensures |s| > 0 ==> forall c :: !IsVowel(c) ==> multiset(r[1..])[c] == multiset(s[1..])[c]
  {
    if |s| <= 1 then s
    else
      var r := [s[0]] + DropVowels(s[1..]);
      assert r[1..] == DropVowels(s[1..]);
      r
  }

  /** Applying VowelReduction to its own output changes nothing. */
  lemma VowelReductionIdempotent(s: string)
    ensures VowelReduction(VowelReduction(s)) == VowelReduction(s)
  {
    var r := VowelReduction(s);
    if |r| > 1 {
      assert r == [r[0]] + r[1..];
    }
  }

  const ReplacementChar: char := '\U{FFFD}'

  /** VowelReduction exactly as Go executes it on the UTF-8 bytes of s: the
      length test counts bytes, string(s[0]) turns the first BYTE into the rune
      with that code point, and ranging over s[1:] decodes each leftover
      continuation byte of the first rune as U+FFFD. */
  function VowelReductionAsWritten(s: string): (r: string)
    ensures ByteLength(s) <= 1 ==> r == s
    ensures ByteLength(s) > 1 ==> |s| > 0 && |r| == Utf8Width(s[0]) + |DropVowels(s[1..])|
  {
    if ByteLength(s) > 1 then
      [Utf8LeadByte(s[0]) as char] + seq(Utf8Width(s[0]) - 1, _ => ReplacementChar) + DropVowels(s[1..])
    else s
  }

  /** When the first rune is ASCII (or s is empty) the byte-level code and the
      rune-level definition agree. */
  lemma AsWrittenAgreesOnAsciiLead(s: string)
    requires |s| == 0 || s[0] as int < 0x80
    ensures VowelReductionAsWritten(s) == VowelReduction(s)
  {
    if |s| >= 2 {
      assert ByteLength(s) >= 2;
      assert seq(Utf8Width(s[0]) - 1, _ => ReplacementChar) == [];
    } else if |s| == 1 {
      assert ByteLength(s) == Utf8Width(s[0]) + ByteLength(s[1..]);
    }
  }

  /** The same agreement, read off the corrected result: when the reduced
      name is empty or starts with an ASCII rune, the byte-level code gives it. */
  lemma AsWrittenAgreesOnAsciiResult(s: string)
    ensures var n := VowelReduction(s); |n| == 0 || n[0] as int < 0x80 ==> VowelReductionAsWritten(s) == n
  {
    if |s| == 0 || s[0] as int < 0x80 {
      AsWrittenAgreesOnAsciiLead(s);
    }
  }

  /** A name starting with a two-byte rune is mangled: "да" (Cyrillic) comes out
      as U+00D0, U+FFFD, 'а' instead of being returned unchanged. */
  lemma AsWrittenManglesMultiByteLead()
    ensures VowelReductionAsWritten("да") == ['\U{00D0}', ReplacementChar, 'а']
    ensures VowelReduction("да") == "да"
    ensures VowelReductionAsWritten("да") != VowelReduction("да")
  {
    var s := "да";
    assert ByteLength(s) == 4 by {
      assert ByteLength(s[1..]) == Utf8Width(s[1]) + ByteLength(s[2..]);
    }
    assert Utf8LeadByte(s[0]) == 0xD0;
    assert DropVowels(s[1..]) == s[1..] by { assert VowelFree(s[1..]); }
  }
}
