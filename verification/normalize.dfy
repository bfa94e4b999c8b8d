/** ApplyPhoneticSimilarity (phonetic.go:75-86): transliterate, then the
    phonetic rewrite, then vowel reduction. */
module Normalize {
  import opened Text
  import opened Replacer
  import opened Phonetic
  import opened Vowels
  import opened Transliteration

  /** The normalised name contains no 'h', no upper-case letter and no vowel
      after its first character, and is no longer than the transliterated name. */
  function ApplyPhoneticSimilarity(name: string): (r: string)
    ensures 'h' !in r
    ensures IsLower(r)
    ensures |r| > 0 ==> VowelFree(r[1..])
    ensures |r| <= |TransliterateNonLatin(name)|
  {
    var latin := TransliterateNonLatin(name);
    var phonetic := PhoneticTransform(latin);
    var r := VowelReduction(phonetic);
    SubsequenceKeeps(r, phonetic);
    r
  }

  /** ApplyPhoneticSimilarity as the composition of its three stages, given the result of each. */
  lemma ApplyPhoneticSimilarityStages(name: string, latin: string, phonetic: string, r: string)
    requires TransliterateNonLatin(name) == latin
    requires PhoneticTransform(latin) == phonetic
    requires VowelReduction(phonetic) == r
    ensures ApplyPhoneticSimilarity(name) == r
  {
  }

  /** ApplyPhoneticSimilarity as the source writes it, with the byte-level vowel
      reduction. It gives the same normal form whenever that form is empty or
      starts with an ASCII rune; otherwise the first rune becomes the Latin-1
      rune of its lead byte, followed by one U+FFFD per continuation byte. */
  function ApplyPhoneticSimilarityAsWritten(name: string): (r: string)
    ensures var n := ApplyPhoneticSimilarity(name); |n| == 0 || n[0] as int < 0x80 ==> r == n
  {
    var phonetic := PhoneticTransform(TransliterateNonLatin(name));
    AsWrittenAgreesOnAsciiResult(phonetic);
    VowelReductionAsWritten(phonetic)
  }

  /** Transliteration runs before lower-casing, so an upper-case Cyrillic letter
      is lower-cased by PhoneticTransform but never mapped: "aШ" normalises to
      "aш", while "aш" normalises to "as". The byte-level reduction of the
      source gives the same, since both forms start with an ASCII rune. */
  lemma UpperCyrillicNotTransliterated()
    ensures ApplyPhoneticSimilarity("aШ") == "aш"
    ensures ApplyPhoneticSimilarity("aш") == "as"
    ensures ApplyPhoneticSimilarityAsWritten("aШ") == "aш"
    ensures ApplyPhoneticSimilarityAsWritten("aш") == "as"
  {
    var upper, lower := "aШ", "aш";
    UpperShaSteps(upper, lower);
    ApplyPhoneticSimilarityStages(upper, upper, lower, lower);
    LowerShaSteps(lower, "ash");
    ApplyPhoneticSimilarityStages(lower, "ash", "as", "as");
  }

  lemma UpperShaSteps(upper: string, lower: string)
    requires upper == "aШ" && lower == "aш"
    ensures TransliterateNonLatin(upper) == upper
    ensures PhoneticTransform(upper) == lower
    ensures VowelReduction(lower) == lower
  {
    assert forall k :: 0 <= k < |upper| ==> upper[k] !in CyrillicToLatin;
    UpperShaPhonetic(upper, lower);
    KeepsSha(lower);
  }

  lemma UpperShaPhonetic(upper: string, lower: string)
    requires upper == "aШ" && lower == "aш"
    ensures PhoneticTransform(upper) == lower
  {
    assert Lower(upper) == lower;
    NothingMatchesASha(lower);
    assert RemoveH(lower) == lower;
    CollapseUnchanged(lower, DoubleLetters);
    PhoneticTransformStages(upper, lower, lower, lower, lower);
  }

  lemma NothingMatchesASha(s: string)
    requires s == "aш"
    ensures Replace(GenericRules, s) == s
  {
    GenericRulesLower();
    ReplaceAbsent(GenericRules, s);
  }

  /** The vowel-free tail of "aш" and "as" is kept. */
  lemma KeepsSha(s: string)
    requires s == "aш" || s == "as"
    ensures VowelReduction(s) == s
  {
    assert VowelFree(s[1..]);
  }

  lemma LowerShaSteps(lower: string, latin: string)
    requires lower == "aш" && latin == "ash"
    ensures TransliterateNonLatin(lower) == latin
    ensures PhoneticTransform(latin) == "as"
    ensures VowelReduction("as") == "as"
  {
    TransliterateSha(lower, latin);
    AshBecomesAs(latin);
    KeepsSha("as");
  }

  lemma TransliterateSha(lower: string, latin: string)
    requires lower == "aш" && latin == "ash"
    ensures TransliterateNonLatin(lower) == latin
  {
    assert lower == "a" + "ш";
    TransliteratePerCharacter("a", "ш", 'a');
    TransliteratePerCharacter("ш", "", 'ш');
  }

  lemma AshBecomesAs(latin: string)
    requires latin == "ash"
    ensures PhoneticTransform(latin) == "as"
  {
    assert Lower(latin) == latin;
    AshReplaced(latin);
    AsUnchanged("as");
    PhoneticTransformStages(latin, latin, "as", "as", "as");
  }

  lemma AsUnchanged(s: string)
    requires s == "as"
    ensures RemoveH(s) == s
    ensures CollapseDoubles(s, DoubleLetters) == s
  {
    CollapseUnchanged(s, DoubleLetters);
  }

  lemma AshReplaced(s: string)
    requires s == "ash"
    ensures Replace(GenericRules, s) == "as"
  {
    GenericRulesLower();
    GenericRuleHeads();
    forall j | 0 <= j < |GenericRules| ensures !IsPrefix(GenericRules[j].from, s) {
      NotPrefixAt(GenericRules[j].from, s, 0);
    }
    ReplaceCopies(GenericRules, s);
    assert s[1..] == "sh";
    SchReplacedToS(s[1..]);
  }

  lemma SchReplacedToS(s: string)
    requires s == "sh"
    ensures Replace(GenericRules, s) == "s"
  {
    GenericRulesLower();
    ShRuleIsFirstForSh(s);
    ReplaceRewrites(GenericRules, s, 6);
    assert GenericRules[6] == Rule("sh", "s");
    assert s[2..] == [];
  }

  lemma ShRuleIsFirstForSh(s: string)
    requires s == "sh"
    ensures FirstMatch(GenericRules, s) == Some(6)
  {
    GenericRuleHeads();
    forall j | 0 <= j < 6 ensures !IsPrefix(GenericRules[j].from, s) {
      if j == 3 {
        NotPrefixAt(GenericRules[j].from, s, 1);
      } else {
        NotPrefixAt(GenericRules[j].from, s, 0);
      }
    }
    FirstMatchIs(GenericRules, s, 6);
  }
}
