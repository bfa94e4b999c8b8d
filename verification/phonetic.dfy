/** The language-independent phonetic rewrite (PhoneticTransform in phonetic.go,
    identical to GenericPhoneticTransform in soft_bisim.go): lower-case, one
    replacer pass, removal of every 'h', then one ReplaceAll per double letter. */
module Phonetic {
  import opened Text
  import opened Replacer

  /** The strings.NewReplacer arguments, in argument order. */
  const GenericRules: seq<Rule> := [
    Rule("ph", "f"), Rule("ck", "k"), Rule("gh", "g"), Rule("sch", "sh"),
    Rule("ch", "k"), Rule("th", "t"), Rule("sh", "s"), Rule("cz", "c"),
    Rule("qu", "k"), Rule("gn", "n"), Rule("wr", "r"), Rule("kn", "n"),
    Rule("wh", "w"), Rule("dg", "g")
  ]

  /** The letters whose doubling is collapsed, in loop order: tt, ll, ss, pp, rr, mm. */
  const DoubleLetters: string := "tlsprm"

  predicate NotUpperNorH(c: char) { c != 'h' && !IsUpperChar(c) }

  lemma GenericRulesLower()
    ensures WellFormed(GenericRules) && Shrinking(GenericRules)
    ensures forall k :: 0 <= k < |GenericRules| ==> IsLower(GenericRules[k].to)
  {
  }

  /** strings.ReplaceAll(s, "h", ""): drops every 'h' and keeps everything else in order. */
  function RemoveH(s: string): (r: string)
    ensures r == MapChar(s, 'h', "")
    ensures 'h' !in r
    ensures |r| <= |s|
    ensures 'h' !in s ==> r == s
  {
    ReplaceAllSingleChar(s, 'h', "");
    MapCharRemoves(s, 'h', "");
    ReplaceShrinks([Rule("h", "")], s);
    assert 'h' !in s ==> MapChar(s, 'h', "") == s by {
      if 'h' !in s { MapCharAbsent(s, 'h', ""); }
    }
    ReplaceAll(s, "h", "")
  }

  /** The double-letter loop: for each letter l in turn, strings.ReplaceAll(s, ll, l). */
  function CollapseDoubles(s: string, letters: string): string
    decreases |letters|
  {
    if |letters| == 0 then s
    else CollapseDoubles(ReplaceAll(s, [letters[0], letters[0]], [letters[0]]), letters[1..])
  }

  lemma {:induction false} CollapsePreserves(s: string, letters: string, P: char -> bool)
    requires All(s, P)
    requires All(letters, P)
    ensures All(CollapseDoubles(s, letters), P)
    ensures |CollapseDoubles(s, letters)| <= |s|
    decreases |letters|
  {
    if |letters| > 0 {
      var l := letters[0];
      var rules := [Rule([l, l], [l])];
      assert All(rules[0].to, P);
      ReplacePreserves(rules, s, P);
      ReplaceShrinks(rules, s);
      assert All(letters[1..], P) by {
        forall k | 0 <= k < |letters[1..]| ensures P(letters[1..][k]) { assert letters[1..][k] == letters[k + 1]; }
      }
      CollapsePreserves(ReplaceAll(s, [l, l], [l]), letters[1..], P);
    }
  }

  /** PhoneticTransform (phonetic.go:8-40). Its output contains no 'h' and no
      upper-case letter, and is never longer than its input. */
  function PhoneticTransform(s: string): (r: string)
    ensures 'h' !in r
    ensures IsLower(r)
    ensures |r| <= |s|
  {
    var lowered := Lower(s);
    var replaced := Replace(GenericRules, lowered);
    var silent := RemoveH(replaced);
    var r := CollapseDoubles(silent, DoubleLetters);
    PhoneticTransformProperties(s, lowered, replaced, silent, r);
    r
  }

  lemma PhoneticTransformProperties(s: string, lowered: string, replaced: string, silent: string, r: string)
    requires lowered == Lower(s)
    requires replaced == Replace(GenericRules, lowered)
    requires silent == RemoveH(replaced)
    requires r == CollapseDoubles(silent, DoubleLetters)
    ensures 'h' !in r && IsLower(r) && |r| <= |s|
  {
    ReplacedStage(s, lowered, replaced);
    SilentStage(replaced, silent);
    assert All(DoubleLetters, NotUpperNorH);
    CollapsePreserves(silent, DoubleLetters, NotUpperNorH);
  }

  lemma ReplacedStage(s: string, lowered: string, replaced: string)
    requires lowered == Lower(s)
    requires replaced == Replace(GenericRules, lowered)
    ensures IsLower(replaced) && |replaced| <= |s|
  {
    assert IsLower(lowered);
    GenericRulesLower();
    ReplacePreserves(GenericRules, lowered, NotUpper);
    ReplaceShrinks(GenericRules, lowered);
  }

  lemma SilentStage(replaced: string, silent: string)
    requires IsLower(replaced)
    requires silent == RemoveH(replaced)
    ensures All(silent, NotUpperNorH) && |silent| <= |replaced|
  {
    ReplacePreserves([Rule("h", "")], replaced, NotUpper);
  }

  /** PhoneticTransform as the composition of its four stages, given the result of each. */
  lemma PhoneticTransformStages(s: string, lowered: string, replaced: string, silent: string, r: string)
    requires Lower(s) == lowered
    requires Replace(GenericRules, lowered) == replaced
    requires RemoveH(replaced) == silent
    requires CollapseDoubles(silent, DoubleLetters) == r
    ensures PhoneticTransform(s) == r
  {
  }

  /** The replacer does not rescan its own output: "sch" becomes "sh" even though
      "sh" is itself a pattern; the 'h' is lost only afterwards, to RemoveH. */
  lemma ReplacerDoesNotRescan()
    ensures Replace(GenericRules, "sch") == "sh"
    ensures PhoneticTransform("sch") == "s"
  {
    var s := "sch";
    assert Lower(s) == s;
    SchReplaced(s);
    ShLosesH("sh");
    CollapseUnchanged("s", DoubleLetters);
    PhoneticTransformStages(s, s, "sh", "s", "s");
  }

  lemma ShLosesH(s: string)
    requires s == "sh"
    ensures RemoveH(s) == "s"
  {
    ReplaceAllSingleChar(s, 'h', "");
    assert s[1..] == "h" && s[1..][1..] == [];
    assert MapChar(s[1..], 'h', "") == [];
  }

  lemma SchReplaced(s: string)
    requires s == "sch"
    ensures Replace(GenericRules, s) == "sh"
  {
    GenericRulesLower();
    GenericRuleHeads();
    forall j | 0 <= j < 3 ensures !IsPrefix(GenericRules[j].from, s) {
      NotPrefixAt(GenericRules[j].from, s, 0);
    }
    FirstMatchIs(GenericRules, s, 3);
    ReplaceRewrites(GenericRules, s, 3);
    assert GenericRules[3] == Rule("sch", "sh");
    assert s[3..] == [];
  }

  lemma GenericRuleHeads()
    ensures forall j :: 0 <= j < |GenericRules| ==> |GenericRules[j].from| >= 2
    ensures forall j :: 0 <= j < |GenericRules| ==> GenericRules[j].from[0] != 't' || GenericRules[j].from[1] != 't'
    ensures forall j :: 0 <= j < 3 ==> GenericRules[j].from[0] != 's'
  {
  }

  /** Collapsing leaves a string alone when none of the letters occurs doubled in it. */
  lemma {:induction false} CollapseUnchanged(s: string, letters: string)
    requires forall i, k :: 0 <= i < |s| - 1 && 0 <= k < |letters| ==> s[i] != letters[k] || s[i + 1] != letters[k]
    ensures CollapseDoubles(s, letters) == s
    decreases |letters|
  {
    if |letters| > 0 {
      var l := letters[0];
      var rules := [Rule([l, l], [l])];
      forall i | 0 <= i < |s| ensures FirstMatch(rules, s[i..]).None? {
        if |s[i..]| >= 2 {
          if s[i] != l {
            NotPrefixAt([l, l], s[i..], 0);
          } else {
            NotPrefixAt([l, l], s[i..], 1);
          }
        }
      }
      ReplaceNoMatch(rules, s);
      CollapseUnchanged(s, letters[1..]);
    }
  }

  /** Each double letter is collapsed in one non-overlapping pass, so a tripled
      letter keeps two copies. */
  lemma CollapseIsSinglePass()
    ensures PhoneticTransform("ttt") == "tt"
  {
    var s := "ttt";
    assert Lower(s) == s by { assert IsLower(s); }
    TripleTReachesCollapse(s);
    TripleTCollapse(s);
    PhoneticTransformStages(s, s, s, s, "tt");
  }

  lemma TripleTReachesCollapse(s: string)
    requires s == "ttt"
    ensures Replace(GenericRules, s) == s
    ensures RemoveH(s) == s
  {
    GenericRulesLower();
    GenericRuleHeads();
    forall i | 0 <= i < |s| ensures FirstMatch(GenericRules, s[i..]).None? {
      NoMatchOnRun(GenericRules, s[i..], 't');
    }
    ReplaceNoMatch(GenericRules, s);
  }

  lemma TripleTCollapse(s: string)
    requires s == "ttt"
    ensures CollapseDoubles(s, DoubleLetters) == "tt"
  {
    var rules := [Rule("tt", "t")];
    var collapsed := ReplaceAll(s, "tt", "t");
    assert collapsed == "tt" by {
      FirstMatchIs(rules, s, 0);
      ReplaceRewrites(rules, s, 0);
      assert s[2..] == "t";
      assert FirstMatch(rules, s[2..]).None?;
      ReplaceCopies(rules, s[2..]);
    }
    assert CollapseDoubles(s, DoubleLetters) == CollapseDoubles(collapsed, DoubleLetters[1..]);
    CollapseUnchanged(collapsed, DoubleLetters[1..]);
  }
}
