/** Go's strings.NewReplacer(...).Replace and strings.ReplaceAll for non-empty
    patterns: a single left-to-right scan; at each position the earliest pattern
    in argument order that starts there is replaced and skipped over, otherwise
    one character is copied; replaced text is never scanned again. */
module Replacer {

  datatype Option<T> = None | Some(value: T)

  /** One old/new argument pair of strings.NewReplacer. */
  datatype Rule = Rule(from: string, to: string)

  /** Every pattern is non-empty (Go treats an empty pattern specially; no call
      site in the modelled code uses one). */
  predicate WellFormed(rules: seq<Rule>) {
    forall k :: 0 <= k < |rules| ==> |rules[k].from| > 0
  }

  /** No replacement text is longer than its pattern. */
  predicate Shrinking(rules: seq<Rule>) {
    forall k :: 0 <= k < |rules| ==> |rules[k].to| <= |rules[k].from|
  }

  predicate IsPrefix(p: string, s: string) {
    |p| <= |s| && s[..|p|] == p
  }

  /** Every character of s satisfies P. */
  predicate All(s: string, P: char -> bool) {
    forall k :: 0 <= k < |s| ==> P(s[k])
  }

  /** Index of the earliest rule whose pattern starts s, if any. */
  function FirstMatch(rules: seq<Rule>, s: string): (m: Option<nat>)
    ensures m.Some? ==> m.value < |rules| && IsPrefix(rules[m.value].from, s)
    ensures m.Some? ==> forall j :: 0 <= j < m.value ==> !IsPrefix(rules[j].from, s)
    ensures m.None? ==> forall j :: 0 <= j < |rules| ==> !IsPrefix(rules[j].from, s)
  {
    if |rules| == 0 then None
    else if IsPrefix(rules[0].from, s) then Some(0)
    else match FirstMatch(rules[1..], s)
      case None => None
      case Some(k) => Some(k + 1)
  }

  /** One replacer pass over s. */
  function Replace(rules: seq<Rule>, s: string): string
    requires WellFormed(rules)
    decreases |s|
  {
    if |s| == 0 then []
    else match FirstMatch(rules, s)
      case Some(k) => rules[k].to + Replace(rules, s[|rules[k].from|..])
      case None => [s[0]] + Replace(rules, s[1..])
  }

  /** strings.ReplaceAll(s, pattern, replacement) for a non-empty pattern. */
  function ReplaceAll(s: string, pattern: string, replacement: string): string
    requires |pattern| > 0
  {
    Replace([Rule(pattern, replacement)], s)
  }

  /** Rewrites every occurrence of the single character c by v, independently
      of its neighbours. */
  function MapChar(s: string, c: char, v: string): string {
    if |s| == 0 then [] else (if s[0] == c then v else [s[0]]) + MapChar(s[1..], c, v)
  }

  /** A property of characters that holds of the input and of every
      replacement text holds of the output. */
  lemma {:induction false} ReplacePreserves(rules: seq<Rule>, s: string, P: char -> bool)
    requires WellFormed(rules)
    requires All(s, P)
    requires forall k :: 0 <= k < |rules| ==> All(rules[k].to, P)
    ensures All(Replace(rules, s), P)
    decreases |s|
  {
    if |s| > 0 {
      match FirstMatch(rules, s)
      case Some(k) =>
        var rest := s[|rules[k].from|..];
        assert forall i :: 0 <= i < |rest| ==> rest[i] == s[|rules[k].from| + i];
        ReplacePreserves(rules, rest, P);
        var r := rules[k].to + Replace(rules, rest);
        assert forall i :: 0 <= i < |r| ==> P(r[i]) by {
          forall i | 0 <= i < |r| ensures P(r[i]) {
            if i >= |rules[k].to| { assert r[i] == Replace(rules, rest)[i - |rules[k].to|]; }
          }
        }
      case None =>
        ReplacePreserves(rules, s[1..], P);
        var r := [s[0]] + Replace(rules, s[1..]);
        assert forall i :: 0 <= i < |r| ==> P(r[i]) by {
          forall i | 0 <= i < |r| ensures P(r[i]) {
            if i >= 1 { assert r[i] == Replace(rules, s[1..])[i - 1]; }
          }
        }
    }
  }

  /** When no replacement is longer than its pattern, the output is no longer than the input. */
  lemma {:induction false} ReplaceShrinks(rules: seq<Rule>, s: string)
    requires WellFormed(rules) && Shrinking(rules)
    ensures |Replace(rules, s)| <= |s|
    decreases |s|
  {
    if |s| > 0 {
      match FirstMatch(rules, s)
      case Some(k) => ReplaceShrinks(rules, s[|rules[k].from|..]);
      case None => ReplaceShrinks(rules, s[1..]);
    }
  }

  /** A replacer none of whose patterns can start anywhere in s copies s unchanged. */
  lemma {:induction false} ReplaceAbsent(rules: seq<Rule>, s: string)
    requires WellFormed(rules)
    requires forall k :: 0 <= k < |rules| ==> rules[k].from[0] !in s
    ensures Replace(rules, s) == s
    decreases |s|
  {
    if |s| > 0 {
      assert FirstMatch(rules, s).None? by {
        forall k | 0 <= k < |rules| ensures !IsPrefix(rules[k].from, s) {
          assert rules[k].from[0] != s[0];
        }
      }
      ReplaceAbsent(rules, s[1..]);
    }
  }

  /** A pattern that differs from s at some position shared by both does not start s. */
  lemma NotPrefixAt(p: string, s: string, i: nat)
    requires i < |p| && i < |s| && p[i] != s[i]
    ensures !IsPrefix(p, s)
  {
  }

  /** No rule starts a run of one repeated character c when every pattern either
      starts with another character or continues with one. */
  lemma NoMatchOnRun(rules: seq<Rule>, s: string, c: char)
    requires WellFormed(rules)
    requires forall j :: 0 <= j < |rules| ==> rules[j].from[0] != c || (|rules[j].from| >= 2 && rules[j].from[1] != c)
    requires |s| > 0 && forall k :: 0 <= k < |s| ==> s[k] == c
    ensures FirstMatch(rules, s).None?
  {
    forall j | 0 <= j < |rules| ensures !IsPrefix(rules[j].from, s) {
      var p := rules[j].from;
      if p[0] != c {
        NotPrefixAt(p, s, 0);
      } else if |s| >= 2 {
        NotPrefixAt(p, s, 1);
      }
    }
  }

  /** The earliest rule whose pattern starts s is the one FirstMatch picks. */
  lemma FirstMatchIs(rules: seq<Rule>, s: string, k: nat)
    requires k < |rules| && IsPrefix(rules[k].from, s)
    requires forall j :: 0 <= j < k ==> !IsPrefix(rules[j].from, s)
    ensures FirstMatch(rules, s) == Some(k)
  {
  }

  /** A replacer that matches at no position copies its input unchanged. */
  lemma {:induction false} ReplaceNoMatch(rules: seq<Rule>, s: string)
    requires WellFormed(rules)
    requires forall i :: 0 <= i < |s| ==> FirstMatch(rules, s[i..]).None?
    ensures Replace(rules, s) == s
    decreases |s|
  {
    if |s| > 0 {
      assert s[0..] == s;
      forall i | 0 <= i < |s[1..]| ensures FirstMatch(rules, s[1..][i..]).None? {
        assert s[1..][i..] == s[i + 1..];
      }
      ReplaceNoMatch(rules, s[1..]);
    }
  }

  /** One unfolding of Replace when no rule starts s. */
  lemma ReplaceCopies(rules: seq<Rule>, s: string)
    requires WellFormed(rules) && |s| > 0 && FirstMatch(rules, s).None?
    ensures Replace(rules, s) == [s[0]] + Replace(rules, s[1..])
  {
  }

  /** One unfolding of Replace when rule k is the earliest one starting s. */
  lemma ReplaceRewrites(rules: seq<Rule>, s: string, k: nat)
    requires WellFormed(rules) && |s| > 0 && FirstMatch(rules, s) == Some(k)
    ensures Replace(rules, s) == rules[k].to + Replace(rules, s[|rules[k].from|..])
  {
  }

  /** With a one-character pattern, ReplaceAll rewrites each occurrence on its own. */
  lemma {:induction false} ReplaceAllSingleChar(s: string, c: char, v: string)
    ensures ReplaceAll(s, [c], v) == MapChar(s, c, v)
    decreases |s|
  {
    if |s| > 0 {
      ReplaceAllSingleChar(s[1..], c, v);
      if s[0] == c {
        assert IsPrefix([c], s);
      } else {
        assert !IsPrefix([c], s);
      }
    }
  }

  lemma {:induction false} MapCharAppend(a: string, b: string, c: char, v: string)
    ensures MapChar(a + b, c, v) == MapChar(a, c, v) + MapChar(b, c, v)
    decreases |a|
  {
    if |a| > 0 {
      assert (a + b)[1..] == a[1..] + b;
      MapCharAppend(a[1..], b, c, v);
    } else {
      assert a + b == b;
    }
  }

  /** MapChar leaves strings without c alone. */
  lemma {:induction false} MapCharAbsent(s: string, c: char, v: string)
    requires c !in s
    ensures MapChar(s, c, v) == s
    decreases |s|
  {
    if |s| > 0 {
      MapCharAbsent(s[1..], c, v);
    }
  }

  /** MapChar leaves no c behind unless the replacement text contains one. */
  lemma {:induction false} MapCharRemoves(s: string, c: char, v: string)
    requires c !in v
    ensures c !in MapChar(s, c, v)
    decreases |s|
  {
    if |s| > 0 {
      MapCharRemoves(s[1..], c, v);
    }
  }
}
