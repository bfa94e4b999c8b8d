/** TransliterateNonLatin (phonetic.go:59-72): eight lower-case Cyrillic letters
    are rewritten to Latin, one strings.ReplaceAll per map entry, in Go's
    unspecified map iteration order. */
module Transliteration {
  import opened Replacer

  const CyrillicToLatin: map<char, string> := map[
    'ш' := "sh", 'ч' := "ch", 'ц' := "ts", 'ж' := "zh",
    'ю' := "yu", 'я' := "ya", 'х' := "kh", 'й' := "y"
  ]

  /** Every replacement text is plain ASCII, so it never contains a mapped letter. */
  lemma ValuesAreLatin()
    ensures forall c, k :: c in CyrillicToLatin && 0 <= k < |CyrillicToLatin[c]| ==>
      CyrillicToLatin[c][k] as int < 0x80
    ensures forall c :: c in CyrillicToLatin ==> c as int >= 0x80
  {
  }

  /** Rewrites the letters of `keys` and copies every other character. */
  function TransliterateKeys(keys: set<char>, s: string): string
    requires keys <= CyrillicToLatin.Keys
  {
    if |s| == 0 then []
    else (if s[0] in keys then CyrillicToLatin[s[0]] else [s[0]]) + TransliterateKeys(keys, s[1..])
  }

  /** No mapped letter survives, and text without mapped letters is returned unchanged. */
  function TransliterateNonLatin(s: string): (r: string)
    ensures forall k :: 0 <= k < |r| ==> r[k] !in CyrillicToLatin
    ensures (forall k :: 0 <= k < |s| ==> s[k] !in CyrillicToLatin) ==> r == s
    ensures |r| >= |s|
  {
    TransliterateAllKeys(s);
    TransliterateKeys(CyrillicToLatin.Keys, s)
  }

  lemma {:induction false} TransliterateAllKeys(s: string)
    ensures forall k :: 0 <= k < |TransliterateKeys(CyrillicToLatin.Keys, s)| ==>
      TransliterateKeys(CyrillicToLatin.Keys, s)[k] !in CyrillicToLatin
    ensures (forall k :: 0 <= k < |s| ==> s[k] !in CyrillicToLatin) ==> TransliterateKeys(CyrillicToLatin.Keys, s) == s
    ensures |TransliterateKeys(CyrillicToLatin.Keys, s)| >= |s|
    decreases |s|
  {
    if |s| > 0 {
      ValuesAreLatin();
      TransliterateAllKeys(s[1..]);
      var head := if s[0] in CyrillicToLatin then CyrillicToLatin[s[0]] else [s[0]];
      var r := head + TransliterateKeys(CyrillicToLatin.Keys, s[1..]);
      forall k | 0 <= k < |r| ensures r[k] !in CyrillicToLatin {
        if k >= |head| {
          assert r[k] == TransliterateKeys(CyrillicToLatin.Keys, s[1..])[k - |head|];
        }
      }
      assert |head| >= 1 by { assert forall c :: c in CyrillicToLatin ==> |CyrillicToLatin[c]| >= 1; }
    }
  }

  /** The transliteration works character by character: a mapped letter
      becomes its Latin text, every other character is copied unchanged. */
  lemma TransliteratePerCharacter(a: string, b: string, c: char)
    ensures TransliterateNonLatin(a + b) == TransliterateNonLatin(a) + TransliterateNonLatin(b)
    ensures TransliterateNonLatin([c]) == if c in CyrillicToLatin then CyrillicToLatin[c] else [c]
  {
    KeysAppend(CyrillicToLatin.Keys, a, b);
    var head := if c in CyrillicToLatin then CyrillicToLatin[c] else [c];
    assert [c][0] == c && [c][1..] == [];
    assert TransliterateKeys(CyrillicToLatin.Keys, [c]) == head + TransliterateKeys(CyrillicToLatin.Keys, []);
  }

  lemma {:induction false} KeysAppend(keys: set<char>, a: string, b: string)
    requires keys <= CyrillicToLatin.Keys
    ensures TransliterateKeys(keys, a + b) == TransliterateKeys(keys, a) + TransliterateKeys(keys, b)
    decreases |a|
  {
    if |a| == 0 {
      assert a + b == b;
    } else {
      assert (a + b)[0] == a[0] && (a + b)[1..] == a[1..] + b;
      KeysAppend(keys, a[1..], b);
    }
  }

  /** One ReplaceAll for a not-yet-processed key extends the processed set by that key. */
  lemma {:induction false} ReplaceOneMoreKey(done: set<char>, c: char, s: string)
    requires done <= CyrillicToLatin.Keys && c in CyrillicToLatin && c !in done
    ensures ReplaceAll(TransliterateKeys(done, s), [c], CyrillicToLatin[c]) == TransliterateKeys(done + {c}, s)
  {
    var v := CyrillicToLatin[c];
    ReplaceAllSingleChar(TransliterateKeys(done, s), c, v);
    MapCharOneMoreKey(done, c, s);
  }

  lemma {:induction false} MapCharOneMoreKey(done: set<char>, c: char, s: string)
    requires done <= CyrillicToLatin.Keys && c in CyrillicToLatin && c !in done
    ensures MapChar(TransliterateKeys(done, s), c, CyrillicToLatin[c]) == TransliterateKeys(done + {c}, s)
    decreases |s|
  {
    var v := CyrillicToLatin[c];
    if |s| > 0 {
      var head := if s[0] in done then CyrillicToLatin[s[0]] else [s[0]];
      MapCharAppend(head, TransliterateKeys(done, s[1..]), c, v);
      MapCharOneMoreKey(done, c, s[1..]);
      if s[0] in done {
        ValuesAreLatin();
        assert c !in head;
        MapCharAbsent(head, c, v);
      } else if s[0] == c {
        assert MapChar(head, c, v) == v + MapChar([], c, v);
      } else {
        assert MapChar(head, c, v) == head + MapChar([], c, v);
      }
    }
  }

  /** The Go loop itself, with the map's iteration order as an input: any order
      that visits every key exactly once gives TransliterateNonLatin. */
  method TransliterateInMapOrder(s: string, order: seq<char>) returns (t: string)
    requires forall c :: c in CyrillicToLatin <==> c in order
    requires forall i, j :: 0 <= i < j < |order| ==> order[i] != order[j]
    ensures t == TransliterateNonLatin(s)
  {
    t := s;
    var i := 0;
    var done: set<char> := {};
    assert TransliterateKeys({}, s) == s by { EmptyKeysIdentity(s); }
    while i < |order|
      invariant 0 <= i <= |order|
      invariant done == set j | 0 <= j < i :: order[j]
      invariant done <= CyrillicToLatin.Keys
      invariant t == TransliterateKeys(done, s)
    {
      var c := order[i];
      assert c !in done;
      ReplaceOneMoreKey(done, c, s);
      t := ReplaceAll(t, [c], CyrillicToLatin[c]);
      done := done + {c};
      i := i + 1;
    }
    assert done == CyrillicToLatin.Keys;
  }

  lemma {:induction false} EmptyKeysIdentity(s: string)
    ensures TransliterateKeys({}, s) == s
    decreases |s|
  {
    if |s| > 0 {
      EmptyKeysIdentity(s[1..]);
    }
  }
}
