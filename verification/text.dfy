/** Character-level helpers shared by the normalisation pipeline and the distance:
    Go's lower-casing and the UTF-8 byte view of a rune. */
module Text {
  import opened Replacer

  /** Upper-case letters whose lower-case mapping this model knows: ASCII,
      Latin-1 and the basic Cyrillic block. */
  predicate IsUpperChar(c: char) {
    || ('A' <= c <= 'Z')
    || ('\U{00C0}' <= c <= '\U{00DE}' && c != '\U{00D7}')
    || ('\U{0400}' <= c <= '\U{042F}')
  }

  /** unicode.ToUpper on the small letters that LowerChar produces: a-z, the
      Latin-1 small letters U+00E0-U+00FE but U+00F7, and U+0430-U+045F;
      every other rune maps to itself. */
  function UpperChar(c: char): char {
    if 'a' <= c <= 'z' || ('\U{00E0}' <= c <= '\U{00FE}' && c != '\U{00F7}') then
      (c as int - 32) as char
    else if '\U{0430}' <= c <= '\U{044F}' then
      (c as int - 32) as char
    else if '\U{0450}' <= c <= '\U{045F}' then
      (c as int - 80) as char
    else
      c
  }

  /** unicode.ToLower on the letters above; every other rune maps to itself.
      A capital becomes the small letter whose upper case it is. */
  function LowerChar(c: char): (r: char)
    ensures !IsUpperChar(r)
    ensures !IsUpperChar(c) ==> r == c
    ensures IsUpperChar(c) ==> r != c && UpperChar(r) == c
  {
    if 'A' <= c <= 'Z' || ('\U{00C0}' <= c <= '\U{00DE}' && c != '\U{00D7}') then
      (c as int + 32) as char
    else if '\U{0400}' <= c <= '\U{040F}' then
      (c as int + 80) as char
    else if '\U{0410}' <= c <= '\U{042F}' then
      (c as int + 32) as char
    else
      c
  }

  /** c has no upper-case mapping. */
  predicate NotUpper(c: char) { !IsUpperChar(c) }

  /** No character of s has an upper-case mapping. */
  predicate IsLower(s: string) {
    All(s, NotUpper)
  }

  /** strings.ToLower, rune by rune. */
  function Lower(s: string): (r: string)
    ensures |r| == |s|
    ensures forall k :: 0 <= k < |s| ==> r[k] == LowerChar(s[k])
    ensures IsLower(r)
    ensures IsLower(s) ==> r == s
  {
    seq(|s|, k requires 0 <= k < |s| => LowerChar(s[k]))
  }

  /** The fold on the ends of each range: 'A'-'Z', U+00C0-U+00DE and the two
      Cyrillic blocks, and a two-rune string. */
  lemma CaseFoldExamples()
    ensures LowerChar('A') == 'a' && LowerChar('Z') == 'z'
    ensures LowerChar('\U{00C0}') == '\U{00E0}' && LowerChar('\U{00DE}') == '\U{00FE}'
    ensures LowerChar('\U{0400}') == '\U{0450}' && LowerChar('\U{040F}') == '\U{045F}'
    ensures LowerChar('\U{0410}') == '\U{0430}' && LowerChar('\U{042F}') == '\U{044F}'
    ensures LowerChar('\U{00D7}') == '\U{00D7}'
    ensures Lower("Ab") == Lower("ab") == "ab"
  {
    assert Lower("Ab")[0] == 'a';
  }

  /** Number of bytes in the UTF-8 encoding of c. */
  function Utf8Width(c: char): (n: nat)
    ensures 1 <= n <= 4
    ensures n == 1 <==> c as int < 0x80
  {
    if c as int < 0x80 then 1
    else if c as int < 0x800 then 2
    else if c as int < 0x10000 then 3
    else 4
  }

  /** The first byte of the UTF-8 encoding of c. */
  function Utf8LeadByte(c: char): (b: nat)
    ensures b < 0x100
    ensures c as int < 0x80 ==> b == c as int
  {
    if c as int < 0x80 then c as int
    else if c as int < 0x800 then 0xC0 + c as int / 0x40
    else if c as int < 0x10000 then 0xE0 + c as int / 0x1000
    else 0xF0 + c as int / 0x40000
  }

  /** len(s) in Go: the number of bytes of the UTF-8 encoding. */
  function ByteLength(s: string): (n: nat)
    ensures n >= |s|
    ensures n == |s| <==> forall k :: 0 <= k < |s| ==> s[k] as int < 0x80
  {
    if |s| == 0 then 0 else Utf8Width(s[0]) + ByteLength(s[1..])
  }
}
