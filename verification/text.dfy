/** String helpers with JavaScript semantics: `String.prototype.trim` and
    `String.prototype.includes`. A string is a sequence of characters and its
    length is the number of characters. */
module Text {

  /** The WhiteSpace and LineTerminator code points (sections 11.2 and 11.3
      of ECMAScript 2019, with the Zs category spelled out) that
      `String.prototype.trim` (section 21.1.3.27) strips. */
  predicate IsSpace(c: char) {
    || c == '\t' || c == '\n' || c == '\U{000B}' || c == '\U{000C}' || c == '\r'
    || c == ' ' || c == '\U{00A0}' || c == '\U{1680}'
    || ('\U{2000}' <= c <= '\U{200A}')
    || c == '\U{2028}' || c == '\U{2029}' || c == '\U{202F}' || c == '\U{205F}'
    || c == '\U{3000}' || c == '\U{FEFF}'
  }

  predicate AllSpace(s: string) {
    forall i :: 0 <= i < |s| ==> IsSpace(s[i])
  }

  /** The first index at or after `i` that does not hold whitespace. */
  function SkipSpace(s: string, i: nat): (k: nat)
    requires i <= |s|
    ensures i <= k <= |s|
    ensures forall j :: i <= j < k ==> IsSpace(s[j])
    ensures k < |s| ==> !IsSpace(s[k])
    decreases |s| - i
  {
    if i == |s| || !IsSpace(s[i]) then i else SkipSpace(s, i + 1)
  }

  /** The least end `e` in `lo..j` such that `s[e..j]` is all whitespace. */
  function BackSpace(s: string, lo: nat, j: nat): (e: nat)
    requires lo <= j <= |s|
    ensures lo <= e <= j
    ensures forall m :: e <= m < j ==> IsSpace(s[m])
    ensures e > lo ==> !IsSpace(s[e - 1])
    decreases j
  {
    if j == lo || !IsSpace(s[j - 1]) then j else BackSpace(s, lo, j - 1)
  }

  /** Where the trimmed text starts: the length of the whitespace prefix. */
  function TrimStart(s: string): nat
  {
    SkipSpace(s, 0)
  }

  /** `s.trim()`: the maximal whitespace prefix and suffix removed. The
      result is the slice of `s` that starts after the leading whitespace,
      everything after it is whitespace, and it neither starts nor ends with
      whitespace; it is empty exactly when `s` is all whitespace. */
  function Trim(s: string): (r: string)
    ensures |r| <= |s|
    ensures r == [] <==> AllSpace(s)
    ensures r != [] ==> !IsSpace(r[0]) && !IsSpace(r[|r| - 1])
    ensures TrimStart(s) + |r| <= |s|
    ensures r == s[TrimStart(s)..TrimStart(s) + |r|]
    ensures forall j :: 0 <= j < TrimStart(s) ==> IsSpace(s[j])
    ensures forall j :: TrimStart(s) + |r| <= j < |s| ==> IsSpace(s[j])
  {
    var a := SkipSpace(s, 0);
    var e := BackSpace(s, a, |s|);
    assert a < |s| ==> e > a;
    s[a..e]
  }

  /** Trimming twice is trimming once. */
  lemma TrimIdempotent(s: string)
    ensures Trim(Trim(s)) == Trim(s)
  {
    var r := Trim(s);
    if r != [] {
      assert TrimStart(r) == 0;
    }
  }

  /** `hay.includes(needle)`: `needle` occurs as a contiguous slice. */
  predicate Contains(hay: string, needle: string) {
    exists i :: 0 <= i <= |hay| - |needle| && OccursAt(hay, needle, i)
  }

  predicate OccursAt(hay: string, needle: string, i: int)
    requires 0 <= i <= |hay| - |needle|
  {
    hay[i..i + |needle|] == needle
  }

  /** The empty string occurs in every string. */
  lemma ContainsEmpty(hay: string)
    ensures Contains(hay, "")
  {
    assert OccursAt(hay, "", 0);
  }

  /** A string without the needle's first character does not contain it. */
  lemma MissingFirstChar(hay: string, needle: string)
    requires needle != [] && needle[0] !in hay
    ensures !Contains(hay, needle)
  {
  }
}
