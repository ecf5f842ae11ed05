/** Character classes and string operations the validators and the search box
    rely on, written out as the ECMAScript definitions: the `\s` class (which is
    also the set `String.prototype.trim` strips), the line terminators that `.`
    refuses, ASCII digits and letters, and substring search. */
module Text {

  /** ECMAScript WhiteSpace or LineTerminator: the `\s` class and what `trim` removes. */
  predicate IsSpace(c: char) {
    || c == '\t' || c == '\n' || c == '\U{000B}' || c == '\U{000C}' || c == '\r' || c == ' '
    || c == '\U{00A0}' || c == '\U{1680}' || ('\U{2000}' <= c <= '\U{200A}')
    || c == '\U{2028}' || c == '\U{2029}' || c == '\U{202F}' || c == '\U{205F}'
    || c == '\U{3000}' || c == '\U{FEFF}'
  }

  /** The characters the regular-expression `.` does not match. */
  predicate IsLineTerminator(c: char) {
    c == '\n' || c == '\r' || c == '\U{2028}' || c == '\U{2029}'
  }

  /** `\d`: ASCII digits only. */
  predicate IsDigit(c: char) { '0' <= c <= '9' }

  predicate IsLower(c: char) { 'a' <= c <= 'z' }

  predicate IsUpper(c: char) { 'A' <= c <= 'Z' }

  predicate NoSpace(s: string) {
    forall i :: 0 <= i < |s| ==> !IsSpace(s[i])
  }

  /** `!s.trim()`: the string is empty once surrounding whitespace is removed. */
  predicate IsBlank(s: string) {
    forall i :: 0 <= i < |s| ==> IsSpace(s[i])
  }

  /** Index of the first non-whitespace character, or `|s|`. */
  function TrimStartIndex(s: string): (i: nat)
    ensures i <= |s|
    ensures forall k :: 0 <= k < i ==> IsSpace(s[k])
    ensures i < |s| ==> !IsSpace(s[i])
  {
    if |s| == 0 || !IsSpace(s[0]) then 0 else 1 + TrimStartIndex(s[1..])
  }

  /** One past the index of the last non-whitespace character, or 0. */
  function TrimEndIndex(s: string): (j: nat)
    ensures j <= |s|
    ensures forall k :: j <= k < |s| ==> IsSpace(s[k])
    ensures j > 0 ==> !IsSpace(s[j - 1])
  {
    if |s| == 0 || !IsSpace(s[|s| - 1]) then |s| else TrimEndIndex(s[..|s| - 1])
  }

  /** `s` is `r` with only whitespace before position `i` and after `r`. */
  predicate PaddedAt(s: string, r: string, i: int) {
    && OccursAt(s, r, i)
    && (forall k :: 0 <= k < i ==> IsSpace(s[k]))
    && (forall k :: i + |r| <= k < |s| ==> IsSpace(s[k]))
  }

  /** `needle` occurs in `hay` starting at position `i`. */
  predicate OccursAt(hay: string, needle: string, i: int) {
    0 <= i <= |hay| - |needle| && hay[i..i + |needle|] == needle
  }

  /** `s.trim()`: the slice of `s` between its leading and trailing whitespace. */
  function Trim(s: string): (r: string)
    ensures |r| <= |s|
    ensures |r| == 0 <==> IsBlank(s)
    ensures |r| > 0 ==> !IsSpace(r[0]) && !IsSpace(r[|r| - 1])
  {
    var i := TrimStartIndex(s);
    if i == |s| then []
    else
      var j := TrimEndIndex(s);
      assert !IsBlank(s) by { assert !IsSpace(s[i]); }
      s[i..j]
  }

  /** The trimmed string sits in `s` with nothing but whitespace around it. */
  lemma TrimIsPadded(s: string)
    ensures exists i :: PaddedAt(s, Trim(s), i)
  {
    var i := TrimStartIndex(s);
    if i == |s| {
      assert Trim(s) == [];
      assert PaddedAt(s, [], i);
    } else {
      var j := TrimEndIndex(s);
      assert Trim(s) == s[i..j];
      assert PaddedAt(s, s[i..j], i);
    }
  }

  /** Trimming a trimmed string changes nothing. */
  lemma TrimIdempotent(s: string)
    ensures Trim(Trim(s)) == Trim(s)
  {
    var r := Trim(s);
    if |r| > 0 {
      assert TrimStartIndex(r) == 0;
      assert TrimEndIndex(r) == |r|;
      assert r[0..|r|] == r;
    }
  }

  /** ASCII case folding: `A`..`Z` become `a`..`z`, every other character is kept. */
  function ToLowerChar(c: char): (r: char)
    ensures IsUpper(c) ==> IsLower(r) && r as int == c as int + 32
    ensures !IsUpper(c) ==> r == c
  {
    if IsUpper(c) then (c as int + 32) as char else c
  }

  /** `s.toLowerCase()` on the ASCII range, character by character. */
  function ToLower(s: string): (r: string)
    ensures |r| == |s|
    ensures forall i :: 0 <= i < |s| ==> r[i] == ToLowerChar(s[i])
  {
    seq(|s|, i requires 0 <= i < |s| => ToLowerChar(s[i]))
  }

  /** Lower-casing twice is lower-casing once. */
  lemma ToLowerIdempotent(s: string)
    ensures ToLower(ToLower(s)) == ToLower(s)
  {
  }

  /** `hay.includes(needle)`: `needle` occurs as a contiguous slice of `hay`. */
  function Contains(hay: string, needle: string): (b: bool)
    ensures |needle| == 0 ==> b
    ensures b ==> |needle| <= |hay|
    ensures b ==> forall c :: c in needle ==> c in hay
  {
    if |needle| == 0 then assert OccursAt(hay, needle, 0); true
    else exists i | 0 <= i <= |hay| - |needle| :: OccursAt(hay, needle, i)
  }

  /** A string contains every prefix and suffix of itself. */
  lemma ContainsSelfParts(s: string, k: nat)
    requires k <= |s|
    ensures Contains(s, s[..k]) && Contains(s, s[k..])
  {
    assert OccursAt(s, s[..k], 0);
    assert OccursAt(s, s[k..], k);
  }
}
