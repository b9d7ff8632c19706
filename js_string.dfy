/** The JavaScript string operations the title search uses: `toLowerCase`
    (restricted to the ASCII letters) and `includes`. */
module JsString {

  /** ASCII lower-casing of one character; every other character is left as it is. */
  function LowerChar(c: char): char
  {
    if 'A' <= c <= 'Z' then (c as int + 32) as char else c
  }

  predicate IsUpperAscii(c: char) { 'A' <= c <= 'Z' }

  /** `s.toLowerCase()`, ASCII only, character by character: no capital is left,
      each capital becomes the letter 32 code points above it, and every other
      character stays where and what it was. */
  function ToLowerCase(s: string): (r: string)
    ensures |r| == |s|
    ensures forall i :: 0 <= i < |r| ==> !IsUpperAscii(r[i])
    ensures forall i :: 0 <= i < |s| && !IsUpperAscii(s[i]) ==> r[i] == s[i]
    ensures forall i :: 0 <= i < |s| && IsUpperAscii(s[i]) ==> r[i] as int == s[i] as int + 32
  {
    seq(|s|, i requires 0 <= i < |s| => LowerChar(s[i]))
  }

  /** `needle` occurs in `hay` starting at position `i`. */
  predicate MatchAt(hay: string, needle: string, i: nat)
  {
    i + |needle| <= |hay| && hay[i..i + |needle|] == needle
  }

  /** `needle` occurs somewhere in `hay` (the empty string occurs everywhere). */
  ghost predicate IsSubstring(hay: string, needle: string)
  {
    exists i: nat :: MatchAt(hay, needle, i)
  }

  /** Shifting the haystack by one character shifts every occurrence by one. */
  lemma MatchAtTail(hay: string, needle: string)
    requires hay != []
    ensures forall i: nat :: MatchAt(hay[1..], needle, i) <==> MatchAt(hay, needle, i + 1)
  {
    forall i: nat
      ensures MatchAt(hay[1..], needle, i) <==> MatchAt(hay, needle, i + 1)
    {
      if i + |needle| <= |hay[1..]| {
        assert hay[1..][i..i + |needle|] == hay[i + 1..i + 1 + |needle|];
      }
    }
  }

  /** `hay.includes(needle)`. */
  function Includes(hay: string, needle: string): (found: bool)
    ensures found <==> IsSubstring(hay, needle)
    decreases |hay|
  {
    if |needle| > |hay| then
      assert forall i: nat :: !MatchAt(hay, needle, i);
      false
    else if hay[..|needle|] == needle then
      assert MatchAt(hay, needle, 0);
      true
    else
      MatchAtTail(hay, needle);
      assert IsSubstring(hay, needle) ==> IsSubstring(hay[1..], needle) by {
        if IsSubstring(hay, needle) {
          var i: nat :| MatchAt(hay, needle, i);
          assert i != 0;
          assert MatchAt(hay[1..], needle, i - 1);
        }
      }
      assert IsSubstring(hay[1..], needle) ==> IsSubstring(hay, needle) by {
        if IsSubstring(hay[1..], needle) {
          var i: nat :| MatchAt(hay[1..], needle, i);
          assert MatchAt(hay, needle, i + 1);
        }
      }
      Includes(hay[1..], needle)
  }

  /** Lower-casing twice is lower-casing once. */
  lemma ToLowerCaseIdempotent(s: string)
    ensures ToLowerCase(ToLowerCase(s)) == ToLowerCase(s)
  {
  }

  /** Each position of a lower-cased string is the lower-cased character. */
  lemma ToLowerCaseAt(s: string, i: int)
    requires 0 <= i < |s|
    ensures ToLowerCase(s)[i] == LowerChar(s[i])
  {
  }

  /** Lower-casing a slice is slicing the lower-cased string. */
  lemma ToLowerCaseSlice(s: string, a: int, b: int)
    requires 0 <= a <= b <= |s|
    ensures ToLowerCase(s[a..b]) == ToLowerCase(s)[a..b]
  {
    forall k | 0 <= k < b - a
      ensures ToLowerCase(s[a..b])[k] == ToLowerCase(s)[a..b][k]
    {
      ToLowerCaseAt(s[a..b], k);
      ToLowerCaseAt(s, a + k);
    }
  }

  /** Lower-casing maps every occurrence of `needle` to an occurrence of the
      lower-cased needle, so an exact match is also a case-insensitive one. */
  lemma SubstringSurvivesLowering(hay: string, needle: string)
    requires IsSubstring(hay, needle)
    ensures IsSubstring(ToLowerCase(hay), ToLowerCase(needle))
  {
    var i: nat :| MatchAt(hay, needle, i);
    ToLowerCaseSlice(hay, i, i + |needle|);
    assert MatchAt(ToLowerCase(hay), ToLowerCase(needle), i);
  }
}
