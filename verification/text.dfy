/**
 * The JavaScript string primitives the shopping list relies on: `trim`,
 * `toLowerCase`, `includes` and `length`.
 */
module Text {

  /** The single code points `String.prototype.trim` strips besides the range U+2000..U+200A. */
  const SpaceChars: set<char> := {
    ' ', '\t', '\n', '\r', '\U{000B}', '\U{000C}', '\U{00A0}', '\U{1680}',
    '\U{2028}', '\U{2029}', '\U{202F}', '\U{205F}', '\U{3000}', '\U{FEFF}'
  }

  /** The code points `String.prototype.trim` strips: WhiteSpace and LineTerminator of ECMAScript. */
  predicate IsSpace(c: char) {
    c in SpaceChars || '\U{2000}' <= c <= '\U{200A}'
  }


  /** `s` with its leading white space removed. */
  function TrimStart(s: string): (r: string)
    ensures |r| <= |s| && r == s[|s| - |r|..]
    ensures forall i :: 0 <= i < |s| - |r| ==> IsSpace(s[i])
    ensures |r| == 0 || !IsSpace(r[0])
    decreases |s|
  {
    if |s| > 0 && IsSpace(s[0]) then TrimStart(s[1..]) else s
  }

  /** `s` with its trailing white space removed. */
  function TrimEnd(s: string): (r: string)
    ensures |r| <= |s| && r == s[..|r|]
    ensures forall i :: |r| <= i < |s| ==> IsSpace(s[i])
    ensures |r| == 0 || !IsSpace(r[|r| - 1])
    decreases |s|
  {
    if |s| > 0 && IsSpace(s[|s| - 1]) then TrimEnd(s[..|s| - 1]) else s
  }

  /** `r` is `s` with `a` characters of white space cut at the front and only white space cut at the end. */
  predicate CutAt(s: string, r: string, a: int) {
    && 0 <= a <= |s| - |r| && r == s[a..a + |r|]
    && (forall i :: 0 <= i < a ==> IsSpace(s[i]))
    && (forall i :: a + |r| <= i < |s| ==> IsSpace(s[i]))
  }

  /**
   * `s.trim()`: a slice of `s` that neither starts nor ends with white space,
   * with only white space cut on either side.
   */
  function Trim(s: string): (r: string)
    ensures |r| == 0 || (!IsSpace(r[0]) && !IsSpace(r[|r| - 1]))
    ensures exists a :: CutAt(s, r, a)
  {
    var t := TrimStart(s);
    var r := TrimEnd(t);
    CutOfCuts(s, t, r);
    r
  }

  /**
   * Cutting white space off the front of `s` (giving `t`) and then off the
   * back of `t` (giving `r`) cuts white space off both ends of `s`.
   */
  lemma CutOfCuts(s: string, t: string, r: string)
    requires |t| <= |s| && t == s[|s| - |t|..]
    requires forall i :: 0 <= i < |s| - |t| ==> IsSpace(s[i])
    requires |t| == 0 || !IsSpace(t[0])
    requires |r| <= |t| && r == t[..|r|]
    requires forall j :: |r| <= j < |t| ==> IsSpace(t[j])
    ensures CutAt(s, r, |s| - |t|)
    ensures |r| == 0 || !IsSpace(r[0])
  {
    var a := |s| - |t|;
    assert |r| > 0 ==> r[0] == t[0];
    assert r == s[a..a + |r|];
    forall i | a + |r| <= i < |s|
      ensures IsSpace(s[i])
    {
      assert s[i] == t[i - a];
    }
  }






  /**
   * `!s.trim()`: the empty string is the only falsy string, so a string is
   * blank exactly when every character of it is white space.
   */
  predicate IsBlank(s: string): (r: bool)
    ensures r <==> forall i :: 0 <= i < |s| ==> IsSpace(s[i])
  {
    var t := TrimStart(s);
    assert |t| > 0 ==> t[0] == s[|s| - |t|];
    TrimEnd(t) == ""
  }

  /**
   * The case mapping of `toLowerCase` on the letters the catalog uses: Latin
   * A-Z and the Cyrillic capitals U+0400..U+042F (which include Ё).
   */
  function LowerChar(c: char): (r: char)
    ensures 'A' <= c <= 'Z' ==> r as int == c as int + 32
    ensures '\U{0410}' <= c <= '\U{042F}' ==> r as int == c as int + 0x20
    ensures '\U{0400}' <= c <= '\U{040F}' ==> r as int == c as int + 0x50
  {
    if 'A' <= c <= 'Z' then (c as int + 32) as char
    else if '\U{0410}' <= c <= '\U{042F}' then (c as int + 0x20) as char
    else if '\U{0400}' <= c <= '\U{040F}' then (c as int + 0x50) as char
    else c
  }

  /** `s.toLowerCase()`, character by character. */
  function Lower(s: string): (r: string)
    ensures |r| == |s|
    ensures forall i :: 0 <= i < |s| ==> r[i] == LowerChar(s[i])
    decreases |s|
  {
    if |s| == 0 then "" else [LowerChar(s[0])] + Lower(s[1..])
  }

  /** Lower-casing an already lower-cased string changes nothing. */
  lemma LowerIdempotent(s: string)
    ensures Lower(Lower(s)) == Lower(s)
  {
  }

  /** `needle` occurs in `hay` starting at index `i`. */
  predicate OccursAt(hay: string, needle: string, i: int) {
    0 <= i && i + |needle| <= |hay| && hay[i..i + |needle|] == needle
  }

  /**
   * `hay.includes(needle)`: the empty needle occurs in every string, every
   * string contains itself, and a needle longer than the hay is never found.
   */
  predicate Includes(hay: string, needle: string): (r: bool)
    ensures |needle| == 0 ==> r
    ensures needle == hay ==> r
    ensures r ==> |needle| <= |hay|
  {
    assert hay[0..|hay|] == hay;
    assert |needle| == 0 || needle == hay ==> OccursAt(hay, needle, 0);
    exists i | 0 <= i <= |hay| - |needle| :: OccursAt(hay, needle, i)
  }


  /** Number of UTF-16 code units of a code point: 2 above the Basic Multilingual Plane. */
  function Utf16Units(c: char): nat {
    if c as int > 0xFFFF then 2 else 1
  }

  /** `s.length`: JavaScript counts UTF-16 code units, not characters. */
  function Utf16Length(s: string): (n: nat)
    ensures |s| <= n <= 2 * |s|
    decreases |s|
  {
    if |s| == 0 then 0 else Utf16Units(s[0]) + Utf16Length(s[1..])
  }

  /**
   * The UTF-16 length is the number of characters exactly when no character
   * lies above the Basic Multilingual Plane.
   */
  lemma {:induction false} Utf16LengthBmp(s: string)
    ensures Utf16Length(s) == |s| <==> forall i :: 0 <= i < |s| ==> s[i] as int <= 0xFFFF
    decreases |s|
  {
    if |s| > 0 {
      Utf16LengthBmp(s[1..]);
      assert forall i :: 1 <= i < |s| ==> s[1..][i - 1] == s[i];
    }
  }
}
