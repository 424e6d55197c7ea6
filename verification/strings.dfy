/** JavaScript strings as the core sees them: sequences of UTF-16 code units.
    None of the regular expressions in the core carry the `u` flag, so every
    character class and every `length` counts code units, and a character
    outside the Basic Multilingual Plane is two units (a surrogate pair). */
module Strings {
  import opened Wrappers

  /** One UTF-16 code unit. */
  type Unit = u: int | 0 <= u < 0x1_0000

  /** A JavaScript string value. */
  type JStr = seq<Unit>

  predicate IsHighSurrogate(u: Unit) { 0xD800 <= u < 0xDC00 }

  predicate IsLowSurrogate(u: Unit) { 0xDC00 <= u < 0xE000 }

  /** The UTF-16 encoding of one Unicode scalar value. */
  function EncodeChar(c: char): (r: JStr)
    ensures c as int < 0x1_0000 ==> r == [c as int]
    ensures c as int >= 0x1_0000 ==>
              && |r| == 2
              && IsHighSurrogate(r[0]) && IsLowSurrogate(r[1])
              && 0x1_0000 + (r[0] as int - 0xD800) * 0x400 + (r[1] as int - 0xDC00) == c as int
  {
    var v := c as int;
    if v < 0x1_0000 then [v]
    else [0xD800 + (v - 0x1_0000) / 0x400, 0xDC00 + (v - 0x1_0000) % 0x400]
  }

  /** The UTF-16 encoding of a Dafny string: the JavaScript string with the
      same characters. */
  function Utf16(s: string): (r: JStr)
    ensures |r| >= |s|
  {
    if |s| == 0 then [] else EncodeChar(s[0]) + Utf16(s[1..])
  }

  /** A string literal of the source. Every literal the core uses lies in the
      Basic Multilingual Plane, where a character is one code unit; the
      replacement character stands in for anything else. */
  function Lit(s: string): (r: JStr)
    ensures |r| == |s|
  {
    seq(|s|, i requires 0 <= i < |s| => if (s[i] as int) < 0x1_0000 then s[i] as int else 0xFFFD)
  }

  /** On the Basic Multilingual Plane a literal and its UTF-16 encoding agree. */
  lemma {:induction false} LitIsUtf16(s: string)
    requires forall i :: 0 <= i < |s| ==> (s[i] as int) < 0x1_0000
    ensures Lit(s) == Utf16(s)
  {
    if |s| > 0 {
      LitIsUtf16(s[1..]);
      assert Lit(s) == [s[0] as int] + Lit(s[1..]);
    }
  }

  predicate IsAsciiUnit(u: Unit) { u <= 0x7F }

  predicate IsAscii(s: JStr) {
    forall i :: 0 <= i < |s| ==> IsAsciiUnit(s[i])
  }

  /** `pat` occurs in `s` starting at index `k`. */
  predicate OccursAt(s: JStr, pat: JStr, k: int) {
    0 <= k && k + |pat| <= |s| && s[k..k + |pat|] == pat
  }

  /** An occurrence past the first unit is an occurrence in the tail. */
  lemma OccursAtShift(s: JStr, pat: JStr, j: int)
    requires |s| > 0 && 0 < j
    ensures OccursAt(s, pat, j) <==> OccursAt(s[1..], pat, j - 1)
  {
    if j + |pat| <= |s| {
      assert s[j..j + |pat|] == s[1..][j - 1..j - 1 + |pat|];
    }
  }

  /** `String.prototype.indexOf`: the first index at which `pat` occurs
      (`IndexOfIsFirst` states that no earlier index matches). */
  function IndexOf(s: JStr, pat: JStr): (r: Option<nat>)
    ensures r.Some? ==> OccursAt(s, pat, r.value)
    decreases |s|
  {
    if |s| < |pat| then None
    else if s[..|pat|] == pat then Some(0)
    else
      match IndexOf(s[1..], pat)
      case None => None
      case Some(k) =>
        OccursAtShift(s, pat, k + 1);
        Some(k + 1)
  }

  /** `indexOf` finds no occurrence before the one it returns, and returns
      nothing only when there is no occurrence at all. */
  lemma {:induction false} IndexOfIsFirst(s: JStr, pat: JStr)
    ensures IndexOf(s, pat).Some? ==> forall j :: 0 <= j < IndexOf(s, pat).value ==> !OccursAt(s, pat, j)
    ensures IndexOf(s, pat).None? ==> forall j :: !OccursAt(s, pat, j)
    decreases |s|
  {
    if |s| >= |pat| && s[..|pat|] != pat {
      IndexOfIsFirst(s[1..], pat);
      assert !OccursAt(s, pat, 0);
      forall j | 0 < j
        ensures OccursAt(s, pat, j) <==> OccursAt(s[1..], pat, j - 1)
      {
        OccursAtShift(s, pat, j);
      }
    }
  }

  /** `String.prototype.includes`. */
  predicate Includes(s: JStr, pat: JStr) {
    IndexOf(s, pat).Some?
  }

  /** `includes` holds exactly when the pattern occurs somewhere. */
  lemma IncludesIff(s: JStr, pat: JStr)
    ensures Includes(s, pat) <==> exists k :: OccursAt(s, pat, k)
  {
    IndexOfIsFirst(s, pat);
  }
}
