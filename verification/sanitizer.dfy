/** The text sanitiser of the search route (`sanitizeText`): a chain of eight
    global, code-unit-wise regular-expression replacements that leaves only
    ASCII behind. */
module Sanitizer {
  import opened Strings

  /** `s.replace(/[class]/g, by)` for a character class without the `u` flag:
      every code unit in the class is replaced by `by`, every other unit kept. */
  function ReplaceClass(s: JStr, inClass: Unit -> bool, replacement: JStr): (r: JStr)
    decreases |s|
  {
    if |s| == 0 then []
    else (if inClass(s[0]) then replacement else [s[0]]) + ReplaceClass(s[1..], inClass, replacement)
  }

  /** A global class replacement works unit by unit, so it distributes over
      concatenation. */
  lemma {:induction false} ReplaceClassConcat(a: JStr, b: JStr, inClass: Unit -> bool, replacement: JStr)
    ensures ReplaceClass(a + b, inClass, replacement) == ReplaceClass(a, inClass, replacement) + ReplaceClass(b, inClass, replacement)
    decreases |a|
  {
    if |a| == 0 {
      assert a + b == b;
    } else {
      assert (a + b)[1..] == a[1..] + b;
      ReplaceClassConcat(a[1..], b, inClass, replacement);
    }
  }

  /** A string with no unit in the class is left as it is. */
  lemma {:induction false} ReplaceClassOutside(s: JStr, inClass: Unit -> bool, replacement: JStr)
    requires forall i :: 0 <= i < |s| ==> !inClass(s[i])
    ensures ReplaceClass(s, inClass, replacement) == s
    decreases |s|
  {
    if |s| > 0 {
      ReplaceClassOutside(s[1..], inClass, replacement);
    }
  }

  // The character classes of the eight replacements, in source order.

  /** Byte-order mark, zero-width space/non-joiner/joiner, and the two
      non-characters U+FFFE and U+FFFF. */
  predicate IsInvisible(u: Unit) {
    u == 0xFEFF || (0x200B <= u <= 0x200D) || u == 0xFFFE || u == 0xFFFF
  }
  predicate IsCurlySingleQuote(u: Unit) { u == 0x2018 || u == 0x2019 }
  predicate IsCurlyDoubleQuote(u: Unit) { u == 0x201C || u == 0x201D }
  predicate IsEnOrEmDash(u: Unit) { u == 0x2013 || u == 0x2014 }
  predicate IsEllipsis(u: Unit) { u == 0x2026 }
  predicate IsBullet(u: Unit) { u == 0x2022 }
  predicate IsFigureDashOrBar(u: Unit) { u == 0x2012 || u == 0x2015 }
  predicate IsNonAscii(u: Unit) { !IsAsciiUnit(u) }

  const APOSTROPHE: Unit := 0x27
  const QUOTE: Unit := 0x22
  const HYPHEN: Unit := 0x2D
  const FULL_STOP: Unit := 0x2E
  const ASTERISK: Unit := 0x2A
  const SPACE: Unit := 0x20

  /** `sanitizeText`, replacement by replacement. */
  function Sanitize(s: JStr): JStr {
    var s1 := ReplaceClass(s, IsInvisible, []);
    var s2 := ReplaceClass(s1, IsCurlySingleQuote, [APOSTROPHE]);
    var s3 := ReplaceClass(s2, IsCurlyDoubleQuote, [QUOTE]);
    var s4 := ReplaceClass(s3, IsEnOrEmDash, [HYPHEN]);
    var s5 := ReplaceClass(s4, IsEllipsis, [FULL_STOP, FULL_STOP, FULL_STOP]);
    var s6 := ReplaceClass(s5, IsBullet, [ASTERISK]);
    var s7 := ReplaceClass(s6, IsFigureDashOrBar, [HYPHEN]);
    ReplaceClass(s7, IsNonAscii, [SPACE])
  }

  /** What the whole chain does to a single code unit: the reference table
      the chain is proved against. */
  function UnitImage(u: Unit): (r: JStr)
    ensures IsAscii(r) && |r| <= 3
  {
    if IsAsciiUnit(u) then [u]
    else if IsInvisible(u) then []
    else if IsCurlySingleQuote(u) then [APOSTROPHE]
    else if IsCurlyDoubleQuote(u) then [QUOTE]
    else if IsEnOrEmDash(u) || IsFigureDashOrBar(u) then [HYPHEN]
    else if IsEllipsis(u) then [FULL_STOP, FULL_STOP, FULL_STOP]
    else if IsBullet(u) then [ASTERISK]
    else [SPACE]
  }

  /** The unit-by-unit reference sanitiser. */
  function SanitizeByUnit(s: JStr): (r: JStr)
    ensures IsAscii(r)
    ensures |r| <= 3 * |s|
    decreases |s|
  {
    if |s| == 0 then [] else UnitImage(s[0]) + SanitizeByUnit(s[1..])
  }

  /** The chain distributes over concatenation, as each of its steps does. */
  lemma SanitizeConcat(a: JStr, b: JStr)
    ensures Sanitize(a + b) == Sanitize(a) + Sanitize(b)
  {
    var a1, b1 := ReplaceClass(a, IsInvisible, []), ReplaceClass(b, IsInvisible, []);
    ReplaceClassConcat(a, b, IsInvisible, []);
    var a2, b2 := ReplaceClass(a1, IsCurlySingleQuote, [APOSTROPHE]), ReplaceClass(b1, IsCurlySingleQuote, [APOSTROPHE]);
    ReplaceClassConcat(a1, b1, IsCurlySingleQuote, [APOSTROPHE]);
    var a3, b3 := ReplaceClass(a2, IsCurlyDoubleQuote, [QUOTE]), ReplaceClass(b2, IsCurlyDoubleQuote, [QUOTE]);
    ReplaceClassConcat(a2, b2, IsCurlyDoubleQuote, [QUOTE]);
    var a4, b4 := ReplaceClass(a3, IsEnOrEmDash, [HYPHEN]), ReplaceClass(b3, IsEnOrEmDash, [HYPHEN]);
    ReplaceClassConcat(a3, b3, IsEnOrEmDash, [HYPHEN]);
    var a5, b5 := ReplaceClass(a4, IsEllipsis, [FULL_STOP, FULL_STOP, FULL_STOP]), ReplaceClass(b4, IsEllipsis, [FULL_STOP, FULL_STOP, FULL_STOP]);
    ReplaceClassConcat(a4, b4, IsEllipsis, [FULL_STOP, FULL_STOP, FULL_STOP]);
    var a6, b6 := ReplaceClass(a5, IsBullet, [ASTERISK]), ReplaceClass(b5, IsBullet, [ASTERISK]);
    ReplaceClassConcat(a5, b5, IsBullet, [ASTERISK]);
    var a7, b7 := ReplaceClass(a6, IsFigureDashOrBar, [HYPHEN]), ReplaceClass(b6, IsFigureDashOrBar, [HYPHEN]);
    ReplaceClassConcat(a6, b6, IsFigureDashOrBar, [HYPHEN]);
    ReplaceClassConcat(a7, b7, IsNonAscii, [SPACE]);
  }

  /** An ASCII string passes through every step of the chain unchanged. */
  lemma SanitizeAsciiFixed(s: JStr)
    requires IsAscii(s)
    ensures Sanitize(s) == s
  {
    ReplaceClassOutside(s, IsInvisible, []);
    ReplaceClassOutside(s, IsCurlySingleQuote, [APOSTROPHE]);
    ReplaceClassOutside(s, IsCurlyDoubleQuote, [QUOTE]);
    ReplaceClassOutside(s, IsEnOrEmDash, [HYPHEN]);
    ReplaceClassOutside(s, IsEllipsis, [FULL_STOP, FULL_STOP, FULL_STOP]);
    ReplaceClassOutside(s, IsBullet, [ASTERISK]);
    ReplaceClassOutside(s, IsFigureDashOrBar, [HYPHEN]);
    ReplaceClassOutside(s, IsNonAscii, [SPACE]);
  }

  /** One step of the chain applied to a single non-ASCII unit, or to ASCII
      text, which no step's class contains. */
  lemma StepOnUnitOrAscii(s: JStr, u: Unit, inClass: Unit -> bool, replacement: JStr)
    requires s == [u] || IsAscii(s)
    requires forall v :: inClass(v) ==> !IsAsciiUnit(v)
    ensures s == [u] ==> ReplaceClass(s, inClass, replacement) == (if inClass(u) then replacement else [u])
    ensures IsAscii(s) ==> ReplaceClass(s, inClass, replacement) == s
  {
    if s == [u] {
      assert s[1..] == [];
    }
    if IsAscii(s) {
      ReplaceClassOutside(s, inClass, replacement);
    }
  }

  /** The first step whose class holds a unit replaces it by ASCII text, and
      every later step leaves that text alone. */
  lemma SanitizeUnit(u: Unit)
    ensures Sanitize([u]) == UnitImage(u)
  {
    if IsAsciiUnit(u) {
      SanitizeAsciiFixed([u]);
    } else {
      var s1 := ReplaceClass([u], IsInvisible, []);
      StepOnUnitOrAscii([u], u, IsInvisible, []);
      var s2 := ReplaceClass(s1, IsCurlySingleQuote, [APOSTROPHE]);
      StepOnUnitOrAscii(s1, u, IsCurlySingleQuote, [APOSTROPHE]);
      var s3 := ReplaceClass(s2, IsCurlyDoubleQuote, [QUOTE]);
      StepOnUnitOrAscii(s2, u, IsCurlyDoubleQuote, [QUOTE]);
      var s4 := ReplaceClass(s3, IsEnOrEmDash, [HYPHEN]);
      StepOnUnitOrAscii(s3, u, IsEnOrEmDash, [HYPHEN]);
      var s5 := ReplaceClass(s4, IsEllipsis, [FULL_STOP, FULL_STOP, FULL_STOP]);
      StepOnUnitOrAscii(s4, u, IsEllipsis, [FULL_STOP, FULL_STOP, FULL_STOP]);
      var s6 := ReplaceClass(s5, IsBullet, [ASTERISK]);
      StepOnUnitOrAscii(s5, u, IsBullet, [ASTERISK]);
      var s7 := ReplaceClass(s6, IsFigureDashOrBar, [HYPHEN]);
      StepOnUnitOrAscii(s6, u, IsFigureDashOrBar, [HYPHEN]);
      StepOnUnitOrAscii(s7, u, IsNonAscii, [SPACE]);
    }
  }

  /** The replacement chain equals the unit-by-unit table. */
  lemma {:induction false} SanitizeIsByUnit(s: JStr)
    ensures Sanitize(s) == SanitizeByUnit(s)
    decreases |s|
  {
    if |s| == 0 {
      assert Sanitize(s) == [];
    } else {
      assert s == [s[0]] + s[1..];
      SanitizeConcat([s[0]], s[1..]);
      SanitizeUnit(s[0]);
      SanitizeIsByUnit(s[1..]);
    }
  }
}

module SanitizerProperties {
  import opened Strings
  import opened Sanitizer

  /** `sanitizeText` is total, leaves only ASCII, never grows a string by more
      than a factor of three (the ellipsis), and is idempotent; a string is a
      fixed point exactly when it is already ASCII. */
  lemma SanitizeProperties(s: JStr)
    ensures IsAscii(Sanitize(s))
    ensures |Sanitize(s)| <= 3 * |s|
    ensures Sanitize(Sanitize(s)) == Sanitize(s)
    ensures Sanitize(s) == s <==> IsAscii(s)
  {
    SanitizeIsByUnit(s);
    SanitizeAsciiFixed(Sanitize(s));
    if IsAscii(s) {
      SanitizeAsciiFixed(s);
    }
  }

  /** The fixed replacements: curly quotes become straight quotes, the four
      dashes U+2012 to U+2015 become a hyphen, the ellipsis becomes three full
      stops and the bullet an asterisk. */
  lemma TypographicMappings(u: Unit)
    ensures (u == 0x2018 || u == 0x2019) ==> Sanitize([u]) == [0x27]
    ensures (u == 0x201C || u == 0x201D) ==> Sanitize([u]) == [0x22]
    ensures 0x2012 <= u <= 0x2015 ==> Sanitize([u]) == [0x2D]
    ensures u == 0x2026 ==> Sanitize([u]) == [0x2E, 0x2E, 0x2E]
    ensures u == 0x2022 ==> Sanitize([u]) == [0x2A]
  {
    SanitizeUnit(u);
  }

  /** The byte-order mark, the zero-width units and U+FFFE/U+FFFF vanish;
      every other non-ASCII unit outside the typographic table becomes exactly
      one space. */
  lemma DeletedAndBlankedUnits(u: Unit)
    ensures (u == 0xFEFF || 0x200B <= u <= 0x200D || u == 0xFFFE || u == 0xFFFF) ==> Sanitize([u]) == []
    ensures u > 0x7F && !(u == 0xFEFF || 0x200B <= u <= 0x200D || u == 0xFFFE || u == 0xFFFF)
            && !(0x2012 <= u <= 0x2015) && u !in {0x2018, 0x2019, 0x201C, 0x201D, 0x2022, 0x2026}
            ==> Sanitize([u]) == [0x20]
  {
    SanitizeUnit(u);
  }

  /** A character outside the Basic Multilingual Plane is a surrogate pair in
      a JavaScript string, and each half becomes a space. */
  lemma AstralCharacterBecomesTwoSpaces(c: char)
    requires c as int >= 0x1_0000
    ensures Sanitize(Utf16([c])) == [0x20, 0x20]
  {
    var e := EncodeChar(c);
    assert [c][1..] == [];
    assert Utf16([c]) == e;
    assert e == [e[0]] + [e[1]];
    assert IsHighSurrogate(e[0]) && IsLowSurrogate(e[1]);
    SanitizeConcat([e[0]], [e[1]]);
    SanitizeUnit(e[0]);
    SanitizeUnit(e[1]);
  }
}
