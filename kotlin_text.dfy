/**
 * The pieces of the Kotlin/JVM standard library that the clipboard code
 * leans on, written out: blank tests, prefix and suffix tests, the
 * decimal text form of integers and its parser, and fixed-width integer
 * arithmetic.
 */
module KotlinText {
  import opened Wrappers
  import opened Model

  // ---------------------------------------------------------------------------
  // Blank strings

  /**
   * Kotlin's `Char.isWhitespace()` on the JVM: `Character.isWhitespace` or
   * `Character.isSpaceChar` (the separators of categories Zs, Zl and Zp).
   */
  predicate IsWhitespace(c: char) {
    || c == '\t' || c == '\n' || c == '\U{B}' || c == '\U{C}' || c == '\r'
    || ('\U{1C}' <= c <= '\U{1F}')
    || c == ' ' || c == '\U{A0}' || c == '\U{1680}'
    || ('\U{2000}' <= c <= '\U{200A}')
    || c == '\U{2028}' || c == '\U{2029}' || c == '\U{202F}' || c == '\U{205F}' || c == '\U{3000}'
  }

  /** `CharSequence.isBlank()`: empty, or whitespace only. */
  predicate IsBlank(s: string)
    ensures s == [] ==> IsBlank(s)
    ensures IsBlank(s) && |s| > 0 ==> IsWhitespace(s[0]) && IsWhitespace(s[|s| - 1])
  {
    forall i :: 0 <= i < |s| ==> IsWhitespace(s[i])
  }

  /** A concatenation is blank exactly when both of its parts are. */
  lemma BlankConcat(a: string, b: string)
    ensures IsBlank(a + b) <==> IsBlank(a) && IsBlank(b)
  {
    if IsBlank(a + b) {
      forall i | 0 <= i < |a|
        ensures IsWhitespace(a[i])
      {
        assert a[i] == (a + b)[i];
      }
      forall i | 0 <= i < |b|
        ensures IsWhitespace(b[i])
      {
        assert b[i] == (a + b)[|a| + i];
      }
    }
  }

  // ---------------------------------------------------------------------------
  // Prefixes and suffixes

  /** `String.startsWith(prefix)`. */
  predicate StartsWith(s: string, prefix: string) {
    |prefix| <= |s| && s[..|prefix|] == prefix
  }

  /** ASCII upper case of a character; other characters are unchanged. */
  function AsciiUpper(c: char): char {
    if 'a' <= c <= 'z' then (c as int - 32) as char else c
  }

  /**
   * Case-insensitive match of one input character against a lower-case
   * ASCII letter or punctuation `p`, as `java.util.regex` does with
   * CASE_INSENSITIVE and UNICODE_CASE (Kotlin's IGNORE_CASE sets both):
   * besides the two ASCII cases, the dotted capital I (U+0130) and the
   * dotless small i (U+0131) fold onto `i`.
   */
  predicate CharMatchesIgnoreCase(c: char, p: char) {
    c == p || c == AsciiUpper(p) || (p == 'i' && (c == '\U{130}' || c == '\U{131}'))
  }

  /** `s` ends with `suffix`, comparing characters case-insensitively. */
  predicate EndsWithIgnoreCase(s: string, suffix: string) {
    |suffix| <= |s| &&
    forall i :: 0 <= i < |suffix| ==> CharMatchesIgnoreCase(s[|s| - |suffix| + i], suffix[i])
  }

  /** The characters that `.` in a Java regular expression does not match. */
  predicate IsLineTerminator(c: char) {
    c == '\n' || c == '\r' || c == '\U{85}' || c == '\U{2028}' || c == '\U{2029}'
  }

  // ---------------------------------------------------------------------------
  // Decimal text of integers

  predicate IsDigit(c: char) {
    '0' <= c <= '9'
  }

  function DigitChar(d: nat): (c: char)
    requires d < 10
    ensures IsDigit(c)
  {
    ('0' as int + d) as char
  }

  function DigitValue(c: char): nat
    requires IsDigit(c)
  {
    c as int - '0' as int
  }

  predicate AllDigits(s: string) {
    forall i :: 0 <= i < |s| ==> IsDigit(s[i])
  }

  /** The number a string of decimal digits denotes. */
  function DigitsValue(s: string): nat
    requires AllDigits(s)
  {
    if s == [] then 0 else DigitsValue(s[..|s| - 1]) * 10 + DigitValue(s[|s| - 1])
  }

  /** Decimal digits of `n`, without leading zeros. */
  function NatToDigits(n: nat): (s: string)
    ensures AllDigits(s) && |s| > 0
  {
    if n < 10 then [DigitChar(n)] else NatToDigits(n / 10) + [DigitChar(n % 10)]
  }

  /** `Int.toString()` / `Long.toString()`: a minus sign for negatives, then the digits. */
  function IntToString(n: int): string {
    if n < 0 then "-" + NatToDigits(-n) else NatToDigits(n)
  }

  const IntMin: int := -0x8000_0000
  const IntMax: int := 0x7FFF_FFFF

  /**
   * `String.toIntOrNull()`: an optional leading `-` or `+` followed by at
   * least one decimal digit, with a value in `Int` range; anything else is
   * null. The structure follows the Kotlin implementation: a first
   * character below '0' may only be a sign.
   */
  function ParseInt(s: string): (r: Option<int32>)
    ensures r.Some? ==> |s| > 0
    ensures r.Some? ==>
              || (AllDigits(s) && r.value == DigitsValue(s))
              || (|s| > 1 && s[0] == '+' && AllDigits(s[1..]) && r.value == DigitsValue(s[1..]))
              || (|s| > 1 && s[0] == '-' && AllDigits(s[1..]) && r.value == -(DigitsValue(s[1..]) as int))
    ensures |s| > 0 && AllDigits(s) && DigitsValue(s) <= IntMax ==> r == Some(DigitsValue(s) as int)
    ensures |s| > 1 && s[0] == '+' && AllDigits(s[1..]) && DigitsValue(s[1..]) <= IntMax ==>
              r == Some(DigitsValue(s[1..]) as int)
    ensures |s| > 1 && s[0] == '-' && AllDigits(s[1..]) && DigitsValue(s[1..]) <= -IntMin ==>
              r == Some(-(DigitsValue(s[1..]) as int))
  {
    if |s| == 0 then None
    else if s[0] < '0' then
      if |s| == 1 then None
      else if s[0] == '-' then
        if AllDigits(s[1..]) && -(DigitsValue(s[1..]) as int) >= IntMin then Some(-(DigitsValue(s[1..]) as int))
        else None
      else if s[0] == '+' then
        if AllDigits(s[1..]) && DigitsValue(s[1..]) <= IntMax then Some(DigitsValue(s[1..]) as int)
        else None
      else None
    else if AllDigits(s) && DigitsValue(s) <= IntMax then Some(DigitsValue(s) as int)
    else None
  }

  lemma {:induction false} DigitsRoundTrip(n: nat)
    ensures DigitsValue(NatToDigits(n)) == n
  {
    if n >= 10 {
      var s := NatToDigits(n / 10) + [DigitChar(n % 10)];
      assert s[..|s| - 1] == NatToDigits(n / 10);
      DigitsRoundTrip(n / 10);
    }
  }

  /** Every `Int` written with `toString` parses back to itself with `toIntOrNull`. */
  lemma IntTextRoundTrip(n: int32)
    ensures ParseInt(IntToString(n)) == Some(n)
  {
    if n < 0 {
      var s := IntToString(n);
      assert s[1..] == NatToDigits(-(n as int));
      DigitsRoundTrip(-(n as int));
    } else {
      DigitsRoundTrip(n);
    }
  }

  /** Text that is not a number parses to nothing: a few shapes the settings store can hold. */
  lemma ParseIntRejects()
    ensures ParseInt("") == None && ParseInt("-") == None && ParseInt("+") == None
    ensures ParseInt("abc") == None && ParseInt("12a") == None && ParseInt(" 7") == None
  {
    assert !IsDigit("abc"[0]);
    assert !IsDigit("12a"[2]);
  }

  /** A decimal beyond the `Int` range, with or without a sign, parses to nothing. */
  lemma ParseIntRejectsOverflow(n: nat)
    requires n > IntMax
    ensures ParseInt(NatToDigits(n)) == None
    ensures ParseInt("+" + NatToDigits(n)) == None
    ensures n > -IntMin ==> ParseInt("-" + NatToDigits(n)) == None
  {
    DigitsRoundTrip(n);
    assert ("+" + NatToDigits(n))[1..] == NatToDigits(n);
    assert ("-" + NatToDigits(n))[1..] == NatToDigits(n);
  }

  // ---------------------------------------------------------------------------
  // UTF-8 sizes

  /** Bytes UTF-8 needs for one Unicode scalar value. */
  function Utf8Width(c: char): nat {
    if c as int < 0x80 then 1
    else if c as int < 0x800 then 2
    else if c as int < 0x1_0000 then 3
    else 4
  }

  /** `String.toByteArray().size`: the length of the UTF-8 encoding. */
  function Utf8Length(s: string): nat {
    if s == [] then 0 else Utf8Length(s[..|s| - 1]) + Utf8Width(s[|s| - 1])
  }

  /** A byte array's length is an `Int`, so only encodings up to `Int.MAX_VALUE` bytes exist. */
  predicate FitsByteArray(s: string) {
    Utf8Length(s) <= IntMax
  }

  /** The encoding takes one to four bytes per character, and exactly one for ASCII text. */
  lemma {:induction false} Utf8LengthBounds(s: string)
    ensures |s| <= Utf8Length(s) <= 4 * |s|
    ensures (forall i :: 0 <= i < |s| ==> s[i] as int < 0x80) ==> Utf8Length(s) == |s|
  {
    if s != [] {
      Utf8LengthBounds(s[..|s| - 1]);
    }
  }

  // ---------------------------------------------------------------------------
  // Floating point to integer

  /** `Float.toInt()`: truncation toward zero, saturating at the `Int` bounds. */
  function FloatToInt(r: real): (n: int32)
    ensures 0.0 <= r < IntMax as real ==> n >= 0 && n as real <= r < n as real + 1.0
    ensures IntMin as real < r <= 0.0 ==> n <= 0 && n as real - 1.0 < r <= n as real
    ensures r >= IntMax as real ==> n == IntMax
    ensures r <= IntMin as real ==> n == IntMin
  {
    var t := if r >= 0.0 then r.Floor else -((-r).Floor);
    if t < IntMin then IntMin as int32 else if t > IntMax then IntMax as int32 else t as int32
  }

  // ---------------------------------------------------------------------------
  // Booleans

  /**
   * `String.toBoolean()`, i.e. `equalsIgnoreCase("true")`: true exactly for
   * the four letters t, r, u, e in any mix of upper and lower case.
   */
  predicate ParseBoolean(s: string)
    ensures ParseBoolean(s) ==> |s| == 4 && s[0] in "tT" && s[1] in "rR" && s[2] in "uU" && s[3] in "eE"
    ensures |s| == 4 && s[0] in "tT" && s[1] in "rR" && s[2] in "uU" && s[3] in "eE" ==> ParseBoolean(s)
  {
    |s| == 4 && forall i :: 0 <= i < 4 ==> AsciiUpper(s[i]) == "TRUE"[i]
  }

  /** `Boolean.toString()`. */
  function BooleanToString(b: bool): string {
    if b then "true" else "false"
  }

  /** Booleans survive being written with `toString` and read with `toBoolean`. */
  lemma BooleanTextRoundTrip(b: bool)
    ensures ParseBoolean(BooleanToString(b)) == b
  {
    if !b {
      assert |BooleanToString(b)| == 5;
    }
  }

  // ---------------------------------------------------------------------------
  // Fixed-width arithmetic

  /** The two's-complement wrap-around of a 32-bit `Int` result. */
  function Wrap32(x: int): (r: int32)
    ensures -0x8000_0000 <= x < 0x8000_0000 ==> r == x
    ensures (r - x) % 0x1_0000_0000 == 0
  {
    (x + 0x8000_0000) % 0x1_0000_0000 - 0x8000_0000
  }

  /** The two's-complement wrap-around of a 64-bit `Long` result. */
  function Wrap64(x: int): (r: int64)
    ensures -0x8000_0000_0000_0000 <= x < 0x8000_0000_0000_0000 ==> r == x
    ensures (r - x) % 0x1_0000_0000_0000_0000 == 0
  {
    (x + 0x8000_0000_0000_0000) % 0x1_0000_0000_0000_0000 - 0x8000_0000_0000_0000
  }
}
