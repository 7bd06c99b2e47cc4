/**
 * The JavaScript string built-ins that the core relies on: number-to-string
 * conversion, `parseInt` (decimal), `Array.prototype.join`, `String.prototype.split`
 * with a one-character separator, ASCII case mapping, the `\s` class / `trim` and
 * `startsWith`.  Strings are sequences of code points.
 */
module Strings {
  import opened Wrappers

  predicate IsDigit(c: char) {
    '0' <= c <= '9'
  }

  predicate IsAsciiLower(c: char) {
    'a' <= c <= 'z'
  }

  predicate IsAsciiUpper(c: char) {
    'A' <= c <= 'Z'
  }

  /**
   * The characters matched by the regular-expression class `\s` and stripped by
   * `trim`: ECMAScript WhiteSpace (tab, vertical tab, form feed, space, no-break
   * space, byte-order mark and the Zs space separators) plus LineTerminator.
   */
  predicate IsSpace(c: char) {
    var n := c as int;
    if n < 0x80 then n == 0x20 || 0x09 <= n <= 0x0D
    else
      n == 0xA0 || n == 0x1680 || (0x2000 <= n <= 0x200A) || n == 0x2028 || n == 0x2029
      || n == 0x202F || n == 0x205F || n == 0x3000 || n == 0xFEFF
  }

  /** KELVIN SIGN, whose lower case is the ASCII letter 'k'. */
  const KelvinSign: char := '\U{212A}'

  /** LATIN CAPITAL LETTER I WITH DOT ABOVE, whose lower case is 'i' followed by U+0307. */
  const CapitalIWithDot: char := '\U{0130}'

  /**
   * `toLowerCase` on one character, for every character whose lower case starts with
   * an ASCII character: the ASCII capitals, the Kelvin sign and the dotted capital I.
   * Of the dotted I's two-character lower case only the 'i' is kept.  Every other
   * character is left as it is.
   */
  function LowerChar(c: char): (d: char)
    ensures !IsAsciiUpper(d)
    ensures IsAsciiUpper(c) ==> d as int == c as int + 32
    ensures c == KelvinSign ==> d == 'k'
    ensures c == CapitalIWithDot ==> d == 'i'
    ensures !IsAsciiUpper(c) && c != KelvinSign && c != CapitalIWithDot ==> d == c
  {
    if IsAsciiUpper(c) then (c as int + 32) as char
    else if c == KelvinSign then 'k'
    else if c == CapitalIWithDot then 'i'
    else c
  }

  /** `toUpperCase` on one character, for the ASCII range. */
  function UpperChar(c: char): (d: char)
    ensures !IsAsciiLower(d)
    ensures IsAsciiLower(c) ==> d as int == c as int - 32
    ensures !IsAsciiLower(c) ==> d == c
  {
    if IsAsciiLower(c) then (c as int - 32) as char else c
  }

  function Lower(s: string): string {
    seq(|s|, i requires 0 <= i < |s| => LowerChar(s[i]))
  }

  function Upper(s: string): string {
    seq(|s|, i requires 0 <= i < |s| => UpperChar(s[i]))
  }

  predicate StartsWith(s: string, prefix: string) {
    prefix <= s
  }

  predicate EndsWith(s: string, suffix: string) {
    |suffix| <= |s| && s[|s| - |suffix|..] == suffix
  }

  /** A string starts with its first part, however many parts follow. */
  lemma PrefixOfConcat(a: string, b: string, c: string)
    ensures a <= a + b + c
  {
    assert (a + b + c)[..|a|] == a;
  }

  // ---------------------------------------------------------------- trim

  function TrimStart(s: string): (r: string)
    ensures |r| <= |s| && r == s[|s| - |r|..]
    ensures r == [] || !IsSpace(r[0])
    ensures forall i :: 0 <= i < |s| - |r| ==> IsSpace(s[i])
    decreases |s|
  {
    if |s| > 0 && IsSpace(s[0]) then TrimStart(s[1..]) else s
  }

  function TrimEnd(s: string): (r: string)
    ensures |r| <= |s| && r == s[..|r|]
    ensures r == [] || !IsSpace(r[|r| - 1])
    ensures forall i :: |r| <= i < |s| ==> IsSpace(s[i])
    decreases |s|
  {
    if |s| > 0 && IsSpace(s[|s| - 1]) then TrimEnd(s[..|s| - 1]) else s
  }

  /** A string that does not start with white space is its own `trimStart`. */
  lemma TrimStartNoLeadingSpace(s: string)
    requires s == [] || !IsSpace(s[0])
    ensures TrimStart(s) == s
  {
  }

  /** `String.prototype.trim`; `TrimIsSlice` shows it keeps a slice of `s`. */
  function Trim(s: string): (r: string)
    ensures r == [] || (!IsSpace(r[0]) && !IsSpace(r[|r| - 1]))
  {
    var start := TrimStart(s);
    var r := TrimEnd(start);
    assert r != [] ==> r[0] == start[0];
    r
  }

  /** A string with no white space at either end is its own trim. */
  lemma TrimNoSpace(s: string)
    requires forall i :: 0 <= i < |s| ==> !IsSpace(s[i])
    ensures Trim(s) == s
  {
  }

  /** Trimming keeps a contiguous piece of the input and drops only white space around it. */
  lemma TrimIsSlice(s: string) returns (a: int, b: int)
    ensures 0 <= a <= b <= |s| && Trim(s) == s[a..b]
    ensures forall i :: 0 <= i < a ==> IsSpace(s[i])
    ensures forall i :: b <= i < |s| ==> IsSpace(s[i])
    ensures a < b ==> !IsSpace(s[a]) && !IsSpace(s[b - 1])
  {
    a, b := SliceBetween(s, TrimStart(s), Trim(s), IsSpace);
    SliceEnds(s, Trim(s), a, b, IsSpace);
  }

  /** The ends of a slice are the ends of the string it equals. */
  lemma SliceEnds(s: string, core: string, a: int, b: int, p: char -> bool)
    requires 0 <= a <= b <= |s| && core == s[a..b]
    requires core == [] || (!p(core[0]) && !p(core[|core| - 1]))
    ensures a < b ==> !p(s[a]) && !p(s[b - 1])
  {
    if a < b {
      assert s[a] == core[0] && s[b - 1] == core[|core| - 1];
    }
  }

  /**
   * A prefix `core` of a suffix `start` of `s` is the slice of `s` between the
   * characters dropped in front and those dropped behind.
   */
  lemma SliceBetween(s: string, start: string, core: string, p: char -> bool) returns (a: int, b: int)
    requires |start| <= |s| && start == s[|s| - |start|..]
    requires forall i :: 0 <= i < |s| - |start| ==> p(s[i])
    requires |core| <= |start| && core == start[..|core|]
    requires forall i :: |core| <= i < |start| ==> p(start[i])
    ensures 0 <= a <= b <= |s| && core == s[a..b]
    ensures forall i :: 0 <= i < a ==> p(s[i])
    ensures forall i :: b <= i < |s| ==> p(s[i])
  {
    a := |s| - |start|;
    b := a + |core|;
    forall i | 0 <= i < |core| ensures core[i] == s[a..b][i] {
      assert core[i] == start[i] && start[i] == s[a + i];
    }
    forall i | b <= i < |s| ensures p(s[i]) {
      assert s[i] == start[i - a];
    }
  }

  // ---------------------------------------------------------------- numbers

  function DigitChar(d: nat): (c: char)
    requires d < 10
    ensures IsDigit(c) && c as int - '0' as int == d
  {
    ('0' as int + d) as char
  }

  /** The decimal rendering of a non-negative integer, as `String(n)` / `${n}` print it. */
  function NatToString(n: nat): (s: string)
    ensures |s| >= 1
    ensures forall i :: 0 <= i < |s| ==> IsDigit(s[i])
    ensures n < 10 <==> |s| == 1
    decreases n
  {
    if n < 10 then [DigitChar(n)] else NatToString(n / 10) + [DigitChar(n % 10)]
  }

  /** `String(n)` for an integer: a minus sign, then the digits of the magnitude. */
  function IntToString(n: int): (s: string)
    ensures |s| >= 1
    ensures n >= 0 ==> s == NatToString(n)
    ensures n < 0 ==> s == "-" + NatToString(-n)
  {
    if n < 0 then "-" + NatToString(-n) else NatToString(n)
  }

  /** The value of a string of decimal digits. */
  function DigitsValue(s: string): (n: int)
    requires forall i :: 0 <= i < |s| ==> IsDigit(s[i])
    ensures n >= 0
  {
    if s == [] then 0
    else
      assert IsDigit(s[|s| - 1]);
      DigitsValue(s[..|s| - 1]) * 10 + (s[|s| - 1] as int - '0' as int)
  }

  /** The longest prefix of `s` made of decimal digits. */
  function DigitPrefix(s: string): (d: string)
    ensures d <= s
    ensures forall i :: 0 <= i < |d| ==> IsDigit(s[i])
    ensures |d| < |s| ==> !IsDigit(s[|d|])
  {
    if |s| > 0 && IsDigit(s[0]) then [s[0]] + DigitPrefix(s[1..]) else []
  }

  /**
   * `parseInt(s)` with no radix, for decimal input: leading white space is
   * skipped, an optional sign is read, then the longest run of digits; `None`
   * stands for `NaN` (no digits at all).
   */
  function ParseInt(s: string): Option<int> {
    ParseSigned(TrimStart(s))
  }

  /** `parseInt` after the leading white space: an optional sign, then the longest run of digits. */
  function ParseSigned(t: string): Option<int> {
    var negative := |t| > 0 && t[0] == '-';
    var body := if |t| > 0 && (t[0] == '-' || t[0] == '+') then t[1..] else t;
    var digits := DigitPrefix(body);
    if digits == [] then None
    else Some(if negative then -DigitsValue(digits) else DigitsValue(digits))
  }

  lemma {:induction false} DigitsValueOfNatToString(n: nat)
    ensures DigitsValue(NatToString(n)) == n
    decreases n
  {
    if n >= 10 {
      var s := NatToString(n);
      assert s[..|s| - 1] == NatToString(n / 10);
      DigitsValueOfNatToString(n / 10);
    }
  }

  lemma {:induction false} DigitPrefixOfDigits(s: string)
    requires forall i :: 0 <= i < |s| ==> IsDigit(s[i])
    ensures DigitPrefix(s) == s
    decreases |s|
  {
    if |s| > 0 {
      DigitPrefixOfDigits(s[1..]);
    }
  }

  /** A string of decimal digits parses to its own value. */
  lemma ParseIntOfDigits(s: string)
    requires |s| > 0
    requires forall i :: 0 <= i < |s| ==> IsDigit(s[i])
    ensures ParseInt(s) == Some(DigitsValue(s))
  {
    assert IsDigit(s[0]);
    TrimStartNoLeadingSpace(s);
    SignedOfDigits(s);
  }

  lemma SignedOfDigits(s: string)
    requires |s| > 0
    requires forall i :: 0 <= i < |s| ==> IsDigit(s[i])
    ensures ParseSigned(s) == Some(DigitsValue(s))
  {
    assert IsDigit(s[0]);
    assert s[0] != '-' && s[0] != '+';
    DigitPrefixOfDigits(s);
    assert DigitPrefix(s) == s;
  }

  /** A minus sign followed by the digits of `-n` parses to `n`. */
  lemma ParseIntOfNegative(s: string, d: string, n: int)
    requires |s| > 0 && s[0] == '-' && s[1..] == d && |d| > 0
    requires forall i :: 0 <= i < |d| ==> IsDigit(d[i])
    requires DigitsValue(d) == -n
    ensures ParseInt(s) == Some(n)
  {
    TrimStartNoLeadingSpace(s);
    SignedOfNegative(s, d, n);
  }

  lemma SignedOfNegative(t: string, d: string, n: int)
    requires |t| > 0 && t[0] == '-' && t[1..] == d && |d| > 0
    requires forall i :: 0 <= i < |d| ==> IsDigit(d[i])
    requires DigitsValue(d) == -n
    ensures ParseSigned(t) == Some(n)
  {
    DigitPrefixOfDigits(d);
    assert DigitPrefix(t[1..]) == d;
  }

  lemma SignThenDigits(d: string)
    ensures ("-" + d)[0] == '-' && ("-" + d)[1..] == d
  {
  }

  /** Rendering an integer and parsing it back gives the integer: `parseInt(String(n)) == n`. */
  lemma ParseIntOfIntToString(n: int)
    ensures ParseInt(IntToString(n)) == Some(n)
  {
    if n < 0 {
      NegativeRoundTrip(n);
    } else {
      NonNegativeRoundTrip(n);
    }
  }

  /** Digits followed by a non-digit: the digit run ends where the digits do. */
  lemma {:induction false} DigitPrefixOfDigitsThen(d: string, u: string)
    requires forall i :: 0 <= i < |d| ==> IsDigit(d[i])
    requires u == [] || !IsDigit(u[0])
    ensures DigitPrefix(d + u) == d
    decreases |d|
  {
    if |d| == 0 {
      assert d + u == u;
    } else {
      assert (d + u)[0] == d[0] && (d + u)[1..] == d[1..] + u;
      DigitPrefixOfDigitsThen(d[1..], u);
    }
  }

  /**
   * `parseInt(`${n}${u}`)` reads `n` back when the text after the number does not
   * start with a digit: `parseInt` stops at the first character that is not one.
   */
  lemma ParseIntOfIntToStringThen(n: int, u: string)
    requires u == [] || !IsDigit(u[0])
    ensures ParseInt(IntToString(n) + u) == Some(n)
  {
    if n < 0 {
      NegativeThen(n, u);
    } else {
      NonNegativeThen(n, u);
    }
  }

  lemma NegativeThen(n: int, u: string)
    requires n < 0 && (u == [] || !IsDigit(u[0]))
    ensures ParseInt(IntToString(n) + u) == Some(n)
  {
    DigitsValueOfNatToString(-n);
    SignThenDigitsThen(IntToString(n), NatToString(-n), u, n);
  }

  lemma SignThenDigitsThen(x: string, d: string, u: string, n: int)
    requires x == "-" + d && |d| > 0 && forall i :: 0 <= i < |d| ==> IsDigit(d[i])
    requires DigitsValue(d) == -n && (u == [] || !IsDigit(u[0]))
    ensures ParseInt(x + u) == Some(n)
  {
    SignThenRest(x, d, u);
    DigitPrefixOfDigitsThen(d, u);
    SignedOfNegativeThen(x + u, d, u, n);
  }

  lemma SignThenRest(x: string, d: string, u: string)
    requires x == "-" + d
    ensures |x + u| > 0 && (x + u)[0] == '-' && (x + u)[1..] == d + u
  {
    assert x + u == "-" + (d + u);
  }

  lemma NonNegativeThen(n: int, u: string)
    requires n >= 0 && (u == [] || !IsDigit(u[0]))
    ensures ParseInt(IntToString(n) + u) == Some(n)
  {
    var d := NatToString(n);
    DigitPrefixOfDigitsThen(d, u);
    DigitsValueOfNatToString(n);
    SignedOfDigitsThen(d, u);
  }

  lemma SignedOfDigitsThen(d: string, u: string)
    requires |d| > 0 && forall i :: 0 <= i < |d| ==> IsDigit(d[i])
    requires DigitPrefix(d + u) == d
    ensures ParseInt(d + u) == Some(DigitsValue(d))
  {
    var s := d + u;
    assert s[0] == d[0] && IsDigit(s[0]);
    TrimStartNoLeadingSpace(s);
  }

  lemma SignedOfNegativeThen(s: string, d: string, u: string, n: int)
    requires |s| > 0 && s[0] == '-' && s[1..] == d + u
    requires |d| > 0 && forall i :: 0 <= i < |d| ==> IsDigit(d[i])
    requires DigitPrefix(d + u) == d && DigitsValue(d) == -n
    ensures ParseInt(s) == Some(n)
  {
    TrimStartNoLeadingSpace(s);
  }

  lemma NegativeRoundTrip(n: int)
    requires n < 0
    ensures ParseInt(IntToString(n)) == Some(n)
  {
    DigitsValueOfNatToString(-n);
    ParseIntOfSignThenDigits(IntToString(n), NatToString(-n), n);
  }

  lemma ParseIntOfSignThenDigits(s: string, d: string, n: int)
    requires s == "-" + d && |d| > 0
    requires forall i :: 0 <= i < |d| ==> IsDigit(d[i])
    requires DigitsValue(d) == -n
    ensures ParseInt(s) == Some(n)
  {
    SignThenDigits(d);
    ParseIntOfNegative(s, d, n);
  }

  lemma NonNegativeRoundTrip(n: int)
    requires n >= 0
    ensures ParseInt(IntToString(n)) == Some(n)
  {
    DigitsValueOfNatToString(n);
    ParseIntOfDigits(IntToString(n));
  }

  // ---------------------------------------------------------------- join / split

  /** `parts.join(sep)`. */
  function Join(parts: seq<string>, sep: string): (s: string)
    ensures |parts| == 1 ==> s == parts[0]
    ensures |parts| == 0 ==> s == []
  {
    if |parts| == 0 then []
    else if |parts| == 1 then parts[0]
    else parts[0] + sep + Join(parts[1..], sep)
  }

  /** `s.split(c)`: the pieces between the occurrences of `c`, empty ones included. */
  function Split(s: string, c: char): (pieces: seq<string>)
    ensures |pieces| >= 1
    ensures forall i :: 0 <= i < |pieces| ==> c !in pieces[i]
    decreases |s|
  {
    if s == [] then [[]]
    else
      var rest := Split(s[1..], c);
      if s[0] == c then [[]] + rest else [[s[0]] + rest[0]] + rest[1..]
  }

  /** Joining the pieces of a split with the separator gives the original string back. */
  lemma {:induction false} JoinSplit(s: string, c: char)
    ensures Join(Split(s, c), [c]) == s
    decreases |s|
  {
    if s != [] {
      var rest := Split(s[1..], c);
      JoinSplit(s[1..], c);
      if s[0] == c {
        assert Split(s, c) == [[]] + rest;
        assert ([[]] + rest)[1..] == rest;
      } else {
        var pieces := [[s[0]] + rest[0]] + rest[1..];
        assert Split(s, c) == pieces;
        if |rest| > 1 {
          assert pieces[1..] == rest[1..];
          assert Join(rest, [c]) == rest[0] + [c] + Join(rest[1..], [c]);
        }
      }
    }
  }
}
