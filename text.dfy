/**
 * Character classes and string helpers shared by the travel extractor and the
 * movie statistics: the ASCII part of Python's `\s`, `\d`, `[A-Za-z]`,
 * case-insensitive comparison, `int(...)` on a digit string, `str.strip()`,
 * the substring test `in`, and Java's decimal rendering of an `int`.
 */
module Text {

  /** Python's `\s` and `str.isspace()` on the ASCII range: tab to carriage
      return, the four information separators and the space. */
  predicate IsSpace(c: char) {
    c == ' ' || (9 <= c as int <= 13) || (28 <= c as int <= 31)
  }

  predicate IsDigit(c: char) {
    '0' <= c <= '9'
  }

  predicate IsAsciiLetter(c: char) {
    ('A' <= c <= 'Z') || ('a' <= c <= 'z')
  }

  /** ASCII lower-casing, as used by case-insensitive matching and `str.lower()`. */
  function Lower(c: char): char {
    if 'A' <= c <= 'Z' then (c as int + 32) as char else c
  }

  function LowerStr(s: string): (r: string)
    ensures |r| == |s|
    ensures forall k :: 0 <= k < |s| ==> r[k] == Lower(s[k])
  {
    seq(|s|, k requires 0 <= k < |s| => Lower(s[k]))
  }

  /** `lit` occurs in `t` at position `i`, letters compared without case. */
  predicate LiteralAt(t: string, i: nat, lit: string) {
    i + |lit| <= |t| && forall k :: 0 <= k < |lit| ==> Lower(t[i + k]) == Lower(lit[k])
  }

  /** The character classes the fixed patterns repeat with `+` or `*`. */
  datatype CharClass = Digits | Spaces | LettersOrSpaces

  predicate InClass(c: char, cls: CharClass) {
    match cls
    case Digits => IsDigit(c)
    case Spaces => IsSpace(c)
    case LettersOrSpaces => IsAsciiLetter(c) || IsSpace(c)
  }

  /** Every character of `t[i..j]` belongs to `cls`. */
  predicate AllIn(t: string, i: nat, j: nat, cls: CharClass) {
    i <= j <= |t| && forall k :: i <= k < j ==> InClass(t[k], cls)
  }

  /** End of the longest run of `cls` characters that starts at `i`: where a
      greedy repetition of the class stops. */
  function RunEnd(t: string, i: nat, cls: CharClass): (e: nat)
    requires i <= |t|
    ensures AllIn(t, i, e, cls)
    ensures e == |t| || !InClass(t[e], cls)
    decreases |t| - i
  {
    if i < |t| && InClass(t[i], cls) then RunEnd(t, i + 1, cls) else i
  }

  /** A run of `cls` that cannot be extended is the longest one. */
  lemma RunEndUnique(t: string, i: nat, j: nat, cls: CharClass)
    requires AllIn(t, i, j, cls)
    requires j == |t| || !InClass(t[j], cls)
    ensures RunEnd(t, i, cls) == j
  {
  }

  /** Every run of `cls` from `i` ends at or before the longest one. */
  lemma RunEndMaximal(t: string, i: nat, j: nat, cls: CharClass)
    requires AllIn(t, i, j, cls)
    ensures j <= RunEnd(t, i, cls)
  {
  }

  /** A character that lower-cases to an ASCII letter is itself a letter, so it
      is neither a digit nor white space. */
  lemma LowerLetter(c: char)
    requires IsAsciiLetter(Lower(c))
    ensures IsAsciiLetter(c) && !IsDigit(c) && !IsSpace(c)
  {
  }

  function DigitValue(c: char): nat
    requires IsDigit(c)
  {
    c as int - '0' as int
  }

  predicate AllDigits(s: string) {
    forall k :: 0 <= k < |s| ==> IsDigit(s[k])
  }

  /** Python's `int(s)` on a string of ASCII digits (leading zeros allowed). The
      empty string, which gives 0 here, never reaches it: every digit group the
      patterns capture is non-empty. */
  function DecimalValue(s: string): nat
    requires AllDigits(s)
  {
    if s == [] then 0 else 10 * DecimalValue(s[..|s| - 1]) + DigitValue(s[|s| - 1])
  }

  function DigitChar(d: nat): (c: char)
    requires d < 10
    ensures IsDigit(c) && DigitValue(c) == d
  {
    (d + '0' as int) as char
  }

  /** The decimal digits of `n`, without leading zeros. */
  function DecimalDigits(n: nat): (s: string)
    ensures |s| >= 1 && AllDigits(s)
    ensures s[0] == '0' ==> s == "0"
  {
    if n < 10 then [DigitChar(n)] else DecimalDigits(n / 10) + [DigitChar(n % 10)]
  }

  /** Reading back the digits of `n` gives `n`. */
  lemma {:induction false} DecimalRoundTrip(n: nat)
    ensures DecimalValue(DecimalDigits(n)) == n
  {
    var s := DecimalDigits(n);
    if n >= 10 {
      assert s[..|s| - 1] == DecimalDigits(n / 10);
      DecimalRoundTrip(n / 10);
    }
  }

  /** `s` is the canonical decimal writing of `n`: digits reading back as
      `n`, with no leading zero unless `n` is 0 itself. */
  predicate IsDecimalOf(s: string, n: nat) {
    |s| >= 1 && AllDigits(s) && DecimalValue(s) == n && (s[0] == '0' ==> s == "0")
  }

  /** Java's string conversion of an `int` (`"" + i`). */
  function IntToString(i: int): (s: string)
    ensures |s| >= 1
    ensures i >= 0 ==> IsDecimalOf(s, i)
    ensures i < 0 ==> s[0] == '-' && IsDecimalOf(s[1..], -i)
  {
    DecimalRoundTrip(if i < 0 then -i else i);
    if i < 0 then "-" + DecimalDigits(-i) else DecimalDigits(i)
  }

  /** Python's `sub in s` on strings. */
  predicate Contains(s: string, sub: string) {
    exists k :: 0 <= k <= |s| - |sub| && OccursAt(s, k, sub)
  }

  predicate OccursAt(s: string, k: int, sub: string) {
    0 <= k <= |s| - |sub| && s[k..k + |sub|] == sub
  }

  predicate EndsWith(s: string, suffix: string) {
    |suffix| <= |s| && s[|s| - |suffix|..] == suffix
  }

  /** Position of the first character `str.strip()` keeps. */
  function StripStart(s: string): (a: nat)
    ensures AllIn(s, 0, a, Spaces)
    ensures a == |s| || !IsSpace(s[a])
  {
    RunEnd(s, 0, Spaces)
  }

  /** Position just after the last non-space character of `s[..j]`, at least `lo`. */
  function TrailEnd(s: string, lo: nat, j: nat): (b: nat)
    requires lo <= j <= |s|
    ensures lo <= b <= j
    ensures AllIn(s, b, j, Spaces)
    ensures b == lo || !IsSpace(s[b - 1])
    decreases j
  {
    if j > lo && IsSpace(s[j - 1]) then TrailEnd(s, lo, j - 1) else j
  }

  /** Python's `str.strip()` with no argument: drops white space at both ends
      and nothing else. */
  function Strip(s: string): (r: string)
    ensures |r| <= |s|
    ensures r == [] || (!IsSpace(r[0]) && !IsSpace(r[|r| - 1]))
    ensures StripStart(s) + |r| <= |s|
    ensures r == s[StripStart(s)..StripStart(s) + |r|]
    ensures AllIn(s, StripStart(s) + |r|, |s|, Spaces)
  {
    var a := StripStart(s);
    s[a..TrailEnd(s, a, |s|)]
  }
}
