/** ASCII character classes and ASCII case mapping, the part of Rust's `char` and
    `str` API that the validators use (`is_ascii_alphabetic`, `is_ascii_digit`,
    `to_digit(10)`, `to_uppercase`). Case mapping is ASCII-only: every character
    outside `a`-`z` is left as it is. */
module Ascii {

  predicate IsAlphabetic(c: char) {
    'A' <= c <= 'Z' || 'a' <= c <= 'z'
  }

  predicate IsUpper(c: char) {
    'A' <= c <= 'Z'
  }

  predicate IsLower(c: char) {
    'a' <= c <= 'z'
  }

  predicate IsDigit(c: char) {
    '0' <= c <= '9'
  }

  /** `c.to_digit(10)` on a decimal digit. */
  function DigitValue(c: char): (d: int)
    requires IsDigit(c)
    ensures 0 <= d <= 9
    ensures c == ('0' as int + d) as char
  {
    c as int - '0' as int
  }

  function UpperChar(c: char): char {
    if IsLower(c) then (c as int - 32) as char else c
  }

  /** `s.to_uppercase()` under the ASCII-only reading: each lower-case letter
      becomes its upper-case partner, every other character is kept. */
  function ToUpper(s: string): (u: string)
    ensures |u| == |s|
    ensures forall i | 0 <= i < |s| :: IsAlphabetic(s[i]) <==> IsUpper(u[i])
    ensures forall i | 0 <= i < |s| :: !IsLower(s[i]) ==> u[i] == s[i]
    ensures forall i | 0 <= i < |s| :: IsLower(s[i]) ==> u[i] as int == s[i] as int - 32
  {
    seq(|s|, i requires 0 <= i < |s| => UpperChar(s[i]))
  }

  /** Upper-casing twice is upper-casing once. */
  lemma ToUpperIdempotent(s: string)
    ensures ToUpper(ToUpper(s)) == ToUpper(s)
  {
    var u := ToUpper(s);
    assert forall i | 0 <= i < |u| :: ToUpper(u)[i] == u[i];
  }

  /** Upper-casing keeps digits where they are and keeps non-digits non-digits. */
  lemma ToUpperKeepsDigits(s: string, i: int)
    requires 0 <= i < |s|
    ensures IsDigit(ToUpper(s)[i]) <==> IsDigit(s[i])
    ensures IsDigit(s[i]) ==> ToUpper(s)[i] == s[i]
  {
  }
}
