// Decimal digits as Kotlin's `Char.isDigit()` and `Character.digit(c, 10)`
// see them: every character of Unicode category Nd. A Kotlin `Char` is one
// UTF-16 unit, so only the Nd blocks of the Basic Multilingual Plane can be
// digits; a digit outside it arrives as two surrogates, neither a digit.
module DecimalDigits {
  /** The zero of the Nd block of the Basic Multilingual Plane (Unicode 15)
      that holds c, each block running from zero to nine; -1 when c is in
      none. */
  function BlockZero(c: char): (z: int)
    ensures z == -1 || (z <= c as int < z + 10 && 0x30 <= z)
  {
    var n := c as int;
    if n < 0x0030 then -1 else if n <= 0x0039 then 0x0030
    else if n < 0x0660 then -1 else if n <= 0x0669 then 0x0660
    else if n < 0x06F0 then -1 else if n <= 0x06F9 then 0x06F0
    else if n < 0x07C0 then -1 else if n <= 0x07C9 then 0x07C0
    else if n < 0x0966 then -1 else if n <= 0x096F then 0x0966
    else if n < 0x09E6 then -1 else if n <= 0x09EF then 0x09E6
    else if n < 0x0A66 then -1 else if n <= 0x0A6F then 0x0A66
    else if n < 0x0AE6 then -1 else if n <= 0x0AEF then 0x0AE6
    else if n < 0x0B66 then -1 else if n <= 0x0B6F then 0x0B66
    else if n < 0x0BE6 then -1 else if n <= 0x0BEF then 0x0BE6
    else if n < 0x0C66 then -1 else if n <= 0x0C6F then 0x0C66
    else if n < 0x0CE6 then -1 else if n <= 0x0CEF then 0x0CE6
    else if n < 0x0D66 then -1 else if n <= 0x0D6F then 0x0D66
    else if n < 0x0DE6 then -1 else if n <= 0x0DEF then 0x0DE6
    else if n < 0x0E50 then -1 else if n <= 0x0E59 then 0x0E50
    else if n < 0x0ED0 then -1 else if n <= 0x0ED9 then 0x0ED0
    else if n < 0x0F20 then -1 else if n <= 0x0F29 then 0x0F20
    else if n < 0x1040 then -1 else if n <= 0x1049 then 0x1040
    else if n < 0x1090 then -1 else if n <= 0x1099 then 0x1090
    else if n < 0x17E0 then -1 else if n <= 0x17E9 then 0x17E0
    else if n < 0x1810 then -1 else if n <= 0x1819 then 0x1810
    else if n < 0x1946 then -1 else if n <= 0x194F then 0x1946
    else if n < 0x19D0 then -1 else if n <= 0x19D9 then 0x19D0
    else if n < 0x1A80 then -1 else if n <= 0x1A89 then 0x1A80
    else if n < 0x1A90 then -1 else if n <= 0x1A99 then 0x1A90
    else if n < 0x1B50 then -1 else if n <= 0x1B59 then 0x1B50
    else if n < 0x1BB0 then -1 else if n <= 0x1BB9 then 0x1BB0
    else if n < 0x1C40 then -1 else if n <= 0x1C49 then 0x1C40
    else if n < 0x1C50 then -1 else if n <= 0x1C59 then 0x1C50
    else if n < 0xA620 then -1 else if n <= 0xA629 then 0xA620
    else if n < 0xA8D0 then -1 else if n <= 0xA8D9 then 0xA8D0
    else if n < 0xA900 then -1 else if n <= 0xA909 then 0xA900
    else if n < 0xA9D0 then -1 else if n <= 0xA9D9 then 0xA9D0
    else if n < 0xA9F0 then -1 else if n <= 0xA9F9 then 0xA9F0
    else if n < 0xAA50 then -1 else if n <= 0xAA59 then 0xAA50
    else if n < 0xABF0 then -1 else if n <= 0xABF9 then 0xABF0
    else if n < 0xFF10 then -1 else if n <= 0xFF19 then 0xFF10
    else -1
  }

  /** `Char.isDigit()` */
  predicate IsDigit(c: char)
  {
    BlockZero(c) != -1
  }

  /** `Character.digit(c, 10)` of a digit: its place in its block. */
  function DigitOf(c: char): (d: nat)
    requires IsDigit(c)
    ensures d < 10
  {
    c as int - BlockZero(c)
  }

  predicate AllDigits(s: string)
  {
    forall i :: 0 <= i < |s| ==> IsDigit(s[i])
  }

  /** The value of a string of decimal digits, most significant first. */
  function DigitsValue(s: string): (v: nat)
    requires AllDigits(s)
  {
    if s == [] then 0 else 10 * DigitsValue(s[..|s| - 1]) + DigitOf(s[|s| - 1])
  }

  /** The ASCII digits are the first block, with their usual values. */
  lemma {:induction false} AsciiDigit(c: char)
    requires '0' <= c <= '9'
    ensures IsDigit(c) && DigitOf(c) == c as int - '0' as int
  {
  }

  /** No digit comes before '0'; in particular no sign, dash or space is one. */
  lemma {:induction false} NoDigitBelowZero(c: char)
    requires c < '0'
    ensures !IsDigit(c)
  {
  }

  /** Arabic-Indic one and two, and fullwidth one and two, are digits with the
      values 1 and 2. */
  lemma {:induction false} OtherScriptDigits()
    ensures IsDigit('\U{0661}') && DigitOf('\U{0661}') == 1
    ensures IsDigit('\U{0662}') && DigitOf('\U{0662}') == 2
    ensures IsDigit('\U{FF11}') && DigitOf('\U{FF11}') == 1
    ensures IsDigit('\U{FF12}') && DigitOf('\U{FF12}') == 2
  {
  }
}
