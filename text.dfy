/** Character classes and decimal rendering of naturals.

    The source uses `Character.isLetter`, `isUpperCase`, `isDigit` and
    `isWhitespace`, which are Unicode-aware library calls; this model uses
    their ASCII restrictions. */
module Text {

  predicate IsUpper(c: char) { 'A' <= c <= 'Z' }

  predicate IsLower(c: char) { 'a' <= c <= 'z' }

  predicate IsLetter(c: char) { IsUpper(c) || IsLower(c) }

  predicate IsDigit(c: char) { '0' <= c <= '9' }

  /** `Character.isWhitespace` on ASCII: space, the controls from tab to
      carriage return, and the four information separators. */
  predicate IsWhitespace(c: char)
  {
    c == ' ' || '\t' <= c <= '\r' || '\U{1C}' <= c <= '\U{1F}'
  }

  predicate AllDigits(s: string)
  {
    forall i :: 0 <= i < |s| ==> IsDigit(s[i])
  }

  function DigitChar(d: nat): (c: char)
    requires d < 10
    ensures IsDigit(c) && (c as int) - ('0' as int) == d
  {
    (('0' as int) + d) as char
  }

  /** Decimal rendering of a natural, as Java's string concatenation with an
      `int` produces it (no sign, no leading zeros). */
  function NatToString(n: nat): (s: string)
    ensures |s| > 0 && AllDigits(s)
  {
    if n < 10 then [DigitChar(n)] else NatToString(n / 10) + [DigitChar(n % 10)]
  }

  /** Decimal rendering of an `int`, as Java's string concatenation
      produces it: a leading '-' before the digits of a negative number. */
  function IntToString(n: int): (s: string)
    ensures n >= 0 ==> s == NatToString(n)
    ensures n < 0 ==> |s| > 1 && s[0] == '-' && AllDigits(s[1..])
  {
    if n < 0 then "-" + NatToString(-n) else NatToString(n)
  }

  /** The value of a string of decimal digits: the independent reading used to
      prove that `NatToString` loses nothing. */
  function DigitsValue(s: string): nat
    requires AllDigits(s)
  {
    if s == [] then 0
    else 10 * DigitsValue(s[..|s| - 1]) + ((s[|s| - 1] as int) - ('0' as int))
  }

  lemma {:induction false} NatToStringRoundTrip(n: nat)
    ensures DigitsValue(NatToString(n)) == n
  {
    if n >= 10 {
      var s := NatToString(n);
      assert s[..|s| - 1] == NatToString(n / 10);
      NatToStringRoundTrip(n / 10);
    }
  }

  lemma NatToStringInjective(m: nat, n: nat)
    ensures NatToString(m) == NatToString(n) <==> m == n
  {
    if NatToString(m) == NatToString(n) {
      NatToStringRoundTrip(m);
      NatToStringRoundTrip(n);
    }
  }

  /** `String.hashCode`: h = 31 * h + c over the characters, wrapped to a
      signed 32-bit integer. */
  function JavaHash(s: string): (h: int)
    ensures -0x8000_0000 <= h < 0x8000_0000
  {
    var u := UnsignedHash(s);
    if u < 0x8000_0000 then u else u - 0x1_0000_0000
  }

  function UnsignedHash(s: string): (u: int)
    ensures 0 <= u < 0x1_0000_0000
  {
    if s == [] then 0
    else (31 * UnsignedHash(s[..|s| - 1]) + (s[|s| - 1] as int)) % 0x1_0000_0000
  }
}
