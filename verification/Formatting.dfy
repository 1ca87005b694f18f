/**
 The two numeric conversions the generator asks of `fprintf`: `%d` on a
 non-negative int and `%02x` on a byte (ISO/IEC 9899:2011, section 7.21.6.1).
 */
module Formatting {

  /** C's `char`, as an element of a file or of a C string: a character code below 256. */
  predicate IsByte(c: char) {
    c as int < 256
  }

  /** A string of bytes: the contents of a file. */
  type Bytes = s: string | forall i | 0 <= i < |s| :: IsByte(s[i])

  function Digit(d: nat): (c: char)
    requires d < 16
  {
    if d < 10 then '0' + d as char else 'a' + (d - 10) as char
  }

  /** `%d` */
  function Decimal(n: nat): (s: string)
    ensures |s| > 0
    ensures forall i | 0 <= i < |s| :: '0' <= s[i] <= '9'
    ensures n > 0 ==> s[0] != '0'
  {
    if n < 10 then [Digit(n)] else Decimal(n / 10) + [Digit(n % 10)]
  }

  /** `%02x` */
  function HexByte(c: char): (s: string)
    requires IsByte(c)
    ensures |s| == 2
  {
    [Digit(c as int / 16), Digit(c as int % 16)]
  }
}
