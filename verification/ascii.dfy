/**
 * Bytes as the adapters exchange them: a Java `byte` or a C++ `char`, both
 * signed eight-bit values, holding ASCII text.
 */
module Ascii {
  type Byte = x: int | -128 <= x < 128

  const DIGIT_0: Byte := 48
  const DIGIT_9: Byte := 57
  const UPPER_A: Byte := 65
  const UPPER_F: Byte := 70
  const LOWER_A: Byte := 97
  const LOWER_F: Byte := 102
  const MINUS: Byte := 45
  const PLUS: Byte := 43
  const NEWLINE: Byte := 10

  predicate IsDigit(b: int) { DIGIT_0 <= b <= DIGIT_9 }
  predicate IsLowerHex(b: int) { IsDigit(b) || LOWER_A <= b <= LOWER_F }
  predicate IsUpperHex(b: int) { UPPER_A <= b <= UPPER_F }
  predicate IsHex(b: int) { IsLowerHex(b) || IsUpperHex(b) }

  /** C's `isspace` in the "C" locale: space, tab, newline, vertical tab, form feed, carriage return. */
  predicate IsSpace(b: int) { b == 32 || 9 <= b <= 13 }
}
