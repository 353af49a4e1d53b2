// Strings of decimal digits, as PHP's patterns and integer casts read them.
module Decimals {

  /** PHP_INT_MAX. */
  const MAX_INT: nat := 0x7fff_ffff_ffff_ffff

  predicate Digit(c: char)
  {
    '0' <= c <= '9'
  }

  predicate AllDigits(s: string)
  {
    forall c <- s :: Digit(c)
  }

  function Value(s: string): nat
    requires AllDigits(s)
  {
    if s == "" then 0 else assert Digit(s[|s| - 1]); 10 * Value(s[..|s| - 1]) + (s[|s| - 1] as int - '0' as int)
  }
}
