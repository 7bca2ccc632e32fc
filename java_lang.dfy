/**
 * The two pieces of Java library behaviour the colour parser relies on:
 * `Integer.parseInt` (restricted to ASCII digits) and the `%` operator on `int`,
 * which truncates toward zero.
 */
module JavaLang {
  import opened Wrappers

  predicate IsDigit(c: char) {
    '0' <= c <= '9'
  }

  function DigitValue(c: char): (d: nat)
    requires IsDigit(c)
    ensures d < 10
  {
    (c as int) - ('0' as int)
  }

  function DigitChar(d: nat): (c: char)
    requires d < 10
    ensures IsDigit(c) && DigitValue(c) == d
  {
    (('0' as int) + d) as char
  }

  /**
   * `Integer.parseInt` applied to the two-character string `[first, second]`:
   * an optional `+` or `-` sign followed by digits, anything else being a
   * NumberFormatException, modelled as None. Two characters never overflow an `int`.
   */
  function ParseIntPair(first: char, second: char): (r: Option<int>)
    ensures r.Some? ==> -9 <= r.value <= 99
  {
    if !IsDigit(second) then None
    else if first == '+' then Some(DigitValue(second))
    else if first == '-' then Some(-(DigitValue(second) as int))
    else if IsDigit(first) then Some(10 * DigitValue(first) + DigitValue(second))
    else None
  }

  /** Java's `a % n` for `n > 0`: the remainder takes the sign of the dividend. */
  function JavaRem(a: int, n: int): (r: int)
    requires n > 0
    ensures 0 <= a ==> r == a % n
    ensures a < 0 ==> -n < r <= 0
  {
    if a >= 0 then a % n else -((-a) % n)
  }
}
