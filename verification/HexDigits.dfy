/** Hexadecimal digits. */
module HexDigits {

  function DigitChar(d: int): char
    requires 0 <= d < 16
  {
    "0123456789abcdef"[d]
  }

  /** The value of a digit of either case, -1 for anything else. */
  function DigitOf(c: char): (d: int)
    ensures -1 <= d < 16
  {
    if '0' <= c <= '9' then (c - '0') as int
    else if 'a' <= c <= 'f' then (c - 'a') as int + 10
    else if 'A' <= c <= 'F' then (c - 'A') as int + 10
    else -1
  }

  lemma DigitIs(d: int)
    requires 0 <= d < 16
    ensures DigitOf(DigitChar(d)) == d && DigitChar(d) !in {',', '{', '}', '-', '+', ' ', 'x', 'X'}
  {
    assert DigitChar(d) == if d < 10 then '0' + d as char else 'a' + (d - 10) as char;
  }
}
