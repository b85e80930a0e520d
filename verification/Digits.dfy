/** Bytes, machine words and the digits that spell numbers. */
module Digits {
  type byte = n: nat | n < 256

  type Bytes = seq<byte>

  const MAX_UINT32: int := 0xFFFF_FFFF

  type uint32 = n: nat | n <= MAX_UINT32

  /** The value of a hexadecimal digit, or -1. */
  function HexDigit(c: char): (d: int)
    ensures -1 <= d < 16
  {
    if '0' <= c <= '9' then c as int - '0' as int
    else if 'a' <= c <= 'f' then c as int - 'a' as int + 10
    else if 'A' <= c <= 'F' then c as int - 'A' as int + 10
    else -1
  }

  /** Digits and their values, spelled out: sixteen characters in order, letters in either case, and no others. */
  lemma HexDigitIsExact(c: char, d: nat)
    requires d < 16
    ensures HexDigit(c) == d <==> c == "0123456789abcdef"[d] || c == "0123456789ABCDEF"[d]
    ensures HexDigit(c) < 0 <==> c !in "0123456789abcdefABCDEF"
  {
  }

  predicate IsDecimal(c: char) { '0' <= c <= '9' }
}
