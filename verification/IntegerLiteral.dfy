/** Integer literals: the four bounded radix scanners and the token they yield. */
module IntegerLiteral {
  import opened Digits

  const MAX_INT32: int := 0x7FFF_FFFF

  datatype Radix = Binary | Octal | Decimal | Hex

  function Base(r: Radix): nat {
    match r case Binary => 2 case Octal => 8 case Decimal => 10 case Hex => 16
  }

  predicate IsDigit(r: Radix, c: char) { 0 <= HexDigit(c) < Base(r) }

  // ---------------------------------------------------------------- scanning

  datatype Scanned = Scanned(val: uint32, overflow: bool)

  /** What a scanner returns from the text left to read, the value so far, and whether a digit was seen. */
  function Scan(r: Radix, s: string, val: uint32, seen: bool): Scanned {
    if s == "" then Scanned(val, !seen)
    else if IsDigit(r, s[0]) then
      var next := val * Base(r) + HexDigit(s[0]);
      if next > MAX_UINT32 then Scanned(0, true) else Scan(r, s[1..], next, true)
    else if s[0] == '_' then
      if |s| == 1 || !IsDigit(r, s[1]) then Scanned(0, false) else Scan(r, s[1..], val, seen)
    else Scanned(val, !seen)
  }

  method ParseDecimalInteger(s: string, start: nat) returns (val: uint32, overflow: bool)
    requires start <= |s|
    ensures Scanned(val, overflow) == Scan(Decimal, s[start..], 0, false)
  {
    val := 0;
    var ptr, hasDigits := start, false;
    while ptr < |s|
      invariant start <= ptr <= |s|
      invariant Scan(Decimal, s[ptr..], val, hasDigits) == Scan(Decimal, s[start..], 0, false)
    {
      var c := s[ptr];
      assert s[ptr..][0] == c && s[ptr..][1..] == s[ptr + 1..];
      if '0' <= c <= '9' {
        var digit := c as int - '0' as int;
        if val > (MAX_UINT32 - digit) / 10 {
          return 0, true;
        }
        val := val * 10 + digit;
        hasDigits := true;
        ptr := ptr + 1;
      } else if c == '_' {
        ptr := ptr + 1;
        if ptr >= |s| || s[ptr] < '0' || s[ptr] > '9' {
          return 0, false;
        }
      } else {
        break;
      }
    }
    return val, !hasDigits;
  }

  method ParseHexInteger(s: string, start: nat) returns (val: uint32, overflow: bool)
    requires start <= |s|
    ensures Scanned(val, overflow) == Scan(Hex, s[start..], 0, false)
  {
    val := 0;
    var ptr, hasDigits := start, false;
    while ptr < |s|
      invariant start <= ptr <= |s|
      invariant Scan(Hex, s[ptr..], val, hasDigits) == Scan(Hex, s[start..], 0, false)
    {
      var c := s[ptr];
      assert s[ptr..][0] == c && s[ptr..][1..] == s[ptr + 1..];
      var digit: uint32;
      if '0' <= c <= '9' {
        digit := c as int - '0' as int;
      } else if 'a' <= c <= 'f' {
        digit := c as int - 'a' as int + 10;
      } else if 'A' <= c <= 'F' {
        digit := c as int - 'A' as int + 10;
      } else if c == '_' {
        ptr := ptr + 1;
        if ptr >= |s| || !IsDigit(Hex, s[ptr]) {
          return 0, false;
        }
        continue;
      } else {
        break;
      }
      if val > MAX_UINT32 / 16 {
        return 0, true;
      }
      val := val * 16 + digit;
      hasDigits := true;
      ptr := ptr + 1;
    }
    return val, !hasDigits;
  }

  method ParseOctalInteger(s: string, start: nat) returns (val: uint32, overflow: bool)
    requires start <= |s|
    ensures Scanned(val, overflow) == Scan(Octal, s[start..], 0, false)
  {
    val := 0;
    var ptr, hasDigits := start, false;
    while ptr < |s|
      invariant start <= ptr <= |s|
      invariant Scan(Octal, s[ptr..], val, hasDigits) == Scan(Octal, s[start..], 0, false)
    {
      var c := s[ptr];
      assert s[ptr..][0] == c && s[ptr..][1..] == s[ptr + 1..];
      if '0' <= c <= '7' {
        if val > MAX_UINT32 / 8 {
          return 0, true;
        }
        val := val * 8 + (c as int - '0' as int);
        hasDigits := true;
        ptr := ptr + 1;
      } else if c == '_' {
        ptr := ptr + 1;
        if ptr >= |s| || s[ptr] < '0' || s[ptr] > '7' {
          return 0, false;
        }
      } else {
        break;
      }
    }
    return val, !hasDigits;
  }

  method ParseBinaryInteger(s: string, start: nat) returns (val: uint32, overflow: bool)
    requires start <= |s|
    ensures Scanned(val, overflow) == Scan(Binary, s[start..], 0, false)
  {
    val := 0;
    var ptr, hasDigits := start, false;
    while ptr < |s|
      invariant start <= ptr <= |s|
      invariant Scan(Binary, s[ptr..], val, hasDigits) == Scan(Binary, s[start..], 0, false)
    {
      var c := s[ptr];
      assert s[ptr..][0] == c && s[ptr..][1..] == s[ptr + 1..];
      if c == '0' || c == '1' {
        if val > MAX_UINT32 / 2 {
          return 0, true;
        }
        val := val * 2 + (c as int - '0' as int);
        hasDigits := true;
        ptr := ptr + 1;
      } else if c == '_' {
        ptr := ptr + 1;
        if ptr >= |s| || (s[ptr] != '0' && s[ptr] != '1') {
          return 0, false;
        }
      } else {
        break;
      }
    }
    return val, !hasDigits;
  }

  // ---------------------------------------------------------------- what a numeral denotes

  /** Digits, each possibly preceded by one underscore. */
  predicate Numeral(r: Radix, s: string) {
    s != "" && forall i :: 0 <= i < |s| ==> NumeralAt(r, s, i)
  }

  predicate NumeralAt(r: Radix, s: string, i: nat)
    requires i < |s|
  {
    IsDigit(r, s[i]) || (s[i] == '_' && i + 1 < |s| && IsDigit(r, s[i + 1]))
  }

  function Power(base: nat, n: nat): nat { if n == 0 then 1 else base * Power(base, n - 1) }

  function DigitCount(r: Radix, s: string): nat {
    if s == "" then 0 else (if IsDigit(r, s[0]) then 1 else 0) + DigitCount(r, s[1..])
  }

  /** The value of a numeral: each digit weighted by the digits to its right. */
  function Value(r: Radix, s: string): nat {
    if s == "" then 0
    else
      (if IsDigit(r, s[0]) then HexDigit(s[0]) * Power(Base(r), DigitCount(r, s[1..])) else 0) + Value(r, s[1..])
  }

  lemma DigitMeaning(r: Radix, c: char)
    ensures Base(r) > 0 && (IsDigit(r, c) ==> HexDigit(c) >= 0 && c != '_')
  {
  }

  lemma NumeralTail(r: Radix, s: string)
    requires Numeral(r, s)
    ensures if |s| == 1 then IsDigit(r, s[0]) else Numeral(r, s[1..])
    ensures IsDigit(r, s[0]) || (s[0] == '_' && |s| > 1 && IsDigit(r, s[1]))
  {
    hide IsDigit;
    assert NumeralAt(r, s, 0);
    forall i | 0 <= i < |s[1..]| ensures NumeralAt(r, s[1..], i) { assert NumeralAt(r, s, i + 1); }
  }

  lemma PowerPositive(base: nat, n: nat)
    requires base > 0
    ensures Power(base, n) > 0
  {
  }

  lemma Horner(val: nat, base: nat, digit: nat, power: nat)
    ensures val * (base * power) + digit * power == (val * base + digit) * power
  {
  }

  /** Once the prefix alone is too large, so is the whole. */
  lemma TooLarge(prefix: nat, power: nat, rest: nat)
    requires prefix > MAX_UINT32 && power > 0
    ensures prefix * power + rest > MAX_UINT32
  {
    assert prefix * power >= prefix;
  }

  /** Scanning is exact: the value, or overflow when the value does not fit 32 bits. */
  lemma {:induction false} ScanIsExact(r: Radix, s: string, val: uint32, seen: bool)
    requires Numeral(r, s) || (s == "" && seen)
    ensures var total := val * Power(Base(r), DigitCount(r, s)) + Value(r, s);
            Scan(r, s, val, seen) == if total > MAX_UINT32 then Scanned(0, true) else Scanned(total, false)
    decreases |s|
  {
    hide IsDigit, Base, HexDigit, NumeralAt;
    if s != "" {
      var rest, base := s[1..], Base(r);
      NumeralTail(r, s);
      DigitMeaning(r, s[0]);
      if s[0] == '_' {
        ScanIsExact(r, rest, val, seen);
      } else {
        var next, power := val * base + HexDigit(s[0]), Power(base, DigitCount(r, rest));
        Horner(val, base, HexDigit(s[0]), power);
        if next > MAX_UINT32 {
          PowerPositive(base, DigitCount(r, rest));
          TooLarge(next, power, Value(r, rest));
        } else {
          ScanIsExact(r, rest, next, true);
        }
      }
    }
  }

  // ---------------------------------------------------------------- the token

  datatype Token = IntToken(value: int, text: string) | FloatToken(text: string)

  datatype Parsed = Parsed(val: int, overflow: bool)

  predicate Signed(s: string) { s != "" && (s[0] == '-' || s[0] == '+') }

  function RadixOf(s: string): Radix {
    if |s| < 2 || s[0] != '0' then Decimal
    else if s[1] == 'x' || s[1] == 'X' then Hex
    else if s[1] == 'o' || s[1] == 'O' then Octal
    else if s[1] == 'b' || s[1] == 'B' then Binary
    else Decimal
  }

  /** The prefixes, spelled out: each names its base and is not part of the numeral, and any other text is decimal. */
  lemma PrefixesAreExact(s: string, digits: string)
    ensures RadixOf(s) == Hex <==> "0x" <= s || "0X" <= s
    ensures RadixOf(s) == Octal <==> "0o" <= s || "0O" <= s
    ensures RadixOf(s) == Binary <==> "0b" <= s || "0B" <= s
    ensures Body("0x" + digits) == Body("0o" + digits) == Body("0b" + digits) == digits
    ensures RadixOf(s) == Decimal ==> Body(s) == s
    ensures Base(Hex) == 16 && Base(Octal) == 8 && Base(Binary) == 2 && Base(Decimal) == 10
  {
    assert ("0x" + digits)[2..] == digits && ("0o" + digits)[2..] == digits && ("0b" + digits)[2..] == digits;
    assert ("0x" + digits)[1] == 'x' && ("0o" + digits)[1] == 'o' && ("0b" + digits)[1] == 'b';
    assert |s| >= 2 ==> s == [s[0], s[1]] + s[2..];
  }

  function Body(s: string): string { if RadixOf(s) == Decimal then s else s[2..] }

  function Magnitude(s: string): string { if Signed(s) then s[1..] else s }

  /** The result for every text, well-formed or not. */
  function Parse(s: string): Parsed {
    var m := Magnitude(s);
    if m == "" then Parsed(0, false)
    else
      var scanned := Scan(RadixOf(m), Body(m), 0, false);
      if scanned.overflow then Parsed(0, true)
      else if s[0] == '-' then
        if scanned.val > MAX_INT32 + 1 then Parsed(0, true) else Parsed(-(scanned.val as int), false)
      else if scanned.val > MAX_INT32 then Parsed(0, true) else Parsed(scanned.val, false)
  }

  /** The two's complement reading of a 32-bit value. */
  function AsInt32(v: uint32): int { if v > MAX_INT32 then v - MAX_UINT32 - 1 else v }

  function NegateInt32(v: int): int { if v == -MAX_INT32 - 1 then v else -v }

  method ParseInteger32(s: string) returns (val: int, overflow: bool)
    ensures Parsed(val, overflow) == Parse(s)
  {
    if |s| == 0 {
      return 0, false;
    }
    var ptr, neg := 0, false;
    if s[ptr] == '-' {
      neg := true;
      ptr := ptr + 1;
    } else if s[ptr] == '+' {
      ptr := ptr + 1;
    }
    assert s[ptr..] == Magnitude(s);
    if ptr >= |s| {
      return 0, false;
    }
    var v: uint32;
    if ptr + 1 < |s| && s[ptr] == '0' {
      assert s[ptr..][2..] == s[ptr + 2..];
      var c := s[ptr + 1];
      if c == 'x' || c == 'X' {
        ptr := ptr + 2;
        v, overflow := ParseHexInteger(s, ptr);
      } else if c == 'o' || c == 'O' {
        ptr := ptr + 2;
        v, overflow := ParseOctalInteger(s, ptr);
      } else if c == 'b' || c == 'B' {
        ptr := ptr + 2;
        v, overflow := ParseBinaryInteger(s, ptr);
      } else {
        v, overflow := ParseDecimalInteger(s, ptr);
      }
    } else {
      v, overflow := ParseDecimalInteger(s, ptr);
    }
    if overflow {
      return 0, true;
    }
    if neg {
      if v > 2147483648 {
        return 0, true;
      }
      return NegateInt32(AsInt32(v)), false;
    } else {
      if v > 2147483647 {
        return 0, true;
      }
      return AsInt32(v), false;
    }
  }

  /** A well-formed literal: an optional sign, a base prefix, and the numeral; a decimal starts with a digit. */
  predicate Literal(s: string) {
    var m := Magnitude(s);
    Numeral(RadixOf(m), Body(m)) && (RadixOf(m) == Decimal ==> m[0] != '_')
  }

  function Denotes(s: string): int
    requires Literal(s)
  {
    var m := Magnitude(s);
    if s != "" && s[0] == '-' then -(Value(RadixOf(m), Body(m)) as int) else Value(RadixOf(m), Body(m))
  }

  /** Literals are exact or flagged: the number denoted when it fits 32 signed bits, overflow otherwise. */
  lemma ParseIsExact(s: string)
    requires Literal(s)
    ensures Parse(s) == if -MAX_INT32 - 1 <= Denotes(s) <= MAX_INT32 then Parsed(Denotes(s), false) else Parsed(0, true)
  {
    var m := Magnitude(s);
    ScanIsExact(RadixOf(m), Body(m), 0, false);
  }

  method ProcessIntegerLiteral(text: string) returns (token: Token)
    ensures Literal(text) && !Signed(text) ==>
              token == if Denotes(text) <= 2147483647 then IntToken(Denotes(text), text) else FloatToken(text)
    ensures token == if Parse(text).overflow then FloatToken(text) else IntToken(Parse(text).val, text)
  {
    var val, overflow := ParseInteger32(text);
    if Literal(text) { ParseIsExact(text); }
    if overflow {
      return FloatToken(text);
    }
    return IntToken(val, text);
  }
}
