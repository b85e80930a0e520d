/** Decoding of `U&` string escapes: \XXXX, \+XXXXXX, surrogate pairs and doubled escape characters. */
module UnicodeEscape {
  import opened Types
  import opened Digits

  const PLUS: byte := 0x2B
  const MAX_CODE := 0x10FFFF

  /** Each error carries the offset at which it is reported. */
  datatype EscapeError = InvalidEscape(offset: nat) | InvalidValue(offset: nat) | InvalidPair(offset: nat)

  // ---------------------------------------------------------------- hex runs

  function HexOf(b: byte): int { HexDigit(b as char) }

  predicate IsHexSequence(s: Bytes) { forall i :: 0 <= i < |s| ==> HexOf(s[i]) >= 0 }

  function Code(s: Bytes): nat {
    if s == [] then 0 else 16 * Code(s[..|s| - 1]) + (if HexOf(s[|s| - 1]) >= 0 then HexOf(s[|s| - 1]) else 0)
  }

  method ParseHexCodepoint(hex: Bytes) returns (codepoint: nat)
    requires IsHexSequence(hex)
    ensures codepoint == Code(hex)
  {
    codepoint := 0;
    for i := 0 to |hex|
      invariant codepoint == Code(hex[..i])
    {
      assert hex[..i + 1][..i] == hex[..i];
      codepoint := codepoint * 16 + HexOf(hex[i]);
    }
    assert hex[..|hex|] == hex;
  }

  /** What may be named after UESCAPE: not a hex digit, a plus, a quote or whitespace. */
  predicate IsValidUescapeChar(esc: byte) {
    && HexOf(esc) < 0 && esc != PLUS && esc != 0x27 && esc != 0x22
    && !(0x09 <= esc <= 0x0D) && esc != 0x20 && esc != 0x85 && esc != 0xA0
  }

  /** The bytes refused, spelled out; the last eight are the whitespace of a single byte. */
  lemma UescapeCharsAreExact(esc: byte)
    ensures IsValidUescapeChar(esc) <==>
            && esc as char !in "0123456789abcdefABCDEF+'" && esc as char != '"'
            && esc !in {9, 10, 11, 12, 13, 32, 0x85, 0xA0}
  {
    HexDigitIsExact(esc as char, 0);
    hide HexDigit;
  }

  // ---------------------------------------------------------------- UTF-16 and UTF-8

  predicate IsHigh(c: nat) { 0xD800 <= c <= 0xDBFF }

  predicate IsLow(c: nat) { 0xDC00 <= c <= 0xDFFF }

  /** Unicode scalar values: every code point but the surrogates. */
  type Scalar = c: nat | c <= MAX_CODE && !IsHigh(c) && !IsLow(c)

  function Combine(high: nat, low: nat): (c: Scalar)
    requires IsHigh(high) && IsLow(low)
    ensures c > 0xFFFF
  {
    (high - 0xD800) * 0x400 + (low - 0xDC00) + 0x1_0000
  }

  /** Section 2.1 of RFC 2781: the pair that encodes a scalar above 0xFFFF. */
  function HighOf(c: nat): (h: nat)
    requires 0x1_0000 <= c <= MAX_CODE
    ensures IsHigh(h)
  {
    0xD800 + (c - 0x1_0000) / 0x400
  }

  function LowOf(c: nat): (l: nat)
    requires 0x1_0000 <= c <= MAX_CODE
    ensures IsLow(l)
  {
    0xDC00 + (c - 0x1_0000) % 0x400
  }

  lemma PairRoundTrip(c: nat, high: nat, low: nat)
    ensures 0x1_0000 <= c <= MAX_CODE ==> Combine(HighOf(c), LowOf(c)) == c
    ensures IsHigh(high) && IsLow(low) ==> HighOf(Combine(high, low)) == high && LowOf(Combine(high, low)) == low
  {
  }

  /** Section 3 of RFC 3629. */
  function Utf8(c: nat): Bytes
    requires c <= MAX_CODE
  {
    if c < 0x80 then [c]
    else if c < 0x800 then [0xC0 + c / 64, 0x80 + c % 64]
    else if c < 0x1_0000 then [0xE0 + c / 64 / 64, 0x80 + c / 64 % 64, 0x80 + c % 64]
    else [0xF0 + c / 64 / 64 / 64, 0x80 + c / 64 / 64 % 64, 0x80 + c / 64 % 64, 0x80 + c % 64]
  }

  function Utf8Length(first: byte): nat {
    if first < 0x80 then 1 else if first < 0xE0 then 2 else if first < 0xF0 then 3 else 4
  }

  /** Reading one character back: the payload bits of the lead byte, then six from each byte that follows. */
  function FromUtf8(s: Bytes): int
    requires s != [] && |s| >= Utf8Length(s[0])
  {
    match Utf8Length(s[0])
    case 1 => s[0]
    case 2 => Bits(s[0], 0xC0) * 64 + Bits(s[1], 0x80)
    case 3 => (Bits(s[0], 0xE0) * 64 + Bits(s[1], 0x80)) * 64 + Bits(s[2], 0x80)
    case _ => ((Bits(s[0], 0xF0) * 64 + Bits(s[1], 0x80)) * 64 + Bits(s[2], 0x80)) * 64 + Bits(s[3], 0x80)
  }

  function Bits(b: byte, mark: int): int { b as int - mark }

  /** UTF-8 is self-delimiting and loses nothing. */
  lemma Utf8RoundTrip(c: nat, rest: Bytes)
    requires c <= MAX_CODE
    ensures var s := Utf8(c) + rest; Utf8Length(s[0]) == |Utf8(c)| && FromUtf8(s) == c
  {
    var s, n := Utf8(c) + rest, |Utf8(c)|;
    assert s[0] == Utf8(c)[0] && (n > 1 ==> s[1] == Utf8(c)[1]) && (n > 2 ==> s[2] == Utf8(c)[2]);
  }

  // ---------------------------------------------------------------- the decoder

  datatype Token = Plain(b: byte) | Doubled | Unit(code: nat)

  /** The next token and its length; nothing when an escape is malformed. */
  function ReadToken(s: Bytes, esc: byte): (r: Option<(Token, nat)>)
    requires s != []
    ensures r.Some? ==> 0 < r.value.1 <= |s|
  {
    if s[0] != esc then Some((Plain(s[0]), 1))
    else if |s| > 1 && s[1] == esc then Some((Doubled, 2))
    else if |s| > 4 && IsHexSequence(s[1..5]) then Some((Unit(Code(s[1..5])), 5))
    else if |s| > 7 && s[1] == PLUS && IsHexSequence(s[2..8]) then Some((Unit(Code(s[2..8])), 8))
    else None
  }

  type Decoded = Result<Bytes, EscapeError>

  function Prepend(out: Bytes, r: Decoded): Decoded { if r.Ok? then Ok(out + r.value) else r }

  /** One pass over the rest of the input; `first` is a high surrogate awaiting its partner, or 0. */
  function Run(s: Bytes, at: nat, esc: byte, first: nat): Decoded
    requires first == 0 || IsHigh(first)
  {
    if s == [] then (if first != 0 then Err(InvalidPair(at)) else Ok([]))
    else
      var next := ReadToken(s, esc);
      if next.None? then Err(InvalidEscape(at))
      else
        var (token, length) := next.value;
        match token
        case Plain(b) =>
          if first != 0 then Err(InvalidPair(at)) else Prepend([b], Run(s[length..], at + length, esc, 0))
        case Doubled =>
          if first != 0 then Err(InvalidPair(at)) else Prepend([esc], Run(s[length..], at + length, esc, 0))
        case Unit(c) =>
          if c == 0 || c > MAX_CODE then Err(InvalidValue(at))
          else if first != 0 then
            if IsLow(c) then Prepend(Utf8(Combine(first, c)), Run(s[length..], at + length, esc, 0))
            else Err(InvalidPair(at))
          else if IsHigh(c) then Run(s[length..], at + length, esc, c)
          else if IsLow(c) then Err(InvalidPair(at))
          else Prepend(Utf8(c), Run(s[length..], at + length, esc, 0))
  }

  lemma PrependTwice(a: Bytes, b: Bytes, r: Decoded)
    ensures Prepend(a, Prepend(b, r)) == Prepend(a + b, r) && Prepend([], r) == r
  {
    if r.Ok? { assert a + (b + r.value) == a + b + r.value && [] + r.value == r.value; }
  }

  lemma Slices(s: Bytes, i: nat, from: nat, to: nat)
    requires i <= |s| && from <= to <= |s| - i
    ensures s[i..][from..to] == s[i + from..i + to]
  {
  }

  method DecodeUnicodeString(input: Bytes, esc: byte) returns (r: Decoded)
    ensures r == Run(input, 0, esc, 0)
  {
    hide Utf8, Code, IsHexSequence, HexOf, Combine;
    if |input| == 0 {
      return Ok(input);
    }
    var result: Bytes, i: nat, pairFirst: nat := [], 0, 0;
    assert input[0..] == input;
    PrependTwice([], [], Run(input, 0, esc, 0));
    while i < |input|
      invariant 0 <= i <= |input| && (pairFirst == 0 || IsHigh(pairFirst))
      invariant Run(input, 0, esc, 0) == Prepend(result, Run(input[i..], i, esc, pairFirst))
    {
      var rest := input[i..];
      if input[i] != esc {
        if pairFirst != 0 {
          return Err(InvalidPair(i));
        }
        PrependTwice(result, [input[i]], Run(rest[1..], i + 1, esc, 0));
        assert rest[1..] == input[i + 1..];
        result := result + [input[i]];
        i := i + 1;
        continue;
      }
      if i + 1 < |input| && input[i + 1] == esc {
        if pairFirst != 0 {
          return Err(InvalidPair(i));
        }
        PrependTwice(result, [esc], Run(rest[2..], i + 2, esc, 0));
        assert rest[2..] == input[i + 2..];
        result := result + [esc];
        i := i + 2;
        continue;
      }
      var codepoint, consumed: nat;
      if |rest| > 4 { Slices(input, i, 1, 5); }
      if |rest| > 7 { Slices(input, i, 2, 8); }
      if i + 4 < |input| && IsHexSequence(input[i + 1..i + 5]) {
        codepoint := ParseHexCodepoint(input[i + 1..i + 5]);
        consumed := 5;
      } else if i + 7 < |input| && input[i + 1] == PLUS && IsHexSequence(input[i + 2..i + 8]) {
        codepoint := ParseHexCodepoint(input[i + 2..i + 8]);
        consumed := 8;
      } else {
        return Err(InvalidEscape(i));
      }
      assert ReadToken(rest, esc) == Some((Unit(codepoint), consumed));
      assert rest[consumed..] == input[i + consumed..];
      if codepoint <= 0 || codepoint > MAX_CODE {
        return Err(InvalidValue(i));
      }
      if pairFirst != 0 {
        if !IsLow(codepoint) {
          return Err(InvalidPair(i));
        }
        var combined := Combine(pairFirst, codepoint);
        PrependTwice(result, Utf8(combined), Run(rest[consumed..], i + consumed, esc, 0));
        result := result + Utf8(combined);
        pairFirst := 0;
      } else if IsHigh(codepoint) {
        pairFirst := codepoint;
      } else if IsLow(codepoint) {
        return Err(InvalidPair(i));
      } else {
        PrependTwice(result, Utf8(codepoint), Run(rest[consumed..], i + consumed, esc, 0));
        result := result + Utf8(codepoint);
      }
      i := i + consumed;
    }
    if pairFirst != 0 {
      return Err(InvalidPair(|input|));
    }
    assert input[i..] == [] && result + [] == result;
    return Ok(result);
  }

  // ---------------------------------------------------------------- decoding inverts escaping

  /** The escape of one code: four hex digits, or a plus and six. */
  predicate Escapes(piece: Bytes, code: nat, esc: byte) {
    || (|piece| == 5 && piece[0] == esc && IsHexSequence(piece[1..]) && Code(piece[1..]) == code)
    || (|piece| == 8 && piece[0] == esc && piece[1] == PLUS && IsHexSequence(piece[2..]) && Code(piece[2..]) == code)
  }

  /** The ways to write one scalar value: raw, doubled, as one escape, or as the escapes of a pair. */
  ghost predicate Renders(piece: Bytes, c: Scalar, esc: byte) {
    || (piece == Utf8(c) && esc !in piece)
    || (piece == [esc, esc] && c == esc && esc < 0x80)
    || (c != 0 && Escapes(piece, c, esc))
    || (c > 0xFFFF
        && exists high, low :: piece == high + low && Escapes(high, HighOf(c), esc) && Escapes(low, LowOf(c), esc))
  }

  function Power16(n: nat): nat { if n == 0 then 1 else 16 * Power16(n - 1) }

  /** A code written with `n` hexadecimal digits. */
  function HexText(c: nat, n: nat): (s: Bytes)
    ensures |s| == n
  {
    if n == 0 then [] else HexText(c / 16, n - 1) + [("0123456789ABCDEF"[c % 16]) as int]
  }

  lemma {:induction false} CodeOfHexText(c: nat, n: nat)
    requires c < Power16(n)
    ensures IsHexSequence(HexText(c, n)) && Code(HexText(c, n)) == c
  {
    if n > 0 {
      CodeOfHexText(c / 16, n - 1);
      HexDigitIsExact("0123456789ABCDEF"[c % 16], c % 16);
      hide HexDigit;
      assert HexText(c, n)[..n - 1] == HexText(c / 16, n - 1);
    }
  }

  /** Every scalar but zero can be escaped: with six digits, and with four if it fits. */
  lemma ScalarsCanBeEscaped(c: Scalar, esc: byte)
    requires c != 0
    ensures Renders([esc, PLUS] + HexText(c, 6), c, esc)
    ensures c <= 0xFFFF ==> Renders([esc] + HexText(c, 4), c, esc)
  {
    assert Power16(6) == 0x100_0000 && Power16(4) == 0x1_0000;
    CodeOfHexText(c, 6);
    assert ([esc, PLUS] + HexText(c, 6))[2..] == HexText(c, 6);
    if c <= 0xFFFF {
      CodeOfHexText(c, 4);
      assert ([esc] + HexText(c, 4))[1..] == HexText(c, 4);
    }
    hide HexText, Code, IsHexSequence, Utf8;
  }

  lemma ReadEscape(piece: Bytes, code: nat, esc: byte, rest: Bytes)
    requires Escapes(piece, code, esc) && IsValidUescapeChar(esc)
    ensures ReadToken(piece + rest, esc) == Some((Unit(code), |piece|)) && (piece + rest)[|piece|..] == rest
  {
    var s := piece + rest;
    assert s[1] == piece[1];
    assert |piece| == 5 ==> s[1..5] == piece[1..] && piece[1..][0] == piece[1];
    assert |piece| == 8 ==> s[2..8] == piece[2..] && s[1..5][0] == PLUS && HexOf(PLUS) < 0;
  }

  lemma {:induction false} ReadRaw(raw: Bytes, at: nat, esc: byte, rest: Bytes)
    requires esc !in raw
    ensures Run(raw + rest, at, esc, 0) == Prepend(raw, Run(rest, at + |raw|, esc, 0))
  {
    if raw == [] {
      assert raw + rest == rest;
      PrependTwice([], [], Run(rest, at, esc, 0));
    } else {
      assert (raw + rest)[1..] == raw[1..] + rest;
      ReadRaw(raw[1..], at + 1, esc, rest);
      PrependTwice([raw[0]], raw[1..], Run(rest, at + |raw|, esc, 0));
      assert [raw[0]] + raw[1..] == raw;
    }
  }

  /** However a scalar is written, decoding it yields its UTF-8 bytes and goes on with what follows. */
  lemma DecodeOne(piece: Bytes, c: Scalar, at: nat, esc: byte, rest: Bytes)
    requires Renders(piece, c, esc) && IsValidUescapeChar(esc)
    ensures Run(piece + rest, at, esc, 0) == Prepend(Utf8(c), Run(rest, at + |piece|, esc, 0))
  {
    hide IsValidUescapeChar, Escapes, Utf8, HighOf, LowOf;
    if piece == Utf8(c) && esc !in piece {
      ReadRaw(piece, at, esc, rest);
    } else if piece == [esc, esc] && c == esc && esc < 0x80 {
      DecodeDoubled(at, esc, rest);
      assert Utf8(c) == [esc] by { AsciiIsItself(c); }
    } else if c != 0 && Escapes(piece, c, esc) {
      hide ReadToken;
      ReadEscape(piece, c, esc, rest);
    } else {
      var high, low :| piece == high + low && Escapes(high, HighOf(c), esc) && Escapes(low, LowOf(c), esc);
      DecodePair(high, low, c, at, esc, rest);
    }
  }

  lemma AsciiIsItself(c: nat)
    requires c < 0x80
    ensures Utf8(c) == [c]
  {
  }

  lemma DecodeDoubled(at: nat, esc: byte, rest: Bytes)
    ensures Run([esc, esc] + rest, at, esc, 0) == Prepend([esc], Run(rest, at + 2, esc, 0))
  {
    var s := [esc, esc] + rest;
    assert s[0] == esc && s[1] == esc && s[2..] == rest;
  }

  lemma DecodePair(high: Bytes, low: Bytes, c: Scalar, at: nat, esc: byte, rest: Bytes)
    requires IsValidUescapeChar(esc) && c > 0xFFFF && Escapes(high, HighOf(c), esc) && Escapes(low, LowOf(c), esc)
    ensures Run(high + low + rest, at, esc, 0) == Prepend(Utf8(c), Run(rest, at + |high| + |low|, esc, 0))
  {
    PairRoundTrip(c, 0, 0);
    hide IsValidUescapeChar, Escapes, Utf8, HighOf, LowOf, Combine, ReadToken;
    assert high + low + rest == high + (low + rest);
    ReadEscape(high, HighOf(c), esc, low + rest);
    ReadEscape(low, LowOf(c), esc, rest);
  }

  function Flatten(pieces: seq<Bytes>): Bytes { if pieces == [] then [] else pieces[0] + Flatten(pieces[1..]) }

  function Utf8All(scalars: seq<Scalar>): Bytes {
    if scalars == [] then [] else Utf8(scalars[0]) + Utf8All(scalars[1..])
  }

  /** Decoding is a left inverse of escaping, whatever mix of forms is chosen. */
  lemma {:induction false} DecodeInvertsEscaping(scalars: seq<Scalar>, pieces: seq<Bytes>, at: nat, esc: byte)
    requires IsValidUescapeChar(esc) && |pieces| == |scalars|
    requires forall i :: 0 <= i < |scalars| ==> Renders(pieces[i], scalars[i], esc)
    ensures Run(Flatten(pieces), at, esc, 0) == Ok(Utf8All(scalars))
  {
    hide IsValidUescapeChar, Renders, Utf8;
    if scalars != [] {
      DecodeOne(pieces[0], scalars[0], at, esc, Flatten(pieces[1..]));
      DecodeInvertsEscaping(scalars[1..], pieces[1..], at + |pieces[0]|, esc);
    }
  }

  // ---------------------------------------------------------------- when a surrogate is an error

  datatype Located = Located(token: Token, at: nat)

  datatype Ending = Clean(at: nat) | BadEscape(at: nat) | BadValue(at: nat)

  /** The tokens before the first malformed escape or code out of range, and what stopped the reading. */
  function Tokens(s: Bytes, at: nat, esc: byte): (seq<Located>, Ending) {
    if s == [] then ([], Clean(at))
    else
      var next := ReadToken(s, esc);
      if next.None? then ([], BadEscape(at))
      else
        var (token, length) := next.value;
        if token.Unit? && (token.code == 0 || token.code > MAX_CODE) then ([], BadValue(at))
        else
          var (rest, ending) := Tokens(s[length..], at + length, esc);
          ([Located(token, at)] + rest, ending)
  }

  predicate High(t: Token) { t.Unit? && IsHigh(t.code) }

  predicate Low(t: Token) { t.Unit? && IsLow(t.code) }

  /** Section 2.2 of RFC 2781: a high surrogate with no low one after it, or a low one with no high one before. */
  predicate Unpaired(ts: seq<Located>, ending: Ending, i: nat)
    requires i < |ts|
  {
    || (High(ts[i].token) && if i + 1 < |ts| then !Low(ts[i + 1].token) else ending.Clean?)
    || (Low(ts[i].token) && (i == 0 || !High(ts[i - 1].token)))
  }

  /** Where an unpaired surrogate is reported: the token that should have completed or preceded it. */
  function ReportedAt(ts: seq<Located>, ending: Ending, i: nat): nat
    requires i < |ts|
  {
    if Low(ts[i].token) then ts[i].at else if i + 1 < |ts| then ts[i + 1].at else ending.at
  }

  ghost predicate FirstUnpaired(ts: seq<Located>, ending: Ending, i: nat) {
    i < |ts| && Unpaired(ts, ending, i) && forall j :: 0 <= j < i ==> !Unpaired(ts, ending, j)
  }

  /** The bytes of a paired token sequence. */
  function Meaning(ts: seq<Located>, esc: byte): Bytes {
    if ts == [] then []
    else match ts[0].token
      case Plain(b) => [b] + Meaning(ts[1..], esc)
      case Doubled => [esc] + Meaning(ts[1..], esc)
      case Unit(c) =>
        if IsHigh(c) && |ts| > 1 && Low(ts[1].token) then Utf8(Combine(c, ts[1].token.code)) + Meaning(ts[2..], esc)
        else (if c <= MAX_CODE then Utf8(c) else []) + Meaning(ts[1..], esc)
  }

  function Stopped(ts: seq<Located>, ending: Ending, esc: byte): Decoded {
    match ending
    case Clean(_) => Ok(Meaning(ts, esc))
    case BadEscape(at) => Err(InvalidEscape(at))
    case BadValue(at) => Err(InvalidValue(at))
  }

  ghost predicate AllPaired(ts: seq<Located>, ending: Ending) {
    forall i :: 0 <= i < |ts| ==> !Unpaired(ts, ending, i)
  }

  /** The first unpaired surrogate is what is reported; with none, reading goes as far as the text is well-formed. */
  ghost predicate Explains(r: Decoded, ts: seq<Located>, ending: Ending, esc: byte) {
    && (forall i: nat :: FirstUnpaired(ts, ending, i) ==> r == Err(InvalidPair(ReportedAt(ts, ending, i))))
    && (AllPaired(ts, ending) ==> r == Stopped(ts, ending, esc))
  }

  lemma ExplainFirst(ts: seq<Located>, ending: Ending, esc: byte)
    requires ts != [] && Unpaired(ts, ending, 0)
    ensures Explains(Err(InvalidPair(ReportedAt(ts, ending, 0))), ts, ending, esc)
  {
    forall i: nat | FirstUnpaired(ts, ending, i) ensures i == 0 { }
  }

  lemma UnpairedShifts(front: seq<Located>, ts: seq<Located>, ending: Ending, i: nat)
    requires front != [] && !High(front[|front| - 1].token) && i < |ts|
    ensures Unpaired(front + ts, ending, |front| + i) <==> Unpaired(ts, ending, i)
    ensures ReportedAt(front + ts, ending, |front| + i) == ReportedAt(ts, ending, i)
  {
  }

  /** Paired tokens in front change neither what follows nor where it is reported. */
  lemma ExplainAfter(front: seq<Located>, bytes: Bytes, r: Decoded, ts: seq<Located>, ending: Ending, esc: byte)
    requires front != [] && !High(front[|front| - 1].token)
    requires forall i :: 0 <= i < |front| ==> !Unpaired(front + ts, ending, i)
    requires Meaning(front + ts, esc) == bytes + Meaning(ts, esc)
    requires Explains(r, ts, ending, esc)
    ensures Explains(Prepend(bytes, r), front + ts, ending, esc)
  {
    hide Meaning, Unpaired, ReportedAt;
    var all, n := front + ts, |front|;
    forall i: nat | FirstUnpaired(all, ending, i)
      ensures Prepend(bytes, r) == Err(InvalidPair(ReportedAt(all, ending, i)))
    {
      UnpairedShifts(front, ts, ending, i - n);
      forall j | 0 <= j < i - n ensures !Unpaired(ts, ending, j) { UnpairedShifts(front, ts, ending, j); }
      assert FirstUnpaired(ts, ending, i - n);
    }
    if AllPaired(all, ending) {
      forall i | 0 <= i < |ts| ensures !Unpaired(ts, ending, i) { UnpairedShifts(front, ts, ending, i); }
    }
  }

  /** The one-pass decoder agrees with reading all tokens first and then pairing surrogates. */
  lemma {:induction false} DecodeIsExplained(s: Bytes, at: nat, esc: byte)
    ensures var (ts, ending) := Tokens(s, at, esc); Explains(Run(s, at, esc, 0), ts, ending, esc)
    decreases |s|, 1
  {
    hide Explains, Meaning, Utf8, IsHexSequence, ReadToken, ReportedAt, Prepend, Combine;
    var (ts, ending) := Tokens(s, at, esc);
    if s == [] || ReadToken(s, esc).None? || ts == [] {
      ExplainNothing(ending, esc);
    } else {
      var (token, length) := ReadToken(s, esc).value;
      var rest, at' := s[length..], at + length;
      var (ts', _) := Tokens(rest, at', esc);
      assert ts == [Located(token, at)] + ts';
      if Low(token) {
        ExplainFirst(ts, ending, esc);
        assert ReportedAt(ts, ending, 0) == at by { ReportedFirst(ts, ending); }
      } else if High(token) {
        DecodeAfterHigh(s, at, esc);
      } else {
        DecodeIsExplained(rest, at', esc);
        OrdinaryToken(token, at, ts', ending, esc);
        ExplainAfter([Located(token, at)], BytesOf(token, esc), Run(rest, at', esc, 0), ts', ending, esc);
        assert Run(s, at, esc, 0) == Prepend(BytesOf(token, esc), Run(rest, at', esc, 0));
      }
    }
  }

  function BytesOf(t: Token, esc: byte): Bytes {
    match t
    case Plain(b) => [b]
    case Doubled => [esc]
    case Unit(c) => if c <= MAX_CODE then Utf8(c) else []
  }

  lemma ExplainNothing(ending: Ending, esc: byte)
    ensures Explains(Stopped([], ending, esc), [], ending, esc)
    ensures Meaning([], esc) == []
  {
  }

  lemma ReportedFirst(ts: seq<Located>, ending: Ending)
    requires ts != []
    ensures Low(ts[0].token) ==> ReportedAt(ts, ending, 0) == ts[0].at
    ensures High(ts[0].token) ==> ReportedAt(ts, ending, 0) == if |ts| > 1 then ts[1].at else ending.at
  {
  }

  lemma OrdinaryToken(t: Token, at: nat, ts: seq<Located>, ending: Ending, esc: byte)
    requires !High(t) && !Low(t)
    ensures var all := [Located(t, at)] + ts;
            !Unpaired(all, ending, 0) && Meaning(all, esc) == BytesOf(t, esc) + Meaning(ts, esc)
  {
    var all := [Located(t, at)] + ts;
    assert all[1..] == ts;
  }

  lemma PairedTokens(high: Located, low: Located, ts: seq<Located>, ending: Ending, esc: byte)
    requires High(high.token) && Low(low.token)
    ensures var all := [high, low] + ts;
            && !Unpaired(all, ending, 0) && !Unpaired(all, ending, 1)
            && Meaning(all, esc) == Utf8(Combine(high.token.code, low.token.code)) + Meaning(ts, esc)
  {
    var all := [high, low] + ts;
    assert all[2..] == ts;
  }

  /** A high surrogate: the next token completes it, or is where the error is. */
  lemma {:induction false} DecodeAfterHigh(s: Bytes, at: nat, esc: byte)
    requires s != [] && ReadToken(s, esc).Some? && High(ReadToken(s, esc).value.0)
    ensures var (ts, ending) := Tokens(s, at, esc); Explains(Run(s, at, esc, 0), ts, ending, esc)
    decreases |s|, 0
  {
    hide Explains, Meaning, Utf8, IsHexSequence, ReadToken, ReportedAt, Prepend, Combine;
    var (ts, ending) := Tokens(s, at, esc);
    var (high, length) := ReadToken(s, esc).value;
    var rest, at' := s[length..], at + length;
    var (ts', _) := Tokens(rest, at', esc);
    assert ts == [Located(high, at)] + ts';
    ReportedFirst(ts, ending);
    assert Run(s, at, esc, 0) == Run(rest, at', esc, high.code);
    if ts' == [] {
      assert ts == [Located(high, at)];
      assert !ending.Clean? ==> Run(rest, at', esc, high.code) == Stopped([], ending, esc);
      if ending.Clean? { ExplainFirst(ts, ending, esc); } else { ExplainLoneHigh(high, at, ending, esc); }
    } else if !Low(ts'[0].token) {
      ExplainFirst(ts, ending, esc);
    } else {
      var (low, length') := ReadToken(rest, esc).value;
      var rest', at'' := rest[length'..], at' + length';
      var (ts'', _) := Tokens(rest', at'', esc);
      assert ts == [Located(high, at), Located(low, at')] + ts'';
      DecodeIsExplained(rest', at'', esc);
      PairedTokens(Located(high, at), Located(low, at'), ts'', ending, esc);
      var bytes := Utf8(Combine(high.code, low.code));
      ExplainAfter([Located(high, at), Located(low, at')], bytes, Run(rest', at'', esc, 0), ts'', ending, esc);
    }
  }

  lemma ExplainLoneHigh(high: Token, at: nat, ending: Ending, esc: byte)
    requires High(high) && !ending.Clean?
    ensures Explains(Stopped([], ending, esc), [Located(high, at)], ending, esc)
  {
  }

  lemma {:induction false} FirstOf(ts: seq<Located>, ending: Ending, i: nat) returns (k: nat)
    requires i < |ts| && Unpaired(ts, ending, i)
    ensures FirstUnpaired(ts, ending, k)
  {
    k := i;
    if j :| 0 <= j < i && Unpaired(ts, ending, j) { k := FirstOf(ts, ending, j); }
  }

  /** Surrogate errors arise exactly for unpaired surrogates, and decoding succeeds exactly on well-formed, paired
      text. */
  lemma SurrogateErrorsAreExact(input: Bytes, esc: byte)
    ensures var (ts, ending) := Tokens(input, 0, esc);
            var r := Run(input, 0, esc, 0);
            && (r.Err? && r.error.InvalidPair? <==> exists i :: 0 <= i < |ts| && Unpaired(ts, ending, i))
            && (r.Ok? <==> ending.Clean? && AllPaired(ts, ending))
            && (r.Ok? ==> r.value == Meaning(ts, esc))
  {
    hide Run, Tokens, Unpaired, Meaning;
    DecodeIsExplained(input, 0, esc);
    var (ts, ending) := Tokens(input, 0, esc);
    if i :| 0 <= i < |ts| && Unpaired(ts, ending, i) {
      var k := FirstOf(ts, ending, i);
    }
  }
}
