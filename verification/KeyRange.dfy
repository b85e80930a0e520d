/** Shard names and the key ranges they cover. Strings and keys are sequences of bytes. */
module KeyRange {
  import opened Types
  import opened Digits

  const MIN_BOUND := "0"
  const MAX_BOUND := "inf"

  /** An empty start or end is unbounded. */
  datatype KeyRange = KeyRange(start: Bytes, end: Bytes)

  datatype NameError = NoSeparator | EmptyBound | OddLength | NotLowercaseHex | TrailingZero | StartNotBelowEnd

  // ---------------------------------------------------------------- lowercase hex

  predicate IsLowerHex(c: char) { '0' <= c <= '9' || 'a' <= c <= 'f' }

  function HexChar(d: nat): char
    requires d < 16
  {
    if d < 10 then '0' + d as char else 'a' + (d - 10) as char
  }

  function HexValue(c: char): nat { if HexDigit(c) >= 0 then HexDigit(c) else 0 }

  function EncodeHex(b: Bytes): string {
    if b == [] then "" else [HexChar(b[0] / 16), HexChar(b[0] % 16)] + EncodeHex(b[1..])
  }

  function DecodeHex(s: string): Bytes {
    if |s| < 2 then [] else [HexValue(s[0]) * 16 + HexValue(s[1])] + DecodeHex(s[2..])
  }

  lemma HexDigits(d: nat, c: char)
    ensures d < 16 ==> IsLowerHex(HexChar(d)) && HexValue(HexChar(d)) == d
    ensures IsLowerHex(c) ==> HexChar(HexValue(c)) == c
  {
  }

  lemma {:induction false} DecodeEncodedHex(b: Bytes)
    ensures |EncodeHex(b)| == 2 * |b| && (forall c :: c in EncodeHex(b) ==> IsLowerHex(c))
    ensures DecodeHex(EncodeHex(b)) == b
  {
    if b != [] {
      DecodeEncodedHex(b[1..]);
      HexDigits(b[0] / 16, '0');
      HexDigits(b[0] % 16, '0');
      assert EncodeHex(b)[2..] == EncodeHex(b[1..]);
    }
  }

  lemma {:induction false} EncodeDecodedHex(s: string)
    requires |s| % 2 == 0 && forall c :: c in s ==> IsLowerHex(c)
    ensures EncodeHex(DecodeHex(s)) == s && 2 * |DecodeHex(s)| == |s|
  {
    if s != "" {
      EncodeDecodedHex(s[2..]);
      HexDigits(0, s[0]);
      HexDigits(0, s[1]);
      assert s == [s[0], s[1]] + s[2..];
    }
  }

  // ---------------------------------------------------------------- names

  /** The lexicographic order of byte strings. */
  predicate BytesLess(a: Bytes, b: Bytes) {
    b != [] && (a == [] || a[0] < b[0] || (a[0] == b[0] && BytesLess(a[1..], b[1..])))
  }

  function ParseBound(s: string): Result<Bytes, NameError> {
    if s == "" then Err(EmptyBound)
    else if |s| % 2 != 0 then Err(OddLength)
    else if exists c :: c in s && !IsLowerHex(c) then Err(NotLowercaseHex)
    else
      var b := DecodeHex(s);
      if b[|b| - 1] == 0 then Err(TrailingZero) else Ok(b)
  }

  /** Where the first '-' is; the length when there is none. */
  function Dash(name: string): (i: nat)
    ensures i <= |name| && '-' !in name[..i] && (i < |name| ==> name[i] == '-')
  {
    if name == "" || name[0] == '-' then 0
    else
      assert forall k: nat :: k < |name| ==> name[..k + 1] == [name[0]] + name[1..][..k];
      1 + Dash(name[1..])
  }

  function ParseShardName(name: string): Result<KeyRange, NameError> {
    var i := Dash(name);
    if i == |name| then Err(NoSeparator)
    else
      var startStr, endStr := name[..i], name[i + 1..];
      var start := if startStr == MIN_BOUND then Ok([]) else ParseBound(startStr);
      if start.Err? then Err(start.error)
      else
        var end := if endStr == MAX_BOUND then Ok([]) else ParseBound(endStr);
        if end.Err? then Err(end.error)
        else if start.value != [] && end.value != [] && !BytesLess(start.value, end.value) then Err(StartNotBelowEnd)
        else Ok(KeyRange(start.value, end.value))
  }

  function ShardName(k: KeyRange): string {
    (if k.start != [] then EncodeHex(k.start) else MIN_BOUND) + "-"
    + (if k.end != [] then EncodeHex(k.end) else MAX_BOUND)
  }

  /** A bound is written without trailing zero bytes, which do not move its point. */
  predicate CanonicalBound(b: Bytes) { b == [] || b[|b| - 1] != 0 }

  predicate Canonical(k: KeyRange) {
    CanonicalBound(k.start) && CanonicalBound(k.end) && (k.start != [] && k.end != [] ==> BytesLess(k.start, k.end))
  }

  // ---------------------------------------------------------------- the bijection

  lemma BoundRoundTrip(s: string, b: Bytes)
    ensures b != [] ==> (ParseBound(EncodeHex(b)).Ok? <==> CanonicalBound(b))
    ensures b != [] && CanonicalBound(b) ==> ParseBound(EncodeHex(b)) == Ok(b)
    ensures ParseBound(s).Ok? ==>
              EncodeHex(ParseBound(s).value) == s && ParseBound(s).value != [] && CanonicalBound(ParseBound(s).value)
    ensures b != [] ==> EncodeHex(b) != MIN_BOUND && EncodeHex(b) != MAX_BOUND && '-' !in EncodeHex(b)
  {
    DecodeEncodedHex(b);
    if ParseBound(s).Ok? { EncodeDecodedHex(s); }
  }

  lemma DashOfName(a: string, b: string)
    requires '-' !in a
    ensures Dash(a + "-" + b) == |a|
  {
    assert (a + "-" + b)[|a|] == '-';
  }

  /** Printing what was parsed gives the name back, and what was parsed is canonical. */
  lemma NameOfParsed(name: string)
    ensures ParseShardName(name).Ok? ==>
      ShardName(ParseShardName(name).value) == name && Canonical(ParseShardName(name).value)
  {
    hide ParseBound, EncodeHex, BytesLess;
    var i := Dash(name);
    if i < |name| {
      assert name == name[..i] + "-" + name[i + 1..];
      BoundRoundTrip(name[..i], []);
      BoundRoundTrip(name[i + 1..], []);
    }
  }

  /** The name of a range is accepted exactly when the range is canonical, and then parses to that range. */
  lemma ParseOfName(k: KeyRange)
    ensures ParseShardName(ShardName(k)).Ok? <==> Canonical(k)
    ensures Canonical(k) ==> ParseShardName(ShardName(k)) == Ok(k)
  {
    hide ParseBound, EncodeHex, BytesLess, Dash;
    BoundRoundTrip("", k.start);
    BoundRoundTrip("", k.end);
    var a := if k.start != [] then EncodeHex(k.start) else MIN_BOUND;
    var b := if k.end != [] then EncodeHex(k.end) else MAX_BOUND;
    DashOfName(a, b);
    assert ShardName(k)[..|a|] == a && ShardName(k)[|a| + 1..] == b;
  }

  /** So the accepted names are exactly the names of canonical ranges, one each. */
  lemma NamesAreUnique(j: KeyRange, k: KeyRange)
    requires Canonical(j) && ShardName(j) == ShardName(k)
    ensures j == k
  {
    ParseOfName(j);
    ParseOfName(k);
  }

  // ---------------------------------------------------------------- points of the keyspace

  /** The point a bound denotes: its bytes, then zeros forever. */
  function PointAt(b: Bytes, i: nat): byte { if i < |b| then b[i] else 0 }

  ghost predicate FirstDifference(a: Bytes, b: Bytes, i: nat) {
    PointAt(a, i) < PointAt(b, i) && forall j: nat :: j < i ==> PointAt(a, j) == PointAt(b, j)
  }

  ghost predicate PointLess(a: Bytes, b: Bytes) { exists i: nat :: FirstDifference(a, b, i) }

  predicate ZeroExtends(a: Bytes, b: Bytes) {
    a < b && forall i :: |a| <= i < |b| ==> b[i] == 0
  }

  /** Byte order is the order of points, except that it also separates a bound from its zero extensions: "00" is above
      the empty bound and denotes the same point. */
  lemma {:induction false} ByteOrderIsPointOrder(a: Bytes, b: Bytes)
    ensures BytesLess(a, b) <==> PointLess(a, b) || ZeroExtends(a, b)
  {
    if b == [] {
      assert !PointLess(a, b);
    } else if a == [] {
      if i :| 0 <= i < |b| && b[i] != 0 { var k := FirstNonZero(b, i); assert FirstDifference(a, b, k); }
    } else {
      ByteOrderIsPointOrder(a[1..], b[1..]);
      PointTails(a, b);
      assert ZeroExtends(a, b) <==> a[0] == b[0] && ZeroExtends(a[1..], b[1..]) by { ZeroTails(a, b); }
    }
  }

  lemma {:induction false} FirstNonZero(b: Bytes, i: nat) returns (k: nat)
    requires i < |b| && b[i] != 0
    ensures k <= i && b[k] != 0 && forall j :: 0 <= j < k ==> b[j] == 0
  {
    k := i;
    if j :| 0 <= j < i && b[j] != 0 { k := FirstNonZero(b, j); }
  }

  lemma PointTails(a: Bytes, b: Bytes)
    requires a != [] && b != []
    ensures PointLess(a, b) <==> a[0] < b[0] || (a[0] == b[0] && PointLess(a[1..], b[1..]))
  {
    assert forall j: nat :: PointAt(a, j + 1) == PointAt(a[1..], j) && PointAt(b, j + 1) == PointAt(b[1..], j);
    if i: nat :| FirstDifference(a, b, i) && i > 0 {
      assert PointAt(a, 0) == PointAt(b, 0);
      assert forall j: nat :: j < i - 1 ==> PointAt(a[1..], j) == PointAt(a, j + 1);
      assert FirstDifference(a[1..], b[1..], i - 1);
    }
    if a[0] < b[0] {
      assert FirstDifference(a, b, 0);
    } else if a[0] == b[0] && PointLess(a[1..], b[1..]) {
      var i: nat :| FirstDifference(a[1..], b[1..], i);
      assert forall j: nat :: 0 < j < i + 1 ==>
        PointAt(a, j) == PointAt(a[1..], j - 1) && PointAt(b, j) == PointAt(b[1..], j - 1);
      assert FirstDifference(a, b, i + 1);
    }
  }

  lemma ZeroTails(a: Bytes, b: Bytes)
    requires a != [] && b != []
    ensures ZeroExtends(a, b) <==> a[0] == b[0] && ZeroExtends(a[1..], b[1..])
  {
    assert a == [a[0]] + a[1..] && b == [b[0]] + b[1..];
    assert a < b <==> a[0] == b[0] && a[1..] < b[1..];
    assert forall i :: 0 < i < |b| ==> b[i] == b[1..][i - 1];
    assert forall i :: 0 <= i < |b| - 1 ==> b[1..][i] == b[i + 1];
  }

  /** On canonical bounds the two orders agree, and distinct bounds denote distinct points. */
  lemma CanonicalOrder(a: Bytes, b: Bytes)
    requires CanonicalBound(a) && CanonicalBound(b)
    ensures BytesLess(a, b) <==> PointLess(a, b)
    ensures a != b ==> PointLess(a, b) || PointLess(b, a)
  {
    ByteOrderIsPointOrder(a, b);
    ByteOrderIsPointOrder(b, a);
    BytesTotal(a, b);
  }

  lemma {:induction false} BytesTotal(a: Bytes, b: Bytes)
    ensures a == b || BytesLess(a, b) || BytesLess(b, a)
  {
    if a != [] && b != [] {
      BytesTotal(a[1..], b[1..]);
      assert a == [a[0]] + a[1..] && b == [b[0]] + b[1..];
    }
  }
}
