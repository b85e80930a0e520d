/** The pooler's prepared-statement consolidator: one name for each query text and parameter type list.
    Query texts are sequences of bytes, one `char` each. */
module Consolidator {
  import opened Types
  import opened Digits

  datatype Statement = Statement(query: string, types: seq<uint32>)

  const NAME_PREFIX := "ppstmt"

  // ---------------------------------------------------------------- decimal numbers

  function Digit(d: nat): char
    requires d < 10
  {
    '0' + d as char
  }

  function Decimal(n: nat): string {
    if n < 10 then [Digit(n)] else Decimal(n / 10) + [Digit(n % 10)]
  }

  function Number(s: string): nat {
    if s == "" then 0
    else
      var c := s[|s| - 1];
      10 * Number(s[..|s| - 1]) + if IsDecimal(c) then c as int - '0' as int else 0
  }

  lemma {:induction false} NumberOfDecimal(n: nat)
    ensures Number(Decimal(n)) == n && Decimal(n) != "" && forall c :: c in Decimal(n) ==> IsDecimal(c)
  {
    if n >= 10 {
      NumberOfDecimal(n / 10);
      assert Decimal(n)[..|Decimal(n)| - 1] == Decimal(n / 10);
    } else {
      assert Decimal(n)[..0] == "";
    }
  }

  // ---------------------------------------------------------------- the key

  function Join(types: seq<uint32>): string {
    if types == [] then ""
    else
      var n := |types| - 1;
      (if n == 0 then "" else Join(types[..n]) + ",") + Decimal(types[n])
  }

  /** The deduplication key: the bare query, or the length-prefixed query and its types. */
  function Key(s: Statement): string {
    if s.types == [] then s.query else Decimal(|s.query|) + ":" + s.query + Join(s.types)
  }

  method DedupKey(query: string, paramTypes: seq<uint32>) returns (key: string)
    ensures key == Key(Statement(query, paramTypes))
  {
    if |paramTypes| == 0 {
      return query;
    }
    key := Decimal(|query|) + ":";
    key := key + query;
    for i := 0 to |paramTypes|
      invariant key == Decimal(|query|) + ":" + query + Join(paramTypes[..i])
    {
      assert paramTypes[..i + 1][..i] == paramTypes[..i];
      if i > 0 {
        key := key + ",";
      }
      key := key + Decimal(paramTypes[i]);
    }
    assert paramTypes[..|paramTypes|] == paramTypes;
  }

  // ---------------------------------------------------------------- reading a key back

  /** Where the last ',' is; -1 when there is none. */
  function LastComma(s: string): (i: int)
    ensures -1 <= i < |s| && (i >= 0 ==> s[i] == ',') && forall j :: i < j < |s| ==> s[j] != ','
  {
    if s == "" then -1 else if s[|s| - 1] == ',' then |s| - 1 else LastComma(s[..|s| - 1])
  }

  function FirstColon(s: string): (i: nat)
    ensures i <= |s| && (i < |s| ==> s[i] == ':') && forall j :: 0 <= j < i ==> s[j] != ':'
  {
    if s == "" || s[0] == ':' then 0 else 1 + FirstColon(s[1..])
  }

  function Split(s: string): seq<nat> {
    var i := LastComma(s);
    (if i < 0 then [] else Split(s[..i])) + [Number(s[i + 1..])]
  }

  lemma NoCommaInDigits(s: string)
    requires forall c :: c in s ==> IsDecimal(c)
    ensures LastComma(s) == -1
  {
    assert forall j :: 0 <= j < |s| ==> s[j] in s;
  }

  lemma SplitDigits(s: string)
    requires forall c :: c in s ==> IsDecimal(c)
    ensures Split(s) == [Number(s)]
  {
    hide Number;
    NoCommaInDigits(s);
    assert s[0..] == s;
  }

  lemma SplitLast(head: string, last: string)
    requires forall c :: c in last ==> IsDecimal(c)
    ensures Split(head + "," + last) == Split(head) + [Number(last)]
  {
    hide Number;
    var s := head + "," + last;
    assert s[|head|] == ',' && s[|head| + 1..] == last && s[..|head|] == head;
    assert forall j :: |head| < j < |s| ==> s[j] == last[j - |head| - 1] && s[j] in last;
    assert LastComma(s) == |head|;
  }

  lemma {:induction false} SplitOfJoin(types: seq<uint32>)
    requires types != []
    ensures Split(Join(types)) == types
    decreases |types|
  {
    hide Split, Decimal;
    var n := |types| - 1;
    NumberOfDecimal(types[n]);
    assert types == types[..n] + [types[n]];
    if n == 0 {
      SplitDigits(Decimal(types[0]));
      assert Join(types) == Decimal(types[0]);
    } else {
      SplitOfJoin(types[..n]);
      SplitLast(Join(types[..n]), Decimal(types[n]));
    }
  }

  /** The statement a text would be the key of, if it is one. */
  function Decode(key: string): Option<Statement> {
    var i := FirstColon(key);
    if i == |key| then None
    else
      var n := Number(key[..i]);
      if i + 1 + n > |key| then None
      else
        var types := Split(key[i + 1 + n..]);
        if forall j :: 0 <= j < |types| ==> types[j] <= MAX_UINT32
        then Some(Statement(key[i + 1..i + 1 + n], types)) else None
  }

  lemma DecodeKey(s: Statement)
    requires s.types != []
    ensures Decode(Key(s)) == Some(s)
  {
    hide Split, Number, Join, Decimal;
    var key, len := Key(s), Decimal(|s.query|);
    NumberOfDecimal(|s.query|);
    assert key[|len|] == ':' && key[..|len|] == len;
    assert forall j :: 0 <= j < |len| ==> key[j] == len[j] && len[j] in len;
    assert FirstColon(key) == |len|;
    var body := |len| + 1;
    assert key[body..body + |s.query|] == s.query && key[body + |s.query|..] == Join(s.types);
    SplitOfJoin(s.types);
  }

  /** Whether a query text reads like the key of a statement with parameter types. */
  predicate LooksEncoded(query: string) {
    Decode(query).Some? && Decode(query).value.types != [] && Key(Decode(query).value) == query
  }

  /** A bare query whose text is the key of another statement. */
  predicate Shadows(bare: Statement, other: Statement) {
    bare.types == [] && other.types != [] && bare.query == Key(other)
  }

  /** Two statements share a key exactly when they are equal or one shadows the other. */
  lemma KeysCollideExactly(a: Statement, b: Statement)
    ensures Key(a) == Key(b) <==> a == b || Shadows(a, b) || Shadows(b, a)
  {
    if a.types != [] { DecodeKey(a); }
    if b.types != [] { DecodeKey(b); }
  }

  /** A bare query shadows some statement exactly when it looks encoded. */
  lemma ShadowingIsDetectable(bare: Statement)
    requires bare.types == []
    ensures LooksEncoded(bare.query) <==> exists other :: Shadows(bare, other)
  {
    if LooksEncoded(bare.query) {
      assert Shadows(bare, Decode(bare.query).value);
    }
    if other :| Shadows(bare, other) { DecodeKey(other); }
  }

  /** Such texts exist: the query `1:x5` and the query `x` with parameter type 5. */
  lemma ShadowExists()
    ensures Shadows(Statement("1:x5", []), Statement("x", [5]))
  {
    assert Join([5]) == Decimal(5) == "5" && Decimal(1) == "1";
  }

  // ---------------------------------------------------------------- the consolidator

  datatype Table = Table(stmts: map<string, string>, lastID: nat)

  function NameFor(id: nat): string { NAME_PREFIX + Decimal(id) }

  /** One call: a known key keeps its name, a new key takes the next one. */
  function Assign(t: Table, s: Statement): (Table, string) {
    if Key(s) in t.stmts then (t, t.stmts[Key(s)])
    else (Table(t.stmts[Key(s) := NameFor(t.lastID)], t.lastID + 1), NameFor(t.lastID))
  }

  /** Names come from identifiers already used, and no two keys share one. */
  ghost predicate Consistent(t: Table) {
    && (forall k :: k in t.stmts ==> exists id: nat :: id < t.lastID && t.stmts[k] == NameFor(id))
    && (forall j, k :: j in t.stmts && k in t.stmts && t.stmts[j] == t.stmts[k] ==> j == k)
  }

  lemma NamesDiffer(i: nat, j: nat)
    requires NameFor(i) == NameFor(j)
    ensures i == j
  {
    NumberOfDecimal(i);
    NumberOfDecimal(j);
    assert NameFor(i)[|NAME_PREFIX|..] == Decimal(i) && NameFor(j)[|NAME_PREFIX|..] == Decimal(j);
  }

  lemma AssignKeeps(t: Table, s: Statement)
    requires Consistent(t)
    ensures var (t', name) := Assign(t, s);
            && Consistent(t')
            && Key(s) in t'.stmts && t'.stmts[Key(s)] == name
            && (forall k :: k in t.stmts ==> k in t'.stmts && t'.stmts[k] == t.stmts[k])
  {
    hide Key, NameFor;
    var (t', name) := Assign(t, s);
    if Key(s) !in t.stmts {
      forall k | k in t.stmts ensures t.stmts[k] != name {
        var id: nat :| id < t.lastID && t.stmts[k] == NameFor(id);
        if t.stmts[k] == name { NamesDiffer(id, t.lastID); }
      }
      forall k | k in t'.stmts ensures exists id: nat :: id < t'.lastID && t'.stmts[k] == NameFor(id) {
        if k in t.stmts {
          var id: nat :| id < t.lastID && t.stmts[k] == NameFor(id);
          assert id < t'.lastID && t'.stmts[k] == NameFor(id);
        } else {
          assert t'.stmts[k] == NameFor(t.lastID);
        }
      }
    }
  }

  class PoolerConsolidator {
    var stmts: map<string, string>
    var lastID: nat

    ghost function State(): Table
      reads this
    {
      Table(stmts, lastID)
    }

    ghost predicate Valid()
      reads this
    {
      Consistent(State())
    }

    constructor ()
      ensures Valid() && State() == Table(map[], 0)
    {
      stmts := map[];
      lastID := 0;
    }

    /** The mutex makes every call one step. */
    method CanonicalName(query: string, paramTypes: seq<uint32>) returns (name: string)
      requires Valid()
      modifies this
      ensures Valid()
      ensures (State(), name) == Assign(old(State()), Statement(query, paramTypes))
    {
      AssignKeeps(State(), Statement(query, paramTypes));
      var key := DedupKey(query, paramTypes);
      if key in stmts {
        return stmts[key];
      }
      name := NAME_PREFIX + Decimal(lastID);
      lastID := lastID + 1;
      stmts := stmts[key := name];
    }
  }

  // ---------------------------------------------------------------- whole runs

  /** The table after a sequence of calls, and the name each call returned. */
  function After(calls: seq<Statement>): Table {
    if calls == [] then Table(map[], 0) else Assign(After(calls[..|calls| - 1]), calls[|calls| - 1]).0
  }

  function NameOfCall(calls: seq<Statement>, i: nat): string
    requires i < |calls|
  {
    Assign(After(calls[..i]), calls[i]).1
  }

  lemma {:induction false} RunConsistent(calls: seq<Statement>)
    ensures Consistent(After(calls))
  {
    if calls != [] {
      RunConsistent(calls[..|calls| - 1]);
      AssignKeeps(After(calls[..|calls| - 1]), calls[|calls| - 1]);
    }
  }

  /** A name, once issued, stays the name of its key for the rest of the run. */
  lemma {:induction false} NamesNeverChange(calls: seq<Statement>, i: nat, n: nat)
    requires i < n <= |calls|
    ensures Key(calls[i]) in After(calls[..n]).stmts && After(calls[..n]).stmts[Key(calls[i])] == NameOfCall(calls, i)
    decreases n
  {
    hide Key, Consistent;
    var m := n - 1;
    assert calls[..n][..m] == calls[..m] && calls[..n][m] == calls[m];
    RunConsistent(calls[..m]);
    AssignKeeps(After(calls[..m]), calls[m]);
    if i < m { NamesNeverChange(calls, i, m); }
  }

  function KeysOf(calls: seq<Statement>): set<string> { set s | s in calls :: Key(s) }

  /** Names count up: the identifiers used are as many as the different keys prepared. */
  lemma {:induction false} IdsCountKeys(calls: seq<Statement>)
    ensures After(calls).stmts.Keys == KeysOf(calls) && After(calls).lastID == |KeysOf(calls)|
  {
    hide Key, NameFor;
    if calls != [] {
      var init, last := calls[..|calls| - 1], calls[|calls| - 1];
      assert calls == init + [last];
      IdsCountKeys(init);
      assert KeysOf(calls) == KeysOf(init) + {Key(last)};
    }
  }

  /** A call whose key is new takes the number of different keys prepared before it. */
  lemma NamesCountKeys(calls: seq<Statement>, s: Statement)
    requires Key(s) !in KeysOf(calls)
    ensures NameOfCall(calls + [s], |calls|) == "ppstmt" + Decimal(|KeysOf(calls)|)
  {
    hide Key, Decimal, After;
    IdsCountKeys(calls);
    assert (calls + [s])[..|calls|] == calls && (calls + [s])[|calls|] == s;
    hide KeysOf;
  }

  lemma NamesFollowKeys(calls: seq<Statement>, i: nat, j: nat)
    requires i < |calls| && j < |calls|
    ensures NameOfCall(calls, i) == NameOfCall(calls, j) <==> Key(calls[i]) == Key(calls[j])
  {
    hide Key, After, NameOfCall;
    NamesNeverChange(calls, i, |calls|);
    NamesNeverChange(calls, j, |calls|);
    RunConsistent(calls[..|calls|]);
  }

  /** Over any run, two calls get one name exactly when they prepare one statement or one shadows the other. */
  lemma NamesIdentifyStatements(calls: seq<Statement>, i: nat, j: nat)
    requires i < |calls| && j < |calls|
    ensures NameOfCall(calls, i) == NameOfCall(calls, j) <==>
            calls[i] == calls[j] || Shadows(calls[i], calls[j]) || Shadows(calls[j], calls[i])
    ensures calls[i].types != [] && calls[j].types != [] ==>
              (NameOfCall(calls, i) == NameOfCall(calls, j) <==> calls[i] == calls[j])
  {
    NamesFollowKeys(calls, i, j);
    KeysCollideExactly(calls[i], calls[j]);
  }

  predicate Plain(s: Statement) { s.types == [] ==> !LooksEncoded(s.query) }

  /** Names identify statements in every run of a set of statements with parameters, or bare but plain. */
  lemma PlainStatementsAreIdentified(calls: seq<Statement>, i: nat, j: nat)
    requires i < |calls| && j < |calls| && Plain(calls[i]) && Plain(calls[j])
    ensures NameOfCall(calls, i) == NameOfCall(calls, j) <==> calls[i] == calls[j]
  {
    hide LooksEncoded, Key, NameOfCall;
    NamesIdentifyStatements(calls, i, j);
    if calls[i].types == [] { ShadowingIsDetectable(calls[i]); }
    if calls[j].types == [] { ShadowingIsDetectable(calls[j]); }
  }

  /** And a bare statement that is not plain is confused in some run. */
  lemma EncodedQueriesAreConfused(s: Statement) returns (other: Statement)
    requires !Plain(s)
    ensures other != s && NameOfCall([s, other], 0) == NameOfCall([s, other], 1)
  {
    hide Key, NameOfCall;
    other := Decode(s.query).value;
    ShadowingIsDetectable(s);
    assert Shadows(s, other);
    NamesIdentifyStatements([s, other], 0, 1);
  }
}
