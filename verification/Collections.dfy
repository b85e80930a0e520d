/** Lists, sorted map values and finite-set counting shared by the consensus modules. */
module Collections {

  // ---------------------------------------------------------------- lists

  function Filter<T(!new)>(xs: seq<T>, keep: T -> bool): (r: seq<T>)
    ensures forall x :: x in r <==> x in xs && keep(x)
    ensures |r| <= |xs|
  {
    if xs == [] then []
    else
      var rest := Filter(xs[..|xs| - 1], keep);
      assert xs == xs[..|xs| - 1] + [xs[|xs| - 1]];
      if keep(xs[|xs| - 1]) then rest + [xs[|xs| - 1]] else rest
  }

  /** Filtering drops nothing exactly when everything is kept. */
  lemma {:induction false} FilterAll<T(!new)>(xs: seq<T>, keep: T -> bool)
    ensures |Filter(xs, keep)| == |xs| <==> forall x :: x in xs ==> keep(x)
  {
    if xs != [] {
      FilterAll(xs[..|xs| - 1], keep);
      assert xs == xs[..|xs| - 1] + [xs[|xs| - 1]];
    }
  }

  /** The loop every status and ID filter runs. */
  method Select<T(!new)>(xs: seq<T>, keep: T -> bool) returns (r: seq<T>)
    ensures r == Filter(xs, keep)
  {
    r := [];
    for i := 0 to |xs|
      invariant r == Filter(xs[..i], keep)
    {
      assert xs[..i + 1][..i] == xs[..i];
      if keep(xs[i]) {
        r := r + [xs[i]];
      }
    }
    assert xs[..|xs|] == xs;
  }

  function Map<S, T>(xs: seq<S>, f: S -> T): (r: seq<T>)
    ensures |r| == |xs|
    ensures forall i :: 0 <= i < |xs| ==> r[i] == f(xs[i])
  {
    seq(|xs|, i requires 0 <= i < |xs| => f(xs[i]))
  }

  /** Mapping commutes with filtering on anything the map preserves. */
  lemma {:induction false} FilterMap<T(!new)>(xs: seq<T>, f: T -> T, keep: T -> bool)
    requires forall x :: x in xs ==> (keep(f(x)) <==> keep(x))
    ensures Filter(Map(xs, f), keep) == Map(Filter(xs, keep), f)
  {
    if xs != [] {
      var init := xs[..|xs| - 1];
      assert Map(xs, f)[..|xs| - 1] == Map(init, f);
      FilterMap(init, f, keep);
    }
  }

  // ---------------------------------------------------------------- string order

  /** Byte-wise string comparison. */
  predicate LexLe(a: string, b: string) {
    a == "" || (b != "" && (a[0] < b[0] || (a[0] == b[0] && LexLe(a[1..], b[1..]))))
  }

  lemma {:induction false} LexLeTotal(a: string, b: string)
    ensures LexLe(a, b) || LexLe(b, a)
  {
    if a != "" && b != "" { LexLeTotal(a[1..], b[1..]); }
  }

  lemma {:induction false} LexLeAntisymmetric(a: string, b: string)
    requires LexLe(a, b) && LexLe(b, a)
    ensures a == b
  {
    if a != "" && b != "" {
      LexLeAntisymmetric(a[1..], b[1..]);
      assert a == [a[0]] + a[1..] && b == [b[0]] + b[1..];
    }
  }

  lemma {:induction false} LexLeTransitive(a: string, b: string, c: string)
    requires LexLe(a, b) && LexLe(b, c)
    ensures LexLe(a, c)
  {
    if a != "" && a[0] == b[0] && b[0] == c[0] { LexLeTransitive(a[1..], b[1..], c[1..]); }
  }

  predicate Least(k: string, s: set<string>) {
    k in s && forall j :: j in s ==> LexLe(k, j)
  }

  lemma {:induction false} LeastExists(s: set<string>)
    requires s != {}
    ensures exists k :: Least(k, s)
    decreases |s|
  {
    var x :| x in s;
    var rest := s - {x};
    LexLeTotal(x, x);
    if rest == {} {
      assert s == {x};
      assert Least(x, s);
    } else {
      LeastExists(rest);
      var m :| Least(m, rest);
      LexLeTotal(x, m);
      var k := if LexLe(m, x) then m else x;
      forall j | j in s ensures LexLe(k, j) {
        if k == x && j != x { LexLeTransitive(x, m, j); }
      }
      assert Least(k, s);
    }
  }

  // ---------------------------------------------------------------- maps in key order

  ghost predicate Ascending(r: seq<string>) {
    forall i, j :: 0 <= i < j < |r| ==> LexLe(r[i], r[j]) && r[i] != r[j]
  }

  /** The keys of a map in ascending order. */
  function SortedKeys(s: set<string>): (r: seq<string>)
    ensures |r| == |s|
    ensures forall k :: k in r <==> k in s
    ensures Ascending(r)
    decreases |s|
  {
    if s == {} then [] else
      LeastExists(s);
      assert forall a, b :: Least(a, s) && Least(b, s) ==> a == b by {
        forall a, b | Least(a, s) && Least(b, s) ensures a == b { LexLeAntisymmetric(a, b); }
      }
      var k :| k in s && Least(k, s);
      [k] + SortedKeys(s - {k})
  }

  /** The values of a map in ascending key order. */
  function SortedValues<V(!new)>(m: map<string, V>): (r: seq<V>)
    ensures |r| == |m.Keys|
    ensures forall k :: k in m ==> m[k] in r
    ensures forall v :: v in r ==> exists k :: k in m && m[k] == v
  {
    var ks := SortedKeys(m.Keys);
    var r := seq(|ks|, i requires 0 <= i < |ks| => m[ks[i]]);
    assert forall k :: k in m ==> m[k] in r by {
      forall k | k in m ensures m[k] in r {
        assert k in ks;
        var i :| 0 <= i < |ks| && ks[i] == k;
        assert r[i] == m[k];
      }
    }
    r
  }

  /** Mapping the values of a map maps its sorted value list. */
  lemma SortedValuesMap<V(!new)>(m: map<string, V>, f: V -> V)
    ensures SortedValues(map k | k in m :: f(m[k])) == Map(SortedValues(m), f)
  {
    assert (map k | k in m :: f(m[k])).Keys == m.Keys;
  }

  // ---------------------------------------------------------------- counting

  lemma {:induction false} SubsetCount<T>(a: set<T>, b: set<T>)
    requires a <= b
    ensures |a| <= |b|
    ensures |a| == |b| ==> a == b
  {
    assert b == a + (b - a);
    assert |b| == |a| + |b - a|;
  }

  /** Two subsets too large to be disjoint share an element. */
  lemma Pigeonhole<T>(a: set<T>, b: set<T>, universe: set<T>) returns (x: T)
    requires a <= universe && b <= universe
    requires |a| + |b| > |universe|
    ensures x in a && x in b
  {
    if a * b == {} {
      assert |a + b| == |a| + |b|;
      SubsetCount(a + b, universe);
      assert false;
    }
    x :| x in a * b;
  }
}
