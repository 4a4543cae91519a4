/** Sums over finite maps, and counting and filtering over sequences. */
module Totals {

  /** A fixed element of a nonempty map's domain. */
  ghost function Pick<K, V>(m: map<K, V>): (k: K)
    requires m != map[]
    ensures k in m
  {
    var k :| k in m; k
  }

  /** The sum of `f` over the values of `m`. */
  ghost function Sum<K, V>(m: map<K, V>, f: V -> nat): nat
    decreases |m|
  {
    if m == map[] then 0
    else
      var k := Pick(m);
      f(m[k]) + Sum(m - {k}, f)
  }

  /** The order in which keys are picked does not matter. */
  lemma {:induction false} SumSplit<K, V>(m: map<K, V>, f: V -> nat, k: K)
    requires k in m
    ensures Sum(m, f) == f(m[k]) + Sum(m - {k}, f)
    decreases |m|
  {
    var k0 := Pick(m);
    if k0 != k {
      SumSplit(m - {k0}, f, k);
      SumSplit(m - {k}, f, k0);
      assert m - {k0} - {k} == m - {k} - {k0};
    }
  }

  /** Storing `v` under `k` replaces the old contribution of `k`, if any. */
  lemma SumUpdate<K, V>(m: map<K, V>, f: V -> nat, k: K, v: V)
    ensures Sum(m[k := v], f) == Sum(m - {k}, f) + f(v)
    ensures k in m ==> Sum(m[k := v], f) == Sum(m, f) - f(m[k]) + f(v)
    ensures k !in m ==> Sum(m[k := v], f) == Sum(m, f) + f(v)
  {
    var m' := m[k := v];
    SumSplit(m', f, k);
    assert m' - {k} == m - {k};
    if k in m {
      SumSplit(m, f, k);
    } else {
      assert m - {k} == m;
    }
  }

  /** The elements of `s` that satisfy `keep`, in order. */
  function Filter<T>(s: seq<T>, keep: T -> bool): (r: seq<T>)
    ensures |r| <= |s|
  {
    if s == [] then []
    else
      var last := s[|s| - 1];
      Filter(s[..|s| - 1], keep) + (if keep(last) then [last] else [])
  }

  lemma {:induction false} FilterIn<T>(s: seq<T>, keep: T -> bool, x: T)
    ensures x in Filter(s, keep) <==> x in s && keep(x)
  {
    if s != [] {
      var n := |s| - 1;
      assert s == s[..n] + [s[n]];
      FilterIn(s[..n], keep, x);
    }
  }

  /** The places of `s` whose elements satisfy `keep`. */
  function Places<T>(s: seq<T>, keep: T -> bool): set<nat> {
    set i: nat | i < |s| && keep(s[i])
  }

  lemma PlacesNext<T>(s: seq<T>, keep: T -> bool)
    requires s != []
    ensures var n := |s| - 1;
      Places(s, keep) == Places(s[..n], keep) + (if keep(s[n]) then {n} else {}) && n !in Places(s[..n], keep)
  {
  }

  /** Filtering keeps as many elements as there are such places, each at its rank among them. */
  lemma {:induction false} FilterRanks<T>(s: seq<T>, keep: T -> bool)
    ensures |Filter(s, keep)| == |Places(s, keep)|
    ensures forall i :: i in Places(s, keep) ==>
      |Places(s[..i], keep)| < |Filter(s, keep)| && Filter(s, keep)[|Places(s[..i], keep)|] == s[i]
  {
    if s == [] {
      assert Places(s, keep) == {};
    } else {
      var n := |s| - 1;
      FilterRanks(s[..n], keep);
      PlacesNext(s, keep);
      forall i | i in Places(s, keep)
        ensures |Places(s[..i], keep)| < |Filter(s, keep)| && Filter(s, keep)[|Places(s[..i], keep)|] == s[i]
      {
        if i < n {
          assert i in Places(s[..n], keep);
          assert s[..n][..i] == s[..i];
        }
      }
    }
  }

  function RemoveAt<T>(s: seq<T>, i: nat): seq<T>
    requires i < |s|
  {
    s[..i] + s[i + 1..]
  }

  lemma {:induction false} FilterConcat<T>(a: seq<T>, b: seq<T>, keep: T -> bool)
    ensures Filter(a + b, keep) == Filter(a, keep) + Filter(b, keep)
  {
    if b == [] {
      assert a + b == a;
    } else {
      var n := |b| - 1;
      var tail := if keep(b[n]) then [b[n]] else [];
      assert (a + b)[..|a| + n] == a + b[..n];
      FilterConcat(a, b[..n], keep);
      assert Filter(a + b, keep) == Filter(a + b[..n], keep) + tail;
      assert Filter(b, keep) == Filter(b[..n], keep) + tail;
    }
  }

  lemma FilterParts<T>(a: seq<T>, x: T, b: seq<T>, keep: T -> bool)
    ensures Filter(a + [x] + b, keep) == Filter(a, keep) + (if keep(x) then [x] else []) + Filter(b, keep)
  {
    FilterConcat(a + [x], b, keep);
    assert (a + [x])[..|a|] == a;
  }

  lemma Parts<T>(s: seq<T>, k: nat)
    requires k < |s|
    ensures s == s[..k] + [s[k]] + s[k + 1..]
  {
  }

  /** What filtering makes of a sequence with one element singled out, or taken out. */
  lemma FilterAround<T>(s: seq<T>, k: nat, keep: T -> bool)
    requires k < |s|
    ensures Filter(s, keep) == Filter(s[..k], keep) + (if keep(s[k]) then [s[k]] else []) + Filter(s[k + 1..], keep)
    ensures Filter(RemoveAt(s, k), keep) == Filter(s[..k], keep) + Filter(s[k + 1..], keep)
  {
    Parts(s, k);
    FilterParts(s[..k], s[k], s[k + 1..], keep);
    FilterConcat(s[..k], s[k + 1..], keep);
  }

  /** Filtering by two predicates that agree on the elements gives the same sequence. */
  lemma {:induction false} FilterAgree<T>(s: seq<T>, p: T -> bool, q: T -> bool)
    requires forall i :: 0 <= i < |s| ==> p(s[i]) == q(s[i])
    ensures Filter(s, p) == Filter(s, q)
  {
    if s != [] {
      FilterAgree(s[..|s| - 1], p, q);
    }
  }

  /** Filtering twice is filtering by both predicates. */
  lemma {:induction false} FilterTwice<T>(s: seq<T>, p: T -> bool, q: T -> bool, both: T -> bool)
    requires forall i :: 0 <= i < |s| ==> both(s[i]) == (p(s[i]) && q(s[i]))
    ensures Filter(Filter(s, p), q) == Filter(s, both)
  {
    if s != [] {
      var n := |s| - 1;
      var last := if p(s[n]) then [s[n]] else [];
      FilterTwice(s[..n], p, q, both);
      FilterConcat(Filter(s[..n], p), last, q);
      assert last == [] || last == [s[n]];
      assert last != [] ==> last[..0] == [];
    }
  }

  lemma {:induction false} FilterAll<T>(s: seq<T>, keep: T -> bool)
    requires forall i :: 0 <= i < |s| ==> keep(s[i])
    ensures Filter(s, keep) == s
  {
    if s != [] {
      FilterAll(s[..|s| - 1], keep);
    }
  }

  lemma {:induction false} FilterNone<T>(s: seq<T>, keep: T -> bool)
    requires forall i :: 0 <= i < |s| ==> !keep(s[i])
    ensures Filter(s, keep) == []
  {
    if s != [] {
      FilterNone(s[..|s| - 1], keep);
    }
  }
}
