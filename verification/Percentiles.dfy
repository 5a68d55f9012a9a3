// The nearest-rank percentile of a sample, as both load gates compute it.
module Percentiles {
  import opened Wrappers

  function Insert(x: real, s: seq<real>): (r: seq<real>)
    ensures multiset(r) == multiset{x} + multiset(s)
    ensures |r| == |s| + 1
  {
    if s == [] then [x]
    else if x <= s[0] then [x] + s
    else
      assert s == [s[0]] + s[1..];
      [s[0]] + Insert(x, s[1..])
  }

  // [...values].sort((a, b) => a - b)
  function Sorted(values: seq<real>): (r: seq<real>)
    ensures multiset(r) == multiset(values)
    ensures |r| == |values|
  {
    if values == [] then []
    else
      assert values == [values[0]] + values[1..];
      Insert(values[0], Sorted(values[1..]))
  }

  function Ceil(x: real): int {
    -((-x).Floor)
  }

  // The rank of quantile q in a sample of n, counted from 1.
  function Rank(n: nat, q: real): int {
    Ceil(n as real * q)
  }

  function Min(a: int, b: int): int {
    if a <= b then a else b
  }

  // None is JavaScript's undefined, for an index outside the sample.
  function Percentile(values: seq<real>, q: real): Option<real> {
    var index := Min(|values| - 1, Rank(|values|, q) - 1);
    if 0 <= index then Some(Sorted(values)[index]) else None
  }

  predicate Ascending(s: seq<real>) {
    forall i, j :: 0 <= i < j < |s| ==> s[i] <= s[j]
  }

  // How many values are below, or at most, a bound.
  function CountBelow(values: seq<real>, bound: real): nat {
    if values == [] then 0 else (if values[0] < bound then 1 else 0) + CountBelow(values[1..], bound)
  }

  function CountAtMost(values: seq<real>, bound: real): nat {
    if values == [] then 0 else (if values[0] <= bound then 1 else 0) + CountAtMost(values[1..], bound)
  }

  lemma {:induction false} InsertAscending(x: real, s: seq<real>)
    requires Ascending(s)
    ensures Ascending(Insert(x, s))
  {
    if s != [] && s[0] < x {
      InsertAscending(x, s[1..]);
      var r := Insert(x, s[1..]);
      forall j | 0 <= j < |r| ensures s[0] <= r[j] {
        assert r[j] in multiset(r);
        assert r[j] == x || r[j] in s[1..];
      }
    }
  }

  lemma {:induction false} SortedAscending(values: seq<real>)
    ensures Ascending(Sorted(values))
  {
    if values != [] {
      SortedAscending(values[1..]);
      InsertAscending(values[0], Sorted(values[1..]));
    }
  }

  lemma {:induction false} InsertCounts(x: real, s: seq<real>, bound: real)
    ensures CountBelow(Insert(x, s), bound) == (if x < bound then 1 else 0) + CountBelow(s, bound)
    ensures CountAtMost(Insert(x, s), bound) == (if x <= bound then 1 else 0) + CountAtMost(s, bound)
  {
    if s == [] {
    } else if x <= s[0] {
      assert ([x] + s)[1..] == s;
    } else {
      InsertCounts(x, s[1..], bound);
      assert ([s[0]] + Insert(x, s[1..]))[1..] == Insert(x, s[1..]);
    }
  }

  lemma {:induction false} SortedCounts(values: seq<real>, bound: real)
    ensures CountBelow(Sorted(values), bound) == CountBelow(values, bound)
    ensures CountAtMost(Sorted(values), bound) == CountAtMost(values, bound)
  {
    if values != [] {
      SortedCounts(values[1..], bound);
      InsertCounts(values[0], Sorted(values[1..]), bound);
    }
  }

  // In ascending order, an element is below a bound exactly when it and
  // everything before it are among the values below the bound.
  lemma {:induction false} CountsInOrder(s: seq<real>, j: nat, bound: real)
    requires Ascending(s) && j < |s|
    ensures s[j] < bound <==> CountBelow(s, bound) > j
    ensures s[j] <= bound <==> CountAtMost(s, bound) > j
  {
    if j > 0 {
      CountsInOrder(s[1..], j - 1, bound);
    } else if !(s[0] < bound) {
      NoneBelow(s, bound);
      if !(s[0] <= bound) {
        NoneAtMost(s, bound);
      }
    }
  }

  lemma {:induction false} NoneBelow(s: seq<real>, bound: real)
    requires forall i :: 0 <= i < |s| ==> bound <= s[i]
    ensures CountBelow(s, bound) == 0
  {
    if s != [] {
      NoneBelow(s[1..], bound);
    }
  }

  lemma {:induction false} NoneAtMost(s: seq<real>, bound: real)
    requires forall i :: 0 <= i < |s| ==> bound < s[i]
    ensures CountAtMost(s, bound) == 0
  {
    if s != [] {
      NoneAtMost(s[1..], bound);
    }
  }

  lemma RankInRange(n: nat, q: real)
    requires n > 0 && 0.0 < q <= 1.0
    ensures 1 <= Rank(n, q) <= n
  {
    var x := n as real * q;
    assert 0.0 < x;
    ProductAtMost(n as real, q);
    assert x <= n as real;
  }

  lemma ProductAtMost(x: real, q: real)
    requires 0.0 <= x && q <= 1.0
    ensures x * q <= x
  {
    assert x * (1.0 - q) >= 0.0;
  }

  // The percentile is below a bound exactly when enough of the sample is.
  lemma BelowIffCounted(values: seq<real>, q: real, bound: real)
    requires values != [] && 0.0 < q <= 1.0
    ensures Percentile(values, q).Some?
    ensures Percentile(values, q).value < bound <==> CountBelow(values, bound) >= Rank(|values|, q)
    ensures Percentile(values, q).value <= bound <==> CountAtMost(values, bound) >= Rank(|values|, q)
  {
    RankInRange(|values|, q);
    SortedAscending(values);
    SortedCounts(values, bound);
    CountsInOrder(Sorted(values), Rank(|values|, q) - 1, bound);
  }

  // The nearest rank: a sample value that at least ceil(q * n) values do not
  // exceed and fewer than ceil(q * n) fall below. It is the only such value.
  lemma NearestRank(values: seq<real>, q: real, v: real)
    requires values != [] && 0.0 < q <= 1.0
    ensures Percentile(values, q) == Some(v) <==>
              && v in values
              && CountAtMost(values, v) >= Rank(|values|, q)
              && CountBelow(values, v) < Rank(|values|, q)
  {
    BelowIffCounted(values, q, v);
    var p := Percentile(values, q).value;
    RankInRange(|values|, q);
    assert p in multiset(Sorted(values));
    assert p in values;
    if CountAtMost(values, v) >= Rank(|values|, q) && CountBelow(values, v) < Rank(|values|, q) {
      assert p == v;
    }
  }

  lemma {:induction false} AscendingUnique(s: seq<real>, t: seq<real>)
    requires Ascending(s) && Ascending(t) && multiset(s) == multiset(t)
    ensures s == t
  {
    assert |s| == |multiset(s)| && |t| == |multiset(t)|;
    if s != [] {
      LeastIsHead(s, t);
      LeastIsHead(t, s);
      WithoutHead(s);
      WithoutHead(t);
      AscendingUnique(s[1..], t[1..]);
      assert s == [s[0]] + s[1..] && t == [t[0]] + t[1..];
    }
  }

  lemma LeastIsHead(s: seq<real>, t: seq<real>)
    requires Ascending(s) && multiset(s) == multiset(t) && s != [] && t != []
    ensures s[0] <= t[0]
  {
    assert t[0] in multiset(s);
    assert t[0] in s;
  }

  lemma WithoutHead(s: seq<real>)
    requires s != []
    ensures multiset(s[1..]) == multiset(s) - multiset{s[0]}
  {
    assert s == [s[0]] + s[1..];
  }

  // The order of the measurements does not matter.
  lemma PermutationInvariant(a: seq<real>, b: seq<real>, q: real)
    requires multiset(a) == multiset(b)
    ensures Percentile(a, q) == Percentile(b, q)
  {
    SortedAscending(a);
    SortedAscending(b);
    AscendingUnique(Sorted(a), Sorted(b));
  }

  lemma RankMonotone(n: nat, p: real, q: real)
    requires p <= q
    ensures Rank(n, p) <= Rank(n, q)
  {
    assert n as real * (q - p) >= 0.0;
    assert n as real * q - n as real * p == n as real * (q - p);
  }

  // A larger quantile never gives a smaller percentile.
  lemma QuantileMonotone(values: seq<real>, p: real, q: real)
    requires values != [] && 0.0 < p <= q <= 1.0
    ensures Percentile(values, p).Some? && Percentile(values, q).Some?
    ensures Percentile(values, p).value <= Percentile(values, q).value
  {
    RankInRange(|values|, p);
    RankInRange(|values|, q);
    RankMonotone(|values|, p, q);
    SortedAscending(values);
  }

  // --- counts over the raw sample ------------------------------------------------

  ghost function Under(values: seq<real>, bound: real): set<int> {
    set i | 0 <= i < |values| && values[i] < bound
  }

  lemma {:induction false} CountBelowIs(values: seq<real>, bound: real)
    ensures CountBelow(values, bound) == |Under(values, bound)|
  {
    if values != [] {
      var n := |values| - 1;
      CountBelowIs(values[..n], bound);
      CountBelowLast(values, bound);
      var rest := Under(values[..n], bound);
      assert Under(values, bound) == if values[n] < bound then rest + {n} else rest;
    }
  }

  lemma {:induction false} CountBelowLast(values: seq<real>, bound: real)
    requires values != []
    ensures var n := |values| - 1;
            CountBelow(values, bound) == CountBelow(values[..n], bound) + if values[n] < bound then 1 else 0
  {
    var n := |values| - 1;
    if n > 0 {
      CountBelowLast(values[1..], bound);
      assert values[1..][..n - 1] == values[..n][1..];
    }
  }

  // At least 95 (99) of a hundred measurements are under the bound.
  ghost predicate NinetyFive(values: seq<real>, bound: real) {
    100 * |Under(values, bound)| >= 95 * |values|
  }

  ghost predicate NinetyNine(values: seq<real>, bound: real) {
    100 * |Under(values, bound)| >= 99 * |values|
  }

  lemma CeilIs(x: real)
    ensures x <= Ceil(x) as real < x + 1.0
  {}

  // A percentile under a bound, in counts over the sample.
  lemma PercentileUnder(values: seq<real>, bound: real)
    requires values != []
    ensures Percentile(values, 0.95).Some? && Percentile(values, 0.99).Some?
    ensures Percentile(values, 0.95).value < bound <==> NinetyFive(values, bound)
    ensures Percentile(values, 0.99).value < bound <==> NinetyNine(values, bound)
  {
    BelowIffCounted(values, 0.95, bound);
    BelowIffCounted(values, 0.99, bound);
    CountBelowIs(values, bound);
    AtLeastCeil(|Under(values, bound)|, |values| as real * 0.95);
    AtLeastCeil(|Under(values, bound)|, |values| as real * 0.99);
  }

  lemma AtLeastCeil(count: int, x: real)
    ensures count >= Ceil(x) <==> count as real >= x
  {
    CeilIs(x);
  }
}
