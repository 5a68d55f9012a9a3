// Lists: the elements that a predicate picks, in order, and lists without
// repetition.
module Selections {

  function Select<T>(s: seq<T>, p: T -> bool): seq<T> {
    if s == [] then []
    else
      var rest := Select(s[..|s| - 1], p);
      if p(s[|s| - 1]) then rest + [s[|s| - 1]] else rest
  }

  lemma {:induction false} SelectConcat<T>(a: seq<T>, b: seq<T>, p: T -> bool)
    ensures Select(a + b, p) == Select(a, p) + Select(b, p)
  {
    if b == [] {
      assert a + b == a;
    } else {
      SelectConcat(a, b[..|b| - 1], p);
      assert (a + b)[..|a + b| - 1] == a + b[..|b| - 1];
    }
  }

  lemma {:induction false} SelectNone<T(!new)>(s: seq<T>, p: T -> bool)
    ensures Select(s, p) == [] <==> forall x :: x in s ==> !p(x)
  {
    if s != [] {
      SelectNone(s[..|s| - 1], p);
      assert s == s[..|s| - 1] + [s[|s| - 1]];
    }
  }

  lemma {:induction false} SelectAll<T(!new)>(s: seq<T>, p: T -> bool)
    requires forall x :: x in s ==> p(x)
    ensures Select(s, p) == s
  {
    if s != [] {
      SelectAll(s[..|s| - 1], p);
      assert s == s[..|s| - 1] + [s[|s| - 1]];
    }
  }

  lemma {:induction false} SelectFewer<T>(s: seq<T>, p: T -> bool)
    ensures |Select(s, p)| <= |s|
    ensures |Select(s, p)| == |s| ==> Select(s, p) == s
  {
    if s != [] {
      SelectFewer(s[..|s| - 1], p);
    }
  }

  lemma {:induction false} SelectCounts<T(!new)>(s: seq<T>, p: T -> bool, x: T)
    ensures multiset(Select(s, p))[x] == if p(x) then multiset(s)[x] else 0
  {
    if s != [] {
      SelectCounts(s[..|s| - 1], p, x);
      assert s == s[..|s| - 1] + [s[|s| - 1]];
    }
  }

  // As many are picked from a list as from any reordering of it.
  lemma SelectPermutes<T(!new)>(a: seq<T>, b: seq<T>, p: T -> bool)
    requires multiset(a) == multiset(b)
    ensures |Select(a, p)| == |Select(b, p)|
  {
    forall x ensures multiset(Select(a, p))[x] == multiset(Select(b, p))[x] {
      SelectCounts(a, p, x);
      SelectCounts(b, p, x);
    }
    assert multiset(Select(a, p)) == multiset(Select(b, p));
    assert |multiset(Select(a, p))| == |multiset(Select(b, p))|;
  }

  predicate NoRepeat<T(==)>(s: seq<T>) {
    forall i, j :: 0 <= i < j < |s| ==> s[i] != s[j]
  }

  lemma SubsetCount<T>(a: set<T>, b: set<T>)
    requires a <= b
    ensures |a| <= |b|
  {
    assert |b - a| == |b| - |a|;
  }

  // The positions of all elements that a predicate picks, in ascending order.
  predicate ArePositions<T>(s: seq<T>, p: T -> bool, at: seq<nat>) {
    && (forall k :: 0 <= k < |at| ==> at[k] < |s| && p(s[at[k]]))
    && (forall j, k :: 0 <= j < k < |at| ==> at[j] < at[k])
    && (forall i :: 0 <= i < |s| && p(s[i]) ==> i in at)
  }

  function ElementsAt<T>(s: seq<T>, at: seq<nat>): seq<T>
    requires forall k :: 0 <= k < |at| ==> at[k] < |s|
  {
    seq(|at|, k requires 0 <= k < |at| => s[at[k]])
  }

  lemma {:induction false} SelectPositions<T(!new)>(s: seq<T>, p: T -> bool) returns (at: seq<nat>)
    ensures ArePositions(s, p, at)
    ensures Select(s, p) == ElementsAt(s, at)
  {
    if s == [] {
      at := [];
    } else {
      var n := |s| - 1;
      var rest := SelectPositions(s[..n], p);
      PositionsNext(s, p, rest);
      ElementsNext(s, rest);
      at := if p(s[n]) then rest + [n] else rest;
    }
  }

  lemma ElementsNext<T>(s: seq<T>, rest: seq<nat>)
    requires s != [] && forall k :: 0 <= k < |rest| ==> rest[k] < |s| - 1
    ensures ElementsAt(s, rest) == ElementsAt(s[..|s| - 1], rest)
    ensures ElementsAt(s, rest + [|s| - 1]) == ElementsAt(s[..|s| - 1], rest) + [s[|s| - 1]]
  {
    assert forall k :: 0 <= k < |rest| ==> s[..|s| - 1][rest[k]] == s[rest[k]];
  }

  lemma PositionsNext<T>(s: seq<T>, p: T -> bool, rest: seq<nat>)
    requires s != [] && ArePositions(s[..|s| - 1], p, rest)
    ensures ArePositions(s, p, if p(s[|s| - 1]) then rest + [|s| - 1] else rest)
  {
    var n := |s| - 1;
    var at := if p(s[n]) then rest + [n] else rest;
    forall k | 0 <= k < |rest| ensures rest[k] < n && p(s[rest[k]]) && at[k] == rest[k] {
      assert s[..n][rest[k]] == s[rest[k]];
    }
    forall i | 0 <= i < |s| && p(s[i]) ensures i in at {
      if i < n {
        assert s[..n][i] == s[i];
        PositionStays(rest, at, i);
      } else {
        assert at[|rest|] == n;
      }
    }
  }

  lemma PositionStays(rest: seq<nat>, at: seq<nat>, i: nat)
    requires i in rest && rest <= at
    ensures i in at
  {}
}
