/** Finite sets of numbers: intervals, cardinalities and ascending enumeration. */
module Sets {

  datatype Option<+T> = None | Some(value: T)

  ghost predicate IsInterval(s: set<int>, lo: int, hi: int) {
    && (forall x :: x in s <==> lo <= x < hi)
    && |s| == if lo <= hi then hi - lo else 0
  }

  lemma {:induction false} IntervalExists(lo: int, hi: int) returns (s: set<int>)
    ensures IsInterval(s, lo, hi)
    decreases hi - lo
  {
    if hi <= lo {
      s := {};
    } else {
      s := IntervalExists(lo, hi - 1);
      s := s + {hi - 1};
    }
  }

  ghost function Interval(lo: int, hi: int): (s: set<int>)
    ensures forall x :: x in s <==> lo <= x < hi
    ensures |s| == if lo <= hi then hi - lo else 0
  {
    assert exists s :: IsInterval(s, lo, hi) by { var s := IntervalExists(lo, hi); }
    var s :| IsInterval(s, lo, hi); s
  }

  lemma SubsetSize<T>(a: set<T>, b: set<T>)
    requires a <= b
    ensures |a| <= |b|
    ensures |b - a| == |b| - |a|
  {
  }

  lemma UnionSize<T>(a: set<T>, b: set<T>)
    ensures |a + b| == |a| + |b| - |b * a|
  {
    assert a + b == a + (b - a);
    assert b == (b - a) + (b * a);
  }

  lemma SameSizeSubset<T>(a: set<T>, b: set<T>)
    requires a <= b && |a| == |b|
    ensures a == b
  {
    SubsetSize(a, b);
    assert b - a == {};
  }

  lemma {:induction false} FindMax(s: set<nat>) returns (m: nat)
    requires s != {}
    ensures m in s && forall x :: x in s ==> x <= m
  {
    var x :| x in s;
    m := x;
    if s != {x} {
      var n := FindMax(s - {x});
      m := if x < n then n else x;
      assert forall y :: y in s ==> y == x || y in s - {x};
    }
  }

  function Max(s: set<nat>): (m: nat)
    requires s != {}
    ensures m in s && forall x :: x in s ==> x <= m
  {
    assert exists m :: m in s && forall x :: x in s ==> x <= m by { var m := FindMax(s); }
    var m :| m in s && forall x :: x in s ==> x <= m;
    m
  }

  function SumBelow(f: nat -> nat, n: nat): nat {
    if n == 0 then 0 else SumBelow(f, n - 1) + f(n - 1)
  }

  lemma {:induction false} SumBelowIff(f: nat -> nat, n: nat)
    ensures SumBelow(f, n) > 0 <==> exists i: nat :: i < n && f(i) > 0
  {
    if n > 0 {
      SumBelowIff(f, n - 1);
    }
  }

  ghost function Members<T(!new)>(s: seq<T>): set<T> {
    set x | x in s
  }

  predicate Rising(ks: seq<nat>, i: int, j: int) {
    0 <= i < j < |ks| ==> ks[i] < ks[j]
  }

  ghost predicate Ascending(ks: seq<nat>) {
    forall i, j :: Rising(ks, i, j)
  }

  /** `ks` lists the elements of `s` in ascending order. */
  ghost predicate Lists(ks: seq<nat>, s: set<nat>) {
    && Ascending(ks)
    && (forall i :: 0 <= i < |ks| ==> ks[i] in s)
    && (forall k :: k in s ==> k in ks)
  }

  /** The order in which a `BTreeMap` visits its keys. */
  method InOrder(s: set<nat>) returns (ks: seq<nat>)
    ensures Lists(ks, s)
  {
    ks := [];
    var rest := s;
    while rest != {}
      invariant rest <= s && Lists(ks, s - rest)
      invariant forall x, i :: x in rest && 0 <= i < |ks| ==> x < ks[i]
      decreases rest
    {
      var m := Max(rest);
      assert s - (rest - {m}) == (s - rest) + {m};
      assert forall k :: k in [m] + ks <==> k == m || k in ks;
      forall i, j ensures Rising([m] + ks, i, j) {
        assert Rising(ks, i - 1, j - 1);
      }
      ks := [m] + ks;
      rest := rest - {m};
    }
    assert s - rest == s;
  }
}
