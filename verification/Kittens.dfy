/** Scans for kittens, the boundaries lighter than both neighbours: one index at a time, four at a time and two at a time. */
module KittenScans {

  const U64_RANGE: nat := 0x1_0000_0000_0000_0000

  type Weight = w: nat | w < U64_RANGE

  /** The kittens' indices and, for each, whether its left neighbour is the lighter one. */
  datatype Scan = Scan(kittens: seq<nat>, mergeLeft: seq<bool>)

  predicate IsKitten(ws: seq<Weight>, i: int) {
    0 < i < |ws| - 1 && ws[i] < ws[i - 1] && ws[i] < ws[i + 1]
  }

  /** What the scan has collected once the indices below `n` are done. */
  function ScanTo(ws: seq<Weight>, n: nat): Scan {
    if n == 0 then Scan([], [])
    else
      var before := ScanTo(ws, n - 1);
      if IsKitten(ws, n - 1) then
        Scan(before.kittens + [n - 1], before.mergeLeft + [ws[n - 2] < ws[n]])
      else before
  }

  ghost predicate NotNeighbours(kittens: seq<nat>, j: int, k: int) {
    0 <= j < k < |kittens| ==> kittens[j] + 1 < kittens[k]
  }

  /** The scan lists exactly the kittens, in ascending order and never two neighbours, each with its lighter side. */
  ghost predicate Exact(ws: seq<Weight>, n: nat, s: Scan) {
    && |s.kittens| == |s.mergeLeft|
    && (forall k :: 0 <= k < |s.kittens| ==>
          s.kittens[k] < n && IsKitten(ws, s.kittens[k])
          && (s.mergeLeft[k] <==> ws[s.kittens[k] - 1] < ws[s.kittens[k] + 1]))
    && (forall j, k :: NotNeighbours(s.kittens, j, k))
    && (forall i :: 0 <= i < n && IsKitten(ws, i) ==> i in s.kittens)
  }

  lemma {:induction false} ScanExact(ws: seq<Weight>, n: nat)
    ensures Exact(ws, n, ScanTo(ws, n))
  {
    if n > 0 {
      ScanExact(ws, n - 1);
      var before := ScanTo(ws, n - 1);
      if IsKitten(ws, n - 1) {
        forall k | 0 <= k < |before.kittens| ensures before.kittens[k] + 1 < n - 1 {
          assert IsKitten(ws, before.kittens[k]);
        }
        forall j, k ensures NotNeighbours(ScanTo(ws, n).kittens, j, k) {
          assert NotNeighbours(before.kittens, j, k);
        }
      }
    }
  }

  /** Written out: an index is listed exactly when it is an inner one and lighter than both neighbours. */
  lemma ScanLists(ws: seq<Weight>, i: nat)
    ensures i in ScanTo(ws, |ws|).kittens <==> 0 < i < |ws| - 1 && ws[i] < ws[i - 1] && ws[i] < ws[i + 1]
  {
    ScanExact(ws, |ws|);
  }

  /** Indices beyond the last inner one add nothing. */
  lemma {:induction false} ScanRest(ws: seq<Weight>, n: nat, m: nat)
    requires n <= m && |ws| <= n + 1
    ensures ScanTo(ws, m) == ScanTo(ws, n)
  {
    if n < m {
      ScanRest(ws, n, m - 1);
    }
  }

  /** Short arrays have no kittens. */
  lemma {:induction false} ScanShort(ws: seq<Weight>, n: nat)
    requires |ws| < 3
    ensures ScanTo(ws, n) == Scan([], [])
  {
    if n > 0 {
      ScanShort(ws, n - 1);
    }
  }

  method FindKittensScalar(ws: seq<Weight>) returns (r: Scan)
    ensures r == ScanTo(ws, |ws|)
  {
    r := Scan([], []);
    if |ws| < 3 {
      ScanShort(ws, |ws|);
      return;
    }
    assert ScanTo(ws, 1) == Scan([], []);
    for i := 1 to |ws| - 1
      invariant r == ScanTo(ws, i)
    {
      var w, left, right := ws[i], ws[i - 1], ws[i + 1];
      if w < left && w < right {
        r := Scan(r.kittens + [i], r.mergeLeft + [left < right]);
      }
    }
  }

  // ---------------------------------------------------------------- four at a time

  /** `1 << i` in a byte. */
  function Bit(i: nat): bv8
    requires i < 8
  {
    if i == 0 then 0x01 else if i == 1 then 0x02 else if i == 2 then 0x04 else if i == 3 then 0x08
    else if i == 4 then 0x10 else if i == 5 then 0x20 else if i == 6 then 0x40 else 0x80
  }

  lemma SetBit(mask: bv8, i: nat, j: nat)
    requires i < 4 && j < 4
    ensures (mask | Bit(i)) & Bit(j) != 0 <==> i == j || mask & Bit(j) != 0
  {
  }

  /** Bit `j` of the mask is set exactly when lane `j` is a local minimum. */
  method FindLocalMinima4(prev: seq<Weight>, curr: seq<Weight>, next: seq<Weight>) returns (mask: bv8)
    requires |prev| == 4 && |curr| == 4 && |next| == 4
    ensures forall j :: 0 <= j < 4 ==> (mask & Bit(j) != 0 <==> curr[j] < prev[j] && curr[j] < next[j])
  {
    mask := 0;
    for i := 0 to 4
      invariant forall j :: 0 <= j < 4 ==> (mask & Bit(j) != 0 <==> j < i && curr[j] < prev[j] && curr[j] < next[j])
    {
      var c, p, n := curr[i], prev[i], next[i];
      if c < p && c < n {
        forall j | 0 <= j < 4 ensures (mask | Bit(i)) & Bit(j) != 0 <==> i == j || mask & Bit(j) != 0 {
          SetBit(mask, i, j);
        }
        mask := mask | Bit(i);
      }
    }
  }

  /** Turn the set bits of a mask into kittens. */
  method TakeBits(ws: seq<Weight>, i: nat, width: nat, mask: bv8, before: Scan) returns (r: Scan)
    requires width <= 4 && 1 <= i && i + width < |ws| && before == ScanTo(ws, i)
    requires forall j :: 0 <= j < width ==> (mask & Bit(j) != 0 <==> IsKitten(ws, i + j))
    ensures r == ScanTo(ws, i + width)
  {
    r := before;
    for j := 0 to width
      invariant r == ScanTo(ws, i + j)
    {
      if mask & Bit(j) != 0 {
        var idx := i + j;
        if idx > 0 && idx < |ws| - 1 {
          r := Scan(r.kittens + [idx], r.mergeLeft + [ws[idx - 1] < ws[idx + 1]]);
        }
      }
    }
  }

  method ScanBatch4(ws: seq<Weight>, i: nat, before: Scan) returns (r: Scan)
    requires 1 <= i && i + 5 < |ws| && before == ScanTo(ws, i)
    ensures r == ScanTo(ws, i + 4)
  {
    var prev := [ws[i - 1], ws[i], ws[i + 1], ws[i + 2]];
    var curr := [ws[i], ws[i + 1], ws[i + 2], ws[i + 3]];
    var next := [ws[i + 1], ws[i + 2], ws[i + 3], ws[i + 4]];
    var mask := FindLocalMinima4(prev, curr, next);
    forall j | 0 <= j < 4 ensures mask & Bit(j) != 0 <==> IsKitten(ws, i + j) {
      assert prev[j] == ws[i + j - 1] && curr[j] == ws[i + j] && next[j] == ws[i + j + 1];
    }
    r := TakeBits(ws, i, 4, mask, before);
  }

  /** The batched scan with its tail loop returns what the scalar scan returns. */
  method FindKittensAvx2(ws: seq<Weight>) returns (r: Scan)
    ensures r == ScanTo(ws, |ws|)
  {
    r := Scan([], []);
    if |ws| < 3 {
      ScanShort(ws, |ws|);
      return;
    }
    var i := 1;
    while i + 5 < |ws|
      invariant 1 <= i < |ws| && r == ScanTo(ws, i)
      decreases |ws| - i
    {
      r := ScanBatch4(ws, i, r);
      i := i + 4;
    }
    r := ScanTail(ws, i, r);
  }

  /** The tail loop of both batched scans. */
  method ScanTail(ws: seq<Weight>, start: nat, before: Scan) returns (r: Scan)
    requires 1 <= start < |ws| && before == ScanTo(ws, start)
    ensures r == ScanTo(ws, |ws|)
  {
    r := before;
    var i := start;
    while i < |ws| - 1
      invariant 1 <= i < |ws| && r == ScanTo(ws, i)
    {
      var w := ws[i];
      if w < ws[i - 1] && w < ws[i + 1] {
        r := Scan(r.kittens + [i], r.mergeLeft + [ws[i - 1] < ws[i + 1]]);
      }
      i := i + 1;
    }
    ScanRest(ws, |ws| - 1, |ws|);
  }

  // ---------------------------------------------------------------- two at a time

  const ALL_ONES: bv64 := 0xffff_ffff_ffff_ffff

  /** A lane of the vector comparison: all ones or zero. */
  function LaneLess(a: Weight, b: Weight): bv64 {
    if a < b then ALL_ONES else 0
  }

  method FindLocalMinima2(prev: seq<Weight>, curr: seq<Weight>, next: seq<Weight>) returns (mask: bv8)
    requires |prev| == 2 && |curr| == 2 && |next| == 2
    ensures forall j :: 0 <= j < 2 ==> (mask & Bit(j) != 0 <==> curr[j] < prev[j] && curr[j] < next[j])
  {
    var lane0 := LaneLess(curr[0], prev[0]) & LaneLess(curr[0], next[0]);
    var lane1 := LaneLess(curr[1], prev[1]) & LaneLess(curr[1], next[1]);
    mask := 0;
    if lane0 != 0 {
      mask := mask | 1;
    }
    if lane1 != 0 {
      mask := mask | 2;
    }
  }

  method ScanBatch2(ws: seq<Weight>, i: nat, before: Scan) returns (r: Scan)
    requires 1 <= i && i + 3 < |ws| && before == ScanTo(ws, i)
    ensures r == ScanTo(ws, i + 2)
  {
    var prev := [ws[i - 1], ws[i]];
    var curr := [ws[i], ws[i + 1]];
    var next := [ws[i + 1], ws[i + 2]];
    var mask := FindLocalMinima2(prev, curr, next);
    forall j | 0 <= j < 2 ensures mask & Bit(j) != 0 <==> IsKitten(ws, i + j) {
      assert prev[j] == ws[i + j - 1] && curr[j] == ws[i + j] && next[j] == ws[i + j + 1];
    }
    r := TakeBits(ws, i, 2, mask, before);
  }

  method FindKittensNeon(ws: seq<Weight>) returns (r: Scan)
    ensures r == ScanTo(ws, |ws|)
  {
    r := Scan([], []);
    if |ws| < 3 {
      ScanShort(ws, |ws|);
      return;
    }
    var i := 1;
    while i + 3 < |ws|
      invariant 1 <= i < |ws| && r == ScanTo(ws, i)
      decreases |ws| - i
    {
      r := ScanBatch2(ws, i, r);
      i := i + 2;
    }
    r := ScanTail(ws, i, r);
  }
}
