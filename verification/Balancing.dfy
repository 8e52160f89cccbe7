/**
  The balancing phase: rounds that find all kittens and merge them from right to left, with indices found before the
  round's first merge, until a round changes nothing or the round limit is reached.
 */
module BalancingPhase {
  import opened Sets
  import opened KittenScans
  import opened Boundaries

  const MAX_ITERATIONS: nat := 1000

  /** Chunk `i` is undersized and its right boundary is lighter than the boundaries on both sides. */
  predicate IsRunt(bs: seq<nat>, ws: seq<Weight>, minSize: nat, i: int)
    requires |bs| == |ws|
  {
    && 0 <= i < |bs| - 2
    && bs[i + 1] < bs[i] + minSize
    && ws[i + 1] < (if i > 0 then ws[i] else MAX_WEIGHT)
    && ws[i + 1] < WeightOr(ws, i + 2)
  }

  /** Kittens are never neighbours. */
  lemma RuntsApart(bs: seq<nat>, ws: seq<Weight>, minSize: nat, i: int, j: int)
    requires |bs| == |ws| && i < j && IsRunt(bs, ws, minSize, i) && IsRunt(bs, ws, minSize, j)
    ensures i + 2 <= j
  {
  }

  ghost predicate TwoApart(ks: seq<nat>, j: int, k: int) {
    0 <= j < k < |ks| ==> ks[j] + 2 <= ks[k]
  }

  /** The listed indices keep a distance of two and leave room before the end. */
  ghost predicate Spaced(ks: seq<nat>, n: nat) {
    && (forall k :: 0 <= k < |ks| ==> ks[k] + 2 < n)
    && (forall j, k :: TwoApart(ks, j, k))
  }

  /** The kittens below `n`, in ascending order. */
  function RuntsTo(bs: seq<nat>, ws: seq<Weight>, minSize: nat, n: nat): seq<nat>
    requires |bs| == |ws|
  {
    if n == 0 then []
    else RuntsTo(bs, ws, minSize, n - 1) + if IsRunt(bs, ws, minSize, n - 1) then [n - 1] else []
  }

  function Runts(bs: seq<nat>, ws: seq<Weight>, minSize: nat): seq<nat>
    requires |bs| == |ws|
  {
    if |bs| < 3 then [] else RuntsTo(bs, ws, minSize, |bs| - 2)
  }

  lemma {:induction false} RuntsToExact(bs: seq<nat>, ws: seq<Weight>, minSize: nat, n: nat)
    requires |bs| == |ws|
    ensures forall i :: i in RuntsTo(bs, ws, minSize, n) <==> i < n && IsRunt(bs, ws, minSize, i)
    ensures Spaced(RuntsTo(bs, ws, minSize, n), |bs|)
  {
    if n > 0 {
      RuntsToExact(bs, ws, minSize, n - 1);
      var before, now := RuntsTo(bs, ws, minSize, n - 1), RuntsTo(bs, ws, minSize, n);
      if IsRunt(bs, ws, minSize, n - 1) {
        forall k | 0 <= k < |before| ensures before[k] + 2 <= n - 1 {
          assert before[k] in before;
          RuntsApart(bs, ws, minSize, before[k], n - 1);
        }
        forall j, k ensures TwoApart(now, j, k) {
          assert TwoApart(before, j, k);
        }
      } else {
        assert now == before;
      }
    }
  }

  /** Written out: all but the last chunk, undersized, with a right boundary lighter than the next and the previous one. */
  lemma RuntIff(bs: seq<nat>, ws: seq<Weight>, minSize: nat, i: int)
    requires |bs| == |ws|
    ensures IsRunt(bs, ws, minSize, i) <==>
              0 <= i < |bs| - 2 && bs[i + 1] - bs[i] < minSize && ws[i + 1] < ws[i + 2] && (i > 0 ==> ws[i + 1] < ws[i])
  {
  }

  /** The list holds exactly the kittens, and they keep a distance of two and room before the end. */
  lemma RuntsExact(bs: seq<nat>, ws: seq<Weight>, minSize: nat)
    requires |bs| == |ws|
    ensures forall i :: i in Runts(bs, ws, minSize) <==> IsRunt(bs, ws, minSize, i)
    ensures Spaced(Runts(bs, ws, minSize), |bs|)
  {
    if |bs| >= 3 {
      RuntsToExact(bs, ws, minSize, |bs| - 2);
    }
  }

  method FindKittens(bs: seq<nat>, ws: seq<Weight>, minSize: nat) returns (kittens: seq<nat>)
    requires WellFormed(bs, ws)
    ensures kittens == Runts(bs, ws, minSize)
  {
    kittens := [];
    if |bs| < 3 {
      return;
    }
    for i := 0 to |bs| - 2
      invariant kittens == RuntsTo(bs, ws, minSize, i)
    {
      assert Rising(bs, i, i + 1);
      var chunkSize := bs[i + 1] - bs[i];
      if chunkSize >= minSize {
        continue;
      }
      var chunkWeight := ws[i + 1];
      var leftWeight := if i > 0 then ws[i] else MAX_WEIGHT;
      var rightWeight := WeightOr(ws, i + 2);
      if chunkWeight < leftWeight && chunkWeight < rightWeight {
        kittens := kittens + [i];
      }
    }
  }

  /** Boundaries with their weights. */
  datatype Chunking = Chunking(bs: seq<nat>, ws: seq<Weight>)

  /** Chunk `i` merged with its lighter neighbour: one of its two boundaries goes. */
  function Merged(c: Chunking, i: nat): Chunking
    requires |c.bs| == |c.ws|
  {
    if i >= |c.bs| - 1 then c
    else if c.ws[i] < WeightOr(c.ws, i + 2) && i > 0 then Chunking(RemoveAt(c.bs, i), RemoveAt(c.ws, i))
    else if i + 1 < |c.bs| - 1 then Chunking(RemoveAt(c.bs, i + 1), RemoveAt(c.ws, i + 1))
    else c
  }

  /** Merging keeps both ends, and with room to its right a chunk other than the first loses exactly one boundary. */
  lemma MergedCoarsens(c: Chunking, i: nat)
    requires WellFormed(c.bs, c.ws) && |c.bs| >= 2
    ensures var d := Merged(c, i);
            Coarsens(d.bs, d.ws, c.bs, c.ws) && (0 < i && i + 2 < |c.bs| ==> |d.bs| == |c.bs| - 1)
  {
    if i >= |c.bs| - 1 {
      CoarsensItself(c.bs, c.ws);
    } else if c.ws[i] < WeightOr(c.ws, i + 2) && i > 0 {
      RemoveInner(c.bs, c.ws, i);
    } else if i + 1 < |c.bs| - 1 {
      RemoveInner(c.bs, c.ws, i + 1);
    } else {
      CoarsensItself(c.bs, c.ws);
    }
  }

  /**
    A chunk that is neither the first nor the last becomes one with a neighbour, on the side whose far boundary is
    lighter, and no other chunk changes.
   */
  method MergeKitten(c: Chunking, i: nat) returns (d: Chunking)
    requires WellFormed(c.bs, c.ws) && |c.bs| >= 1
    ensures d == Merged(c, i)
    ensures 0 < i < |c.bs| - 2 ==>
              var j := if c.ws[i] < c.ws[i + 2] then i - 1 else i;
              && |d.bs| == |c.bs| - 1
              && d.bs[j] == c.bs[j] <= c.bs[i] < c.bs[i + 1] <= c.bs[j + 2] == d.bs[j + 1]
              && d.bs[..j + 1] == c.bs[..j + 1] && d.bs[j + 1..] == c.bs[j + 2..]
  {
    assert Rising(c.bs, i, i + 1) && Rising(c.bs, i - 1, i) && Rising(c.bs, i + 1, i + 2);
    d := c;
    if i >= |c.bs| - 1 {
      return;
    }
    var leftWeight := c.ws[i];
    var rightWeight := WeightOr(c.ws, i + 2);
    if leftWeight < rightWeight && i > 0 {
      d := Chunking(RemoveAt(c.bs, i), RemoveAt(c.ws, i));
    } else if i + 1 < |c.bs| - 1 {
      d := Chunking(RemoveAt(c.bs, i + 1), RemoveAt(c.ws, i + 1));
    }
  }

  /** One round: the listed chunks are merged from right to left, except the first chunk. */
  function Round(c: Chunking, ks: seq<nat>): (d: Chunking)
    requires |c.bs| == |c.ws|
    ensures |d.bs| == |d.ws|
    decreases |ks|
  {
    if ks == [] then c
    else
      var i := ks[|ks| - 1];
      Round(if 0 < i < |c.bs| - 1 then Merged(c, i) else c, ks[..|ks| - 1])
  }

  function CountPositive(ks: seq<nat>): nat {
    if ks == [] then 0 else CountPositive(ks[..|ks| - 1]) + if ks[|ks| - 1] > 0 then 1 else 0
  }

  /** An index found before the round still has room to its right after the merges to its right. */
  lemma {:induction false} RoomLeft(ks: seq<nat>, n: nat)
    requires Spaced(ks, n + 1) && ks != []
    ensures Spaced(ks[..|ks| - 1], n)
  {
    var front := ks[..|ks| - 1];
    forall k | 0 <= k < |front| ensures front[k] + 2 < n {
      assert TwoApart(ks, k, |ks| - 1);
    }
    forall j, k ensures TwoApart(front, j, k) {
      assert TwoApart(ks, j, k);
    }
  }

  /** Every listed chunk but the first loses exactly one inner boundary, whatever was merged to its right. */
  lemma {:induction false} RoundCoarsens(c: Chunking, ks: seq<nat>)
    requires WellFormed(c.bs, c.ws) && |c.bs| >= 3 && Spaced(ks, |c.bs|)
    ensures var d := Round(c, ks);
            Coarsens(d.bs, d.ws, c.bs, c.ws) && |d.bs| >= 3 && |d.bs| == |c.bs| - CountPositive(ks)
    decreases |ks|
  {
    if ks == [] {
      CoarsensItself(c.bs, c.ws);
    } else {
      var i, front := ks[|ks| - 1], ks[..|ks| - 1];
      RoomLeft(ks, |c.bs| - 1);
      if i > 0 {
        MergedCoarsens(c, i);
        var d := Merged(c, i);
        RoundCoarsens(d, front);
        CoarsensTransitive(Round(d, front).bs, Round(d, front).ws, d.bs, d.ws, c.bs, c.ws);
      } else {
        SpacedWider(front, |c.bs| - 1);
        RoundCoarsens(c, front);
      }
    }
  }

  // ---------------------------------------------------------------- which boundaries a round removes

  /** Every listed chunk ends before boundary `p`. */
  ghost predicate EndBelow(ks: seq<nat>, p: int) {
    forall k :: 0 <= k < |ks| ==> ks[k] + 1 < p
  }

  /** A round is its first merge, of the last chunk listed, and then the round over the rest. */
  lemma RoundPeels(c: Chunking, ks: seq<nat>)
    requires |c.bs| == |c.ws| && Spaced(ks, |c.bs|) && ks != []
    ensures var i, front := ks[|ks| - 1], ks[..|ks| - 1];
            var c1 := if i > 0 then Merged(c, i) else c;
            && |c1.bs| == |c1.ws| && Round(c, ks) == Round(c1, front) && Spaced(front, |c1.bs|)
            && |c1.bs| == |c.bs| - (if i > 0 then 1 else 0)
            && CountPositive(ks) == CountPositive(front) + (if i > 0 then 1 else 0)
            && EndBelow(front, i)
  {
    RoomLeft(ks, |c.bs| - 1);
    if ks[|ks| - 1] == 0 {
      SpacedWider(ks[..|ks| - 1], |c.bs| - 1);
    }
    forall k | 0 <= k < |ks| - 1 ensures ks[k] + 1 < ks[|ks| - 1] {
      assert TwoApart(ks, k, |ks| - 1);
    }
  }

  lemma EndBelowLower(ks: seq<nat>, p: int, q: int)
    requires EndBelow(ks, p) && p <= q
    ensures EndBelow(ks, q)
  {
  }

  /** Position `p` of `c` is position `q` of `d`. */
  predicate SameAt(c: Chunking, p: int, d: Chunking, q: int) {
    && |c.bs| == |c.ws| && |d.bs| == |d.ws| && 0 <= p < |c.bs| && 0 <= q < |d.bs|
    && d.bs[q] == c.bs[p] && d.ws[q] == c.ws[p]
  }

  lemma LastBelow(ks: seq<nat>, p: int, n: nat)
    requires ks != [] && EndBelow(ks, p) && Spaced(ks, n)
    ensures ks[|ks| - 1] + 1 < p && ks[|ks| - 1] + 2 < n
  {
  }

  lemma SuffixOfMerged(c: Chunking, i: nat, p: nat, d: Chunking, q: int)
    requires |c.bs| == |c.ws| && 0 < i && i + 1 < p < |c.bs| && SameAt(Merged(c, i), p - 1, d, q)
    ensures SameAt(c, p, d, q)
  {
    MergedAt(c, i, p - 1);
  }

  /** Past the listed chunks the round changes nothing but the position. */
  lemma {:induction false} RoundSuffix(c: Chunking, ks: seq<nat>, p: nat)
    requires |c.bs| == |c.ws| && p < |c.bs| && Spaced(ks, |c.bs|) && EndBelow(ks, p)
    ensures SameAt(c, p, Round(c, ks), p - CountPositive(ks))
    decreases |ks|
  {
    if ks != [] {
      var i, front := ks[|ks| - 1], ks[..|ks| - 1];
      RoundPeels(c, ks);
      if i > 0 {
        LastBelow(ks, p, |c.bs|);
        EndBelowLower(front, i, p - 1);
        RoundSuffix(Merged(c, i), front, p - 1);
        SuffixOfMerged(c, i, p, Round(Merged(c, i), front), p - 1 - CountPositive(front));
      } else {
        EndBelowLower(front, i, p);
        RoundSuffix(c, front, p);
      }
    }
  }

  /** A merge position by position. */
  lemma MergedAt(c: Chunking, i: nat, j: nat)
    requires |c.bs| == |c.ws| && 0 < i && i + 2 < |c.bs| && j + 1 < |c.bs|
    ensures var d := Merged(c, i);
            var from := if j < i || (j == i && !(c.ws[i] < c.ws[i + 2])) then j else j + 1;
            |d.bs| == |d.ws| == |c.bs| - 1 && d.bs[j] == c.bs[from] && d.ws[j] == c.ws[from]
  {
  }

  /**
    Chunk `i` of `c` has become one with a neighbour in `d`: of its two boundaries the one at `q` of `d` is left, the
    left one if it is not lighter than the next boundary to the right in `d`, and otherwise the right one.
   */
  ghost predicate JoinedAt(c: Chunking, d: Chunking, i: nat, q: nat)
    requires |c.bs| == |c.ws| && |d.bs| == |d.ws|
  {
    && 0 < i < |c.bs| - 2 && q + 1 < |d.bs|
    && (if c.ws[i] < d.ws[q + 1] then d.bs[q] == c.bs[i + 1] && d.ws[q] == c.ws[i + 1]
        else d.bs[q] == c.bs[i] && d.ws[q] == c.ws[i])
    && d.bs[q + 1] > c.bs[i + 1]
    && (q > 0 ==> d.bs[q - 1] < c.bs[i])
  }

  /** Exactly one of the two boundaries is left. */
  lemma JoinedLosesOne(c: Chunking, d: Chunking, i: nat, q: nat)
    requires WellFormed(c.bs, c.ws) && WellFormed(d.bs, d.ws) && JoinedAt(c, d, i, q)
    ensures c.bs[i] in d.bs <==> !(c.ws[i] < d.ws[q + 1])
    ensures c.bs[i + 1] in d.bs <==> c.ws[i] < d.ws[q + 1]
  {
    assert Rising(c.bs, i, i + 1);
    forall p | 0 <= p < |d.bs| && p != q ensures d.bs[p] != c.bs[i] && d.bs[p] != c.bs[i + 1] {
      assert Rising(d.bs, p, q - 1) && Rising(d.bs, q + 1, p);
    }
  }

  /** What lies before a boundary of the coarser list was before it in the finer one. */
  lemma DrawnBefore(d: Chunking, c: Chunking, q: nat, i: nat)
    requires Coarsens(d.bs, d.ws, c.bs, c.ws) && 0 < q < |d.bs| && i < |c.bs| && d.bs[q] == c.bs[i]
    ensures i > 0 && d.bs[q - 1] <= c.bs[i - 1]
  {
    assert Has(c.bs, c.ws, d.bs[q - 1], d.ws[q - 1]);
    var j :| IsAt(c.bs, c.ws, j, d.bs[q - 1], d.ws[q - 1]);
    assert Rising(d.bs, q - 1, q) && Rising(c.bs, i, j) && Rising(c.bs, j, i - 1);
  }

  /** The chunk merged first in a round is the last one listed; the later merges only shift what it leaves. */
  lemma LastListedShifts(c: Chunking, ks: seq<nat>)
    requires WellFormed(c.bs, c.ws) && Spaced(ks, |c.bs|) && ks != [] && ks[|ks| - 1] > 0
    ensures var i, r, c1 := ks[|ks| - 1], CountPositive(ks[..|ks| - 1]), Merged(c, ks[|ks| - 1]);
            var d := Round(c, ks);
            && r <= i && |c1.bs| == |c1.ws| == |c.bs| - 1 && i + 1 - r < |d.bs|
            && d.bs[i - r] == c1.bs[i] && d.ws[i - r] == c1.ws[i]
            && d.bs[i + 1 - r] == c1.bs[i + 1] && d.ws[i + 1 - r] == c1.ws[i + 1]
  {
    var i, front := ks[|ks| - 1], ks[..|ks| - 1];
    RoundPeels(c, ks);
    MergedAt(c, i, i);
    EndBelowLower(front, i, i + 1);
    RoundSuffix(Merged(c, i), front, i);
    RoundSuffix(Merged(c, i), front, i + 1);
  }

  lemma LastListedCoarsens(c: Chunking, ks: seq<nat>)
    requires WellFormed(c.bs, c.ws) && Spaced(ks, |c.bs|) && ks != [] && ks[|ks| - 1] > 0
    ensures Coarser(Round(c, ks), Merged(c, ks[|ks| - 1]))
  {
    RoundPeels(c, ks);
    MergedForm(c, ks[|ks| - 1]);
    RoundCoarsens(Merged(c, ks[|ks| - 1]), ks[..|ks| - 1]);
  }

  /** What is left before a boundary of a merged chunk was before the chunk. */
  lemma BeforeMerged(c: Chunking, i: nat, d: Chunking, q: nat)
    requires WellFormed(c.bs, c.ws) && 0 < i && i + 2 < |c.bs| && Coarser(d, Merged(c, i))
    requires 0 < q < |d.bs| && d.bs[q] == Merged(c, i).bs[i]
    ensures d.bs[q - 1] < c.bs[i]
  {
    DrawnBefore(d, Merged(c, i), q, i);
    MergedAt(c, i, i - 1);
    assert Rising(c.bs, i - 1, i);
  }

  lemma BeforeLastListed(c: Chunking, ks: seq<nat>)
    requires WellFormed(c.bs, c.ws) && Spaced(ks, |c.bs|) && ks != [] && ks[|ks| - 1] > 0
    ensures var i, r := ks[|ks| - 1], CountPositive(ks[..|ks| - 1]);
            0 < i - r < |Round(c, ks).bs| ==> Round(c, ks).bs[i - r - 1] < c.bs[i]
  {
    var i, d := ks[|ks| - 1], Round(c, ks);
    var q := i - CountPositive(ks[..|ks| - 1]);
    LastListedShifts(c, ks);
    if q > 0 {
      LastListedCoarsens(c, ks);
      BeforeMerged(c, i, d, q);
    }
  }

  lemma LastListedJoins(c: Chunking, ks: seq<nat>)
    requires WellFormed(c.bs, c.ws) && Spaced(ks, |c.bs|) && ks != [] && ks[|ks| - 1] > 0
    ensures var i, r := ks[|ks| - 1], CountPositive(ks[..|ks| - 1]);
            r <= i && JoinedAt(c, Round(c, ks), i, i - r)
  {
    var i := ks[|ks| - 1];
    LastListedShifts(c, ks);
    BeforeLastListed(c, ks);
    MergedAt(c, i, i);
    MergedAt(c, i, i + 1);
    assert Rising(c.bs, i + 1, i + 2);
  }

  /** Two chunkings that agree at the boundaries of chunk `i` and before it. */
  lemma JoinedElsewhere(c: Chunking, c1: Chunking, d: Chunking, i: nat, q: nat)
    requires |c.bs| == |c.ws| && |c1.bs| == |c1.ws| && |d.bs| == |d.ws| && i + 2 < |c.bs| && JoinedAt(c1, d, i, q)
    requires c1.bs[i] == c.bs[i] && c1.ws[i] == c.ws[i] && c1.bs[i + 1] == c.bs[i + 1] && c1.ws[i + 1] == c.ws[i + 1]
    ensures JoinedAt(c, d, i, q)
  {
  }

  /** Every listed chunk but the first becomes one with a neighbour, whatever is merged to its right. */
  lemma {:induction false} ListedJoins(c: Chunking, ks: seq<nat>, n: nat) returns (q: nat)
    requires WellFormed(c.bs, c.ws) && Spaced(ks, |c.bs|) && n < |ks| && ks[n] > 0
    ensures JoinedAt(c, Round(c, ks), ks[n], q)
    decreases |ks|
  {
    if n == |ks| - 1 {
      LastListedJoins(c, ks);
      q := ks[n] - CountPositive(ks[..n]);
    } else {
      var i, last, front := ks[n], ks[|ks| - 1], ks[..|ks| - 1];
      var c1 := Merged(c, last);
      RoundPeels(c, ks);
      assert front[n] == i;
      MergedForm(c, last);
      q := ListedJoins(c1, front, n);
      MergedAt(c, last, i);
      MergedAt(c, last, i + 1);
      JoinedElsewhere(c, c1, Round(c1, front), i, q);
    }
  }

  lemma MergedForm(c: Chunking, i: nat)
    requires WellFormed(c.bs, c.ws) && 0 < i && i + 2 < |c.bs|
    ensures WellFormed(Merged(c, i).bs, Merged(c, i).ws) && |Merged(c, i).bs| == |c.bs| - 1
  {
    MergedCoarsens(c, i);
  }

  /** A boundary of no listed chunk, the first one aside, stays. */
  lemma {:induction false} OthersStay(c: Chunking, ks: seq<nat>, j: nat)
    requires |c.bs| == |c.ws| && Spaced(ks, |c.bs|) && j < |c.bs|
    requires forall k :: 0 <= k < |ks| && ks[k] > 0 ==> j != ks[k] && j != ks[k] + 1
    ensures c.bs[j] in Round(c, ks).bs
    decreases |ks|
  {
    if ks != [] {
      var i, front := ks[|ks| - 1], ks[..|ks| - 1];
      RoundPeels(c, ks);
      if i > 0 {
        MergedAt(c, i, if j < i then j else j - 1);
        OthersStay(Merged(c, i), front, if j < i then j else j - 1);
      } else {
        OthersStay(c, front, j);
      }
    }
  }

  /** Boundary `j` belongs to a kitten other than the first chunk. */
  predicate Touched(c: Chunking, minSize: nat, j: int)
    requires |c.bs| == |c.ws|
  {
    (j > 0 && IsRunt(c.bs, c.ws, minSize, j)) || (j > 1 && IsRunt(c.bs, c.ws, minSize, j - 1))
  }

  /**
    One round in full: every kitten but the first chunk loses exactly one of its own two boundaries, the one towards the
    lighter far boundary, and every other boundary stays.
   */
  lemma RoundExact(c: Chunking, minSize: nat)
    requires WellFormed(c.bs, c.ws) && |c.bs| >= 3
    ensures var d := Round(c, Runts(c.bs, c.ws, minSize));
            && WellFormed(d.bs, d.ws)
            && (forall i: nat :: i > 0 && IsRunt(c.bs, c.ws, minSize, i) ==> exists q: nat :: JoinedAt(c, d, i, q))
            && (forall i: nat :: i > 0 && IsRunt(c.bs, c.ws, minSize, i) ==> (c.bs[i] in d.bs <==> c.bs[i + 1] !in d.bs))
            && (forall j :: 0 <= j < |c.bs| && !Touched(c, minSize, j) ==> c.bs[j] in d.bs)
            && (forall b :: b in d.bs ==> b in c.bs)
  {
    var ks := Runts(c.bs, c.ws, minSize);
    var d := Round(c, ks);
    RuntsExact(c.bs, c.ws, minSize);
    RoundCoarsens(c, ks);
    forall i: nat | i > 0 && IsRunt(c.bs, c.ws, minSize, i)
      ensures (exists q: nat :: JoinedAt(c, d, i, q)) && (c.bs[i] in d.bs <==> c.bs[i + 1] !in d.bs)
    {
      assert i in ks;
      var n :| 0 <= n < |ks| && ks[n] == i;
      var q := ListedJoins(c, ks, n);
      JoinedLosesOne(c, d, i, q);
    }
    forall j | 0 <= j < |c.bs| && !Touched(c, minSize, j) ensures c.bs[j] in d.bs {
      forall k | 0 <= k < |ks| && ks[k] > 0 ensures j != ks[k] && j != ks[k] + 1 {
        assert ks[k] in ks;
      }
      OthersStay(c, ks, j);
    }
    forall b | b in d.bs ensures b in c.bs {
      var p :| 0 <= p < |d.bs| && d.bs[p] == b;
      assert Has(c.bs, c.ws, d.bs[p], d.ws[p]);
    }
  }

  lemma SpacedWider(ks: seq<nat>, n: nat)
    requires Spaced(ks, n)
    ensures Spaced(ks, n + 1)
  {
  }

  lemma {:induction false} NonePositive(c: Chunking, ks: seq<nat>)
    requires |c.bs| == |c.ws| && forall k :: 0 <= k < |ks| ==> ks[k] == 0
    ensures Round(c, ks) == c && CountPositive(ks) == 0
  {
    if ks != [] {
      NonePositive(c, ks[..|ks| - 1]);
    }
  }

  lemma {:induction false} SomePositive(ks: seq<nat>, k: nat)
    requires k < |ks| && ks[k] > 0
    ensures CountPositive(ks) > 0
  {
    if k < |ks| - 1 {
      SomePositive(ks[..|ks| - 1], k);
    }
  }

  method MergeRound(c: Chunking, kittens: seq<nat>) returns (d: Chunking, changed: bool)
    requires WellFormed(c.bs, c.ws) && |c.bs| >= 3 && Spaced(kittens, |c.bs|)
    ensures d == Round(c, kittens)
    ensures changed <==> CountPositive(kittens) > 0
  {
    d, changed := c, false;
    var left := kittens;
    while left != []
      invariant WellFormed(d.bs, d.ws) && |d.bs| >= 3 && Spaced(left, |d.bs|)
      invariant Round(d, left) == Round(c, kittens)
      invariant if changed then CountPositive(kittens) > 0 else CountPositive(left) == CountPositive(kittens)
      decreases |left|
    {
      var i := left[|left| - 1];
      RoomLeft(left, |d.bs| - 1);
      left := left[..|left| - 1];
      if i > 0 && i < |d.bs| - 1 {
        MergedCoarsens(d, i);
        d := MergeKitten(d, i);
        changed := true;
      } else {
        SpacedWider(left, |d.bs| - 1);
      }
    }
  }

  /** No kitten is left, except possibly the first chunk. */
  ghost predicate Settled(bs: seq<nat>, ws: seq<Weight>, minSize: nat)
    requires |bs| == |ws|
  {
    forall i :: IsRunt(bs, ws, minSize, i) ==> i == 0
  }

  /** At most `n` rounds, ending with the first one that merges nothing. */
  function Rounds(c: Chunking, minSize: nat, n: nat): (d: Chunking)
    requires |c.bs| == |c.ws|
    ensures |d.bs| == |d.ws|
    decreases n
  {
    var ks := Runts(c.bs, c.ws, minSize);
    if n == 0 || CountPositive(ks) == 0 then c
    else Rounds(Round(c, ks), minSize, n - 1)
  }

  lemma NothingToMerge(c: Chunking, minSize: nat)
    requires |c.bs| == |c.ws|
    ensures CountPositive(Runts(c.bs, c.ws, minSize)) == 0 <==> Settled(c.bs, c.ws, minSize)
    ensures Settled(c.bs, c.ws, minSize) ==> Round(c, Runts(c.bs, c.ws, minSize)) == c
  {
    var ks := Runts(c.bs, c.ws, minSize);
    RuntsExact(c.bs, c.ws, minSize);
    if Settled(c.bs, c.ws, minSize) {
      forall k | 0 <= k < |ks| ensures ks[k] == 0 {
        assert ks[k] in ks;
      }
      NonePositive(c, ks);
    } else {
      var i :| IsRunt(c.bs, c.ws, minSize, i) && i != 0;
      assert i in ks;
      var k :| 0 <= k < |ks| && ks[k] == i;
      SomePositive(ks, k);
    }
  }

  /** A round with something to merge makes the chunking strictly coarser. */
  lemma RoundShrinks(c: Chunking, minSize: nat)
    requires WellFormed(c.bs, c.ws) && |c.bs| >= 3
    ensures var d := Round(c, Runts(c.bs, c.ws, minSize));
            && Coarsens(d.bs, d.ws, c.bs, c.ws)
            && 3 <= |d.bs| == |c.bs| - CountPositive(Runts(c.bs, c.ws, minSize))
  {
    RuntsExact(c.bs, c.ws, minSize);
    RoundCoarsens(c, Runts(c.bs, c.ws, minSize));
  }

  ghost predicate Coarser(d: Chunking, c: Chunking) {
    Coarsens(d.bs, d.ws, c.bs, c.ws)
  }

  lemma RoundKeepsForm(c: Chunking, minSize: nat)
    requires WellFormed(c.bs, c.ws) && |c.bs| >= 3
    ensures var d := Round(c, Runts(c.bs, c.ws, minSize));
            WellFormed(d.bs, d.ws) && |d.bs| >= 3
  {
    RoundShrinks(c, minSize);
  }

  lemma CoarserBefore(c: Chunking, minSize: nat, e: Chunking)
    requires WellFormed(c.bs, c.ws) && |c.bs| >= 3
    requires Coarser(e, Round(c, Runts(c.bs, c.ws, minSize)))
    ensures Coarser(e, c)
  {
    var d := Round(c, Runts(c.bs, c.ws, minSize));
    RoundShrinks(c, minSize);
    CoarsensTransitive(e.bs, e.ws, d.bs, d.ws, c.bs, c.ws);
  }

  /** The rounds return a coarser chunking of the same data. */
  lemma {:induction false} RoundsCoarsen(c: Chunking, minSize: nat, n: nat)
    requires WellFormed(c.bs, c.ws) && |c.bs| >= 3
    ensures Coarser(Rounds(c, minSize, n), c)
    decreases n
  {
    var ks := Runts(c.bs, c.ws, minSize);
    if n == 0 || CountPositive(ks) == 0 {
      CoarsensItself(c.bs, c.ws);
    } else {
      var d := Round(c, ks);
      RoundKeepsForm(c, minSize);
      var e := Rounds(d, minSize, n - 1);
      assert Rounds(c, minSize, n) == e;
      RoundsCoarsen(d, minSize, n - 1);
      CoarserBefore(c, minSize, e);
    }
  }

  /** In none of the rounds does the boundary belong to a kitten other than the first chunk. */
  predicate NeverTouched(c: Chunking, minSize: nat, n: nat, b: nat)
    requires |c.bs| == |c.ws|
    decreases n
  {
    var ks := Runts(c.bs, c.ws, minSize);
    n == 0 || CountPositive(ks) == 0
    || ((forall j :: 0 <= j < |c.bs| && c.bs[j] == b ==> !Touched(c, minSize, j))
        && NeverTouched(Round(c, ks), minSize, n - 1, b))
  }

  /** One round of it. */
  lemma RoundKeepsOther(c: Chunking, minSize: nat, b: nat)
    requires WellFormed(c.bs, c.ws) && |c.bs| >= 3 && b in c.bs
    requires forall j :: 0 <= j < |c.bs| && c.bs[j] == b ==> !Touched(c, minSize, j)
    ensures b in Round(c, Runts(c.bs, c.ws, minSize)).bs
  {
    var j :| 0 <= j < |c.bs| && c.bs[j] == b;
    RoundExact(c, minSize);
  }

  /** A boundary is removed only because in some round it is a boundary of a kitten. */
  lemma {:induction false} RoundsKeepOthers(c: Chunking, minSize: nat, n: nat, b: nat)
    requires WellFormed(c.bs, c.ws) && |c.bs| >= 3 && b in c.bs && NeverTouched(c, minSize, n, b)
    ensures b in Rounds(c, minSize, n).bs
    decreases n
  {
    if n > 0 && CountPositive(Runts(c.bs, c.ws, minSize)) > 0 {
      RoundKeepsOther(c, minSize, b);
      RoundKeepsForm(c, minSize);
      RoundsKeepOthers(Round(c, Runts(c.bs, c.ws, minSize)), minSize, n - 1, b);
    }
  }

  /** Unless there are more boundaries than rounds, they leave no kitten but possibly the first chunk. */
  lemma {:induction false} RoundsSettle(c: Chunking, minSize: nat, n: nat)
    requires WellFormed(c.bs, c.ws) && 3 <= |c.bs| <= n + 3
    ensures Settled(Rounds(c, minSize, n).bs, Rounds(c, minSize, n).ws, minSize)
    decreases n
  {
    NothingToMerge(c, minSize);
    if n > 0 && CountPositive(Runts(c.bs, c.ws, minSize)) > 0 {
      RoundShrinks(c, minSize);
      RoundsSettle(Round(c, Runts(c.bs, c.ws, minSize)), minSize, n - 1);
    }
  }

  /** A first chunk that is large enough stays large enough, so then no kitten is left at all. */
  lemma LargeFirstChunk(c: Chunking, d: Chunking, minSize: nat)
    requires Coarsens(d.bs, d.ws, c.bs, c.ws) && Settled(d.bs, d.ws, minSize)
    requires c.bs[1] >= c.bs[0] + minSize
    ensures forall i :: !IsRunt(d.bs, d.ws, minSize, i)
  {
    FirstChunkGrows(d.bs, d.ws, c.bs, c.ws);
  }

  // ---------------------------------------------------------------- a kitten that stays: the first chunk

  /** A settled chunking is left as it is, so then a kitten remains exactly when the first chunk is one. */
  lemma SettledStays(c: Chunking, minSize: nat, n: nat)
    requires |c.bs| == |c.ws| && Settled(c.bs, c.ws, minSize)
    ensures Rounds(c, minSize, n) == c
    ensures HasKitten(Rounds(c, minSize, n), minSize) <==> IsRunt(c.bs, c.ws, minSize, 0)
  {
    NothingToMerge(c, minSize);
  }

  ghost predicate HasKitten(c: Chunking, minSize: nat)
    requires |c.bs| == |c.ws|
  {
    exists i :: IsRunt(c.bs, c.ws, minSize, i)
  }

  /** The first chunk is undersized, and its right boundary is lighter than every later one. */
  ghost predicate LightFirst(c: Chunking, minSize: nat) {
    && |c.bs| == |c.ws| && |c.bs| >= 3
    && c.bs[1] < c.bs[0] + minSize
    && forall j :: 2 <= j < |c.ws| ==> c.ws[1] < c.ws[j]
  }

  lemma {:induction false} RoundKeepsLight(c: Chunking, minSize: nat, ks: seq<nat>)
    requires LightFirst(c, minSize) && Spaced(ks, |c.bs|) && forall k :: 0 <= k < |ks| ==> ks[k] != 1
    ensures LightFirst(Round(c, ks), minSize)
    decreases |ks|
  {
    if ks != [] {
      var i, front := ks[|ks| - 1], ks[..|ks| - 1];
      RoomLeft(ks, |c.bs| - 1);
      if i > 0 {
        RoundKeepsLight(Merged(c, i), minSize, front);
      } else {
        SpacedWider(front, |c.bs| - 1);
        RoundKeepsLight(c, minSize, front);
      }
    }
  }

  /** Such a first chunk is found in every round and never merged: however many rounds there are, it stays a kitten. */
  lemma {:induction false} FirstKittenStays(c: Chunking, minSize: nat, n: nat)
    requires LightFirst(c, minSize)
    ensures LightFirst(Rounds(c, minSize, n), minSize)
    ensures IsRunt(Rounds(c, minSize, n).bs, Rounds(c, minSize, n).ws, minSize, 0)
    decreases n
  {
    var ks := Runts(c.bs, c.ws, minSize);
    if n > 0 && CountPositive(ks) > 0 {
      RuntsExact(c.bs, c.ws, minSize);
      forall k | 0 <= k < |ks| ensures ks[k] != 1 {
        assert ks[k] in ks;
      }
      RoundKeepsLight(c, minSize, ks);
      FirstKittenStays(Round(c, ks), minSize, n - 1);
    }
  }

  /** The chunking the phase starts from; the weights of inner boundaries are hashed from the data. */
  function Initial(bs: seq<nat>, dataLength: nat, weightAt: nat -> Weight): (c: Chunking)
    ensures |c.bs| == |c.ws|
  {
    Chunking(bs, ComputeWeights(bs, dataLength, weightAt))
  }

  ghost predicate NoneRemain(bs: seq<nat>, dataLength: nat, weightAt: nat -> Weight, minSize: nat, n: nat) {
    !HasKitten(Rounds(Initial(bs, dataLength, weightAt), minSize, n), minSize)
  }

  /** With enough rounds none remain, as long as the first chunk is large enough or ends at the end of the data. */
  lemma NoneRemainIf(bs: seq<nat>, dataLength: nat, weightAt: nat -> Weight, minSize: nat, n: nat)
    requires Ascending(bs) && 3 <= |bs| <= n + 3
    requires bs[1] >= bs[0] + minSize || bs[1] >= dataLength
    ensures NoneRemain(bs, dataLength, weightAt, minSize, n)
  {
    var c := Initial(bs, dataLength, weightAt);
    RoundsSettle(c, minSize, n);
    RoundsCoarsen(c, minSize, n);
    if bs[1] >= bs[0] + minSize {
      LargeFirstChunk(c, Rounds(c, minSize, n), minSize);
    } else {
      forall i | 0 <= i < |bs| - 2 ensures !IsRunt(c.bs, c.ws, minSize, i) {
        assert Rising(bs, 1, i + 1);
      }
      SettledStays(c, minSize, n);
    }
  }

  /**
    The exact condition for "until none remain", for a caller that knows the boundaries and not the hashes: whatever the
    weights, no kitten remains, if and only if the first chunk is large enough or ends at the end of the data.
   */
  lemma NoneRemainIff(bs: seq<nat>, dataLength: nat, minSize: nat, n: nat)
    requires Ascending(bs) && 3 <= |bs| <= n + 3
    ensures (forall weightAt: nat -> Weight :: NoneRemain(bs, dataLength, weightAt, minSize, n))
            <==> bs[1] >= bs[0] + minSize || bs[1] >= dataLength
  {
    if bs[1] >= bs[0] + minSize || bs[1] >= dataLength {
      forall weightAt: nat -> Weight ensures NoneRemain(bs, dataLength, weightAt, minSize, n) {
        NoneRemainIf(bs, dataLength, weightAt, minSize, n);
      }
    } else {
      var weightAt: nat -> Weight := b => if b == bs[1] then 0 else 1;
      var c := Initial(bs, dataLength, weightAt);
      forall j | 2 <= j < |bs| ensures c.ws[1] < c.ws[j] {
        assert Rising(bs, 0, 1) && Rising(bs, 1, j);
      }
      FirstKittenStays(c, minSize, n);
      assert !NoneRemain(bs, dataLength, weightAt, minSize, n);
    }
  }

  // ---------------------------------------------------------------- a kitten that stays: the round limit

  ghost predicate Falls(ws: seq<Weight>, i: int, j: int) {
    0 < i < j < |ws| - 1 ==> ws[i] > ws[j]
  }

  /** All data is shorter than the minimum, inner weights fall from left to right, and the last weight is above them. */
  ghost predicate Falling(c: Chunking, minSize: nat) {
    && WellFormed(c.bs, c.ws) && |c.bs| >= 3
    && c.bs[|c.bs| - 1] < c.bs[0] + minSize
    && (forall i, j :: Falls(c.ws, i, j))
    && (forall i :: 0 < i < |c.ws| - 1 ==> c.ws[i] < c.ws[|c.ws| - 1])
  }

  /** Then the only kitten is the last chunk but one. */
  lemma FallingKitten(c: Chunking, minSize: nat, i: int)
    requires Falling(c, minSize)
    ensures IsRunt(c.bs, c.ws, minSize, i) <==> i == |c.bs| - 3
  {
    var last := |c.bs| - 1;
    if i == last - 2 {
      assert Rising(c.bs, 0, i) && Rising(c.bs, i + 1, last) && Falls(c.ws, i, i + 1);
    } else {
      assert Falls(c.ws, i + 1, i + 2);
    }
  }

  lemma FallingList(c: Chunking, minSize: nat)
    requires Falling(c, minSize)
    ensures Runts(c.bs, c.ws, minSize) == [|c.bs| - 3]
  {
    var ks := Runts(c.bs, c.ws, minSize);
    RuntsExact(c.bs, c.ws, minSize);
    FallingKitten(c, minSize, |c.bs| - 3);
    assert |c.bs| - 3 in ks;
    forall k | 0 <= k < |ks| ensures ks[k] == |c.bs| - 3 {
      assert ks[k] in ks;
      FallingKitten(c, minSize, ks[k]);
    }
    assert TwoApart(ks, 0, 1);
  }

  /** It is merged to the left, and everything stays as described with one boundary less. */
  lemma FallingMerge(c: Chunking, minSize: nat)
    requires Falling(c, minSize) && |c.bs| >= 4
    ensures Falling(Merged(c, |c.bs| - 3), minSize) && |Merged(c, |c.bs| - 3).bs| == |c.bs| - 1
  {
    var k := |c.bs| - 3;
    var d := Merged(c, k);
    assert d == Chunking(RemoveAt(c.bs, k), RemoveAt(c.ws, k));
    RemoveInner(c.bs, c.ws, k);
    forall i, j ensures Falls(d.ws, i, j) {
      assert Falls(c.ws, if i < k then i else i + 1, if j < k then j else j + 1);
    }
  }

  lemma {:induction false} FallingRounds(c: Chunking, minSize: nat, n: nat)
    requires Falling(c, minSize) && |c.bs| >= n + 3
    ensures Falling(Rounds(c, minSize, n), minSize) && |Rounds(c, minSize, n).bs| == |c.bs| - n
    decreases n
  {
    if n > 0 {
      var k := |c.bs| - 3;
      var d := Merged(c, k);
      FallingList(c, minSize);
      FallingMerge(c, minSize);
      assert [k][..0] == [];
      assert Round(d, []) == d && CountPositive([]) == 0;
      assert Round(c, [k]) == d && CountPositive([k]) == 1;
      FallingRounds(d, minSize, n - 1);
    }
  }

  /** With more than `n + 3` such boundaries, `n` rounds are not enough: a kitten remains that is not the first chunk. */
  lemma LimitLeavesKitten(c: Chunking, minSize: nat, n: nat)
    requires Falling(c, minSize) && |c.bs| > n + 3
    ensures IsRunt(Rounds(c, minSize, n).bs, Rounds(c, minSize, n).ws, minSize, |c.bs| - n - 3)
    ensures !Settled(Rounds(c, minSize, n).bs, Rounds(c, minSize, n).ws, minSize)
  {
    FallingRounds(c, minSize, n);
    FallingKitten(Rounds(c, minSize, n), minSize, |c.bs| - n - 3);
  }

  ghost predicate SettlesIn(c: Chunking, minSize: nat, n: nat)
    requires |c.bs| == |c.ws|
  {
    Settled(Rounds(c, minSize, n).bs, Rounds(c, minSize, n).ws, minSize)
  }

  /** Boundaries from the start to the end of data that is shorter than the minimum. */
  ghost predicate CoversShort(bs: seq<nat>, dataLength: nat, minSize: nat) {
    && Ascending(bs) && |bs| >= 3 && bs[0] == 0 && bs[|bs| - 1] == dataLength
    && dataLength < minSize && dataLength < U64_RANGE
  }

  /** Weights that fall with the offset make the phase start as described above. */
  lemma InitialFalls(bs: seq<nat>, dataLength: nat, minSize: nat, weightAt: nat -> Weight)
    requires CoversShort(bs, dataLength, minSize)
    requires forall b :: 0 < b < dataLength ==> weightAt(b) == dataLength - b
    ensures Falling(Initial(bs, dataLength, weightAt), minSize)
  {
    var c := Initial(bs, dataLength, weightAt);
    var last := |bs| - 1;
    forall i | 0 < i < last ensures c.ws[i] == dataLength - bs[i] && c.ws[i] < c.ws[last] {
      assert Rising(bs, 0, i) && Rising(bs, i, last);
    }
    forall i, j ensures Falls(c.ws, i, j) {
      assert Rising(bs, i, j);
    }
  }

  /**
    The round limit in full, for starts of the phase: over data shorter than the minimum, `n` rounds leave at most the
    first chunk a kitten whatever the hashed weights are, if and only if there are at most `n + 3` boundaries.
   */
  lemma EnoughRoundsIff(bs: seq<nat>, dataLength: nat, minSize: nat, n: nat)
    requires CoversShort(bs, dataLength, minSize)
    ensures (forall weightAt: nat -> Weight :: SettlesIn(Initial(bs, dataLength, weightAt), minSize, n)) <==> |bs| <= n + 3
  {
    if |bs| <= n + 3 {
      forall weightAt: nat -> Weight ensures SettlesIn(Initial(bs, dataLength, weightAt), minSize, n) {
        RoundsSettle(Initial(bs, dataLength, weightAt), minSize, n);
      }
    } else {
      var weightAt: nat -> Weight := b => if 0 < b < dataLength < U64_RANGE then dataLength - b else 0;
      InitialFalls(bs, dataLength, minSize, weightAt);
      LimitLeavesKitten(Initial(bs, dataLength, weightAt), minSize, n);
      assert !SettlesIn(Initial(bs, dataLength, weightAt), minSize, n);
    }
  }

  /** For the limit in the source: on short data at most 1003 boundaries are sure to be settled. */
  lemma ThousandRounds(bs: seq<nat>, dataLength: nat, minSize: nat)
    requires CoversShort(bs, dataLength, minSize)
    ensures (forall weightAt: nat -> Weight :: SettlesIn(Initial(bs, dataLength, weightAt), minSize, MAX_ITERATIONS))
            <==> |bs| <= 1003
  {
    EnoughRoundsIff(bs, dataLength, minSize, MAX_ITERATIONS);
  }

  // ---------------------------------------------------------------- the phase

  /** The loop over rounds, with its round limit. */
  method RunRounds(start: Chunking, minSize: nat, limit: nat) returns (c: Chunking)
    requires WellFormed(start.bs, start.ws) && |start.bs| >= 3
    ensures c == Rounds(start, minSize, limit)
  {
    c := start;
    var changed := true;
    var iterations := 0;
    while changed && iterations < limit
      invariant iterations <= limit
      invariant WellFormed(c.bs, c.ws) && |c.bs| >= 3
      invariant if changed then Rounds(c, minSize, limit - iterations) == Rounds(start, minSize, limit)
                else c == Rounds(start, minSize, limit)
    {
      changed := false;
      iterations := iterations + 1;
      var kittens := FindKittens(c.bs, c.ws, minSize);
      if kittens == [] {
        break;
      }
      RoundShrinks(c, minSize);
      RuntsExact(c.bs, c.ws, minSize);
      NothingToMerge(c, minSize);
      c, changed := MergeRound(c, kittens);
    }
  }

  /**
    The phase on strictly ascending boundaries; `weightAt` is the weight hashed from the data around an inner boundary.
    It returns what the rounds return; the lemmas above say when that leaves a kitten.
   */
  method Process(dataLength: nat, boundaries: seq<nat>, minSize: nat, weightAt: nat -> Weight)
    returns (result: seq<nat>, ghost weights: seq<Weight>)
    requires Ascending(boundaries)
    ensures |boundaries| < 3 ==> result == boundaries
    ensures |boundaries| >= 3 ==>
              Chunking(result, weights) == Rounds(Initial(boundaries, dataLength, weightAt), minSize, MAX_ITERATIONS)
    ensures |boundaries| >= 3 ==>
              forall b :: b in boundaries && NeverTouched(Initial(boundaries, dataLength, weightAt), minSize, MAX_ITERATIONS, b)
                          ==> b in result
    ensures |boundaries| >= 3 ==> Coarsens(result, weights, boundaries, ComputeWeights(boundaries, dataLength, weightAt))
    ensures 3 <= |boundaries| <= MAX_ITERATIONS + 3 ==> Settled(result, weights, minSize)
    ensures 3 <= |boundaries| <= MAX_ITERATIONS + 3
            && (boundaries[1] >= boundaries[0] + minSize || boundaries[1] >= dataLength) ==>
              !HasKitten(Chunking(result, weights), minSize)
  {
    ghost var start := Initial(boundaries, dataLength, weightAt);
    if |boundaries| < 3 {
      return boundaries, start.ws;
    }
    var c := RunRounds(Initial(boundaries, dataLength, weightAt), minSize, MAX_ITERATIONS);
    result, weights := c.bs, c.ws;
    RoundsCoarsen(start, minSize, MAX_ITERATIONS);
    forall b | b in boundaries && NeverTouched(start, minSize, MAX_ITERATIONS, b) ensures b in result {
      RoundsKeepOthers(start, minSize, MAX_ITERATIONS, b);
    }
    if |boundaries| <= MAX_ITERATIONS + 3 {
      RoundsSettle(start, minSize, MAX_ITERATIONS);
      if boundaries[1] >= boundaries[0] + minSize || boundaries[1] >= dataLength {
        NoneRemainIf(boundaries, dataLength, weightAt, minSize, MAX_ITERATIONS);
      }
    }
  }
}
