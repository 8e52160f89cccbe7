/** Lists of chunk boundaries with a weight each, and what removing one boundary does to them. */
module Boundaries {
  import opened Sets
  import opened KittenScans

  const MAX_WEIGHT: Weight := U64_RANGE - 1

  /** Boundaries strictly ascend and have one weight each. */
  ghost predicate WellFormed(bs: seq<nat>, ws: seq<Weight>) {
    |bs| == |ws| && Ascending(bs)
  }

  /** The weight at an index, with the greatest weight past the end. */
  function WeightOr(ws: seq<Weight>, i: nat): Weight {
    if i < |ws| then ws[i] else MAX_WEIGHT
  }

  /** The weights the chunker computes; `weightAt` is hashed from the data around an inner boundary. */
  function ComputeWeights(bs: seq<nat>, dataLength: nat, weightAt: nat -> Weight): (ws: seq<Weight>)
    ensures |ws| == |bs|
    ensures forall i :: 0 <= i < |bs| ==>
              ws[i] == if bs[i] == 0 || bs[i] >= dataLength then MAX_WEIGHT else weightAt(bs[i])
  {
    if bs == [] then []
    else
      var b := bs[|bs| - 1];
      ComputeWeights(bs[..|bs| - 1], dataLength, weightAt)
      + [if b == 0 || b >= dataLength then MAX_WEIGHT else weightAt(b)]
  }

  function RemoveAt<T>(s: seq<T>, k: nat): (r: seq<T>)
    requires k < |s|
    ensures |r| == |s| - 1
    ensures forall i :: 0 <= i < |r| ==> r[i] == if i < k then s[i] else s[i + 1]
  {
    s[..k] + s[k + 1..]
  }

  predicate IsAt(bs: seq<nat>, ws: seq<Weight>, j: int, b: nat, w: Weight) {
    0 <= j < |bs| && j < |ws| && bs[j] == b && ws[j] == w
  }

  ghost predicate Has(bs: seq<nat>, ws: seq<Weight>, b: nat, w: Weight) {
    exists j :: IsAt(bs, ws, j, b, w)
  }

  /** Every boundary that is left was there before, with the same weight. */
  ghost predicate DrawnFrom(bs: seq<nat>, ws: seq<Weight>, bs0: seq<nat>, ws0: seq<Weight>)
    requires |bs| == |ws|
  {
    forall i :: 0 <= i < |bs| ==> Has(bs0, ws0, bs[i], ws[i])
  }

  /** Both lists cover the same stretch of data. */
  predicate SameEnds(bs: seq<nat>, bs0: seq<nat>) {
    |bs| >= 2 && |bs0| >= 2 && bs[0] == bs0[0] && bs[|bs| - 1] == bs0[|bs0| - 1]
  }

  /** One list is a coarser chunking of the same data than the other. */
  ghost predicate Coarsens(bs: seq<nat>, ws: seq<Weight>, bs0: seq<nat>, ws0: seq<Weight>) {
    WellFormed(bs, ws) && WellFormed(bs0, ws0) && DrawnFrom(bs, ws, bs0, ws0) && SameEnds(bs, bs0) && |bs| <= |bs0|
  }

  lemma RemoveInner(bs: seq<nat>, ws: seq<Weight>, k: nat)
    requires WellFormed(bs, ws) && 0 < k < |bs| - 1
    ensures Coarsens(RemoveAt(bs, k), RemoveAt(ws, k), bs, ws)
  {
    var bs', ws' := RemoveAt(bs, k), RemoveAt(ws, k);
    forall i, j ensures Rising(bs', i, j) {
      assert Rising(bs, if i < k then i else i + 1, if j < k then j else j + 1);
    }
    forall i | 0 <= i < |bs'| ensures Has(bs, ws, bs'[i], ws'[i]) {
      assert IsAt(bs, ws, if i < k then i else i + 1, bs'[i], ws'[i]);
    }
  }

  lemma CoarsensTransitive(bs: seq<nat>, ws: seq<Weight>, bs1: seq<nat>, ws1: seq<Weight>, bs0: seq<nat>, ws0: seq<Weight>)
    requires Coarsens(bs, ws, bs1, ws1) && Coarsens(bs1, ws1, bs0, ws0)
    ensures Coarsens(bs, ws, bs0, ws0)
  {
  }

  lemma CoarsensItself(bs: seq<nat>, ws: seq<Weight>)
    requires WellFormed(bs, ws) && |bs| >= 2
    ensures Coarsens(bs, ws, bs, ws)
  {
    forall i | 0 <= i < |bs| ensures Has(bs, ws, bs[i], ws[i]) {
      assert IsAt(bs, ws, i, bs[i], ws[i]);
    }
  }

  /** Coarsening never makes the first chunk smaller. */
  lemma FirstChunkGrows(bs: seq<nat>, ws: seq<Weight>, bs0: seq<nat>, ws0: seq<Weight>)
    requires Coarsens(bs, ws, bs0, ws0)
    ensures bs[1] + bs0[0] >= bs0[1] + bs[0]
  {
    assert Has(bs0, ws0, bs[1], ws[1]);
    var j :| IsAt(bs0, ws0, j, bs[1], ws[1]);
    assert Rising(bs, 0, 1) && Rising(bs0, 1, j);
  }

  lemma AscendingFront(bs: seq<nat>)
    requires Ascending(bs) && |bs| >= 2
    ensures Ascending(bs[..|bs| - 1]) && bs[|bs| - 2] < bs[|bs| - 1]
  {
    var front := bs[..|bs| - 1];
    forall i, j ensures Rising(front, i, j) {
      assert Rising(bs, i, j);
    }
    assert Rising(bs, |bs| - 2, |bs| - 1);
  }

  function ChunkSizes(bs: seq<nat>): (sizes: seq<nat>)
    requires Ascending(bs)
    ensures |sizes| == if |bs| == 0 then 0 else |bs| - 1
    ensures forall i :: 0 <= i < |sizes| ==> bs[i] + sizes[i] == bs[i + 1]
  {
    if |bs| < 2 then [] else
      AscendingFront(bs);
      ChunkSizes(bs[..|bs| - 1]) + [bs[|bs| - 1] - bs[|bs| - 2]]
  }

  function Sum(s: seq<nat>): nat {
    if s == [] then 0 else Sum(s[..|s| - 1]) + s[|s| - 1]
  }

  function TotalSize(bs: seq<nat>): int {
    if |bs| < 2 then 0 else bs[|bs| - 1] as int - bs[0] as int
  }

  /** The chunk sizes add up to the stretch between the first and the last boundary. */
  lemma {:induction false} SizesAddUp(bs: seq<nat>)
    requires Ascending(bs)
    ensures Sum(ChunkSizes(bs)) == TotalSize(bs)
  {
    if |bs| >= 2 {
      var front := bs[..|bs| - 1];
      AscendingFront(bs);
      SizesAddUp(front);
      var sizes := ChunkSizes(bs);
      assert sizes[..|sizes| - 1] == ChunkSizes(front);
    }
  }
}
