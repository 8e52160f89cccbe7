/** A layer of chunk boundaries that finds its kittens and merges them in place. */
module Layers {
  import opened Sets
  import opened KittenScans
  import opened Boundaries

  function Heavier(a: Weight, b: Weight): Weight {
    if a < b then b else a
  }

  /** Chunk `i` is an inner chunk, undersized, and its right boundary is lighter than what lies on both sides. */
  predicate IsLayerKitten(bs: seq<nat>, ws: seq<Weight>, minSize: nat, i: int)
    requires |bs| == |ws|
  {
    && 1 <= i < |bs| - 2
    && bs[i + 1] < bs[i] + minSize
    && ws[i + 1] < Heavier(ws[i - 1], ws[i])
    && ws[i + 1] < Heavier(ws[i + 1], ws[i + 2])
  }

  /** Written out: lighter than the next boundary and than one of the two to the left. */
  lemma LayerKittenIff(bs: seq<nat>, ws: seq<Weight>, minSize: nat, i: int)
    requires |bs| == |ws|
    ensures IsLayerKitten(bs, ws, minSize, i) <==>
              && 1 <= i < |bs| - 2 && bs[i + 1] - bs[i] < minSize
              && (ws[i + 1] < ws[i - 1] || ws[i + 1] < ws[i]) && ws[i + 1] < ws[i + 2]
  {
  }

  /** The boundary that merging chunk `i` with its lighter neighbour removes, if any. */
  function MergedAway(bs: seq<nat>, ws: seq<Weight>, i: nat): Option<nat>
    requires |bs| == |ws|
  {
    if i == 0 || i >= |bs| - 1 then None
    else
      if ws[i] < WeightOr(ws, i + 2) then Some(i) else Some(i + 1)
  }

  /** Merging a kitten removes exactly one inner boundary. */
  lemma KittenMergeIsInner(bs: seq<nat>, ws: seq<Weight>, minSize: nat, i: nat)
    requires WellFormed(bs, ws) && IsLayerKitten(bs, ws, minSize, i)
    ensures MergedAway(bs, ws, i).Some? && 0 < MergedAway(bs, ws, i).value < |bs| - 1
  {
  }

  function Merged<T>(s: seq<T>, k: Option<nat>): seq<T>
    requires k.Some? ==> k.value < |s|
  {
    if k.Some? then RemoveAt(s, k.value) else s
  }

  /**
    Merging any chunk keeps both ends of the data, except the last chunk when its left boundary has the greatest weight
    of all: then the end of the data is cut off.
   */
  lemma MergeKeepsEndsIff(bs: seq<nat>, ws: seq<Weight>, i: nat)
    requires WellFormed(bs, ws) && |bs| >= 2
    ensures Coarsens(Merged(bs, MergedAway(bs, ws, i)), Merged(ws, MergedAway(bs, ws, i)), bs, ws)
            <==> !(i >= 1 && i == |bs| - 2 && ws[i] == MAX_WEIGHT)
  {
    var k := MergedAway(bs, ws, i);
    if k.None? {
      CoarsensItself(bs, ws);
    } else if k.value < |bs| - 1 {
      RemoveInner(bs, ws, k.value);
    } else {
      assert Rising(bs, |bs| - 2, |bs| - 1);
    }
  }

  /** The excepted case, with computed weights: boundaries past the end of the data, whose last chunk is merged. */
  lemma MergeCutsOffEnd(weightAt: nat -> Weight)
    ensures var bs, ws := [0, 10, 20], ComputeWeights([0, 10, 20], 10, weightAt);
            WellFormed(bs, ws) && Merged(bs, MergedAway(bs, ws, 1)) == [0, 10]
  {
    var bs, ws := [0, 10, 20], ComputeWeights([0, 10, 20], 10, weightAt);
    assert MergedAway(bs, ws, 1) == Some(2);
    assert RemoveAt(bs, 2) == [0, 10];
  }

  class Layer {
    const minSize: nat
    var boundaries: seq<nat>
    var weights: seq<Weight>

    ghost predicate Valid()
      reads this
    {
      WellFormed(boundaries, weights)
    }

    constructor (minSize: nat, boundaries: seq<nat>, weights: seq<Weight>)
      requires WellFormed(boundaries, weights)
      ensures Valid() && this.minSize == minSize && this.boundaries == boundaries && this.weights == weights
    {
      this.minSize, this.boundaries, this.weights := minSize, boundaries, weights;
    }

    /** Exactly the kittens, in ascending order. */
    method FindKittens() returns (kittens: seq<nat>)
      requires Valid()
      ensures forall i :: i in kittens <==> IsLayerKitten(boundaries, weights, minSize, i)
      ensures forall j, k :: 0 <= j < k < |kittens| ==> kittens[j] < kittens[k]
    {
      var sizes := ChunkSizes(boundaries);
      kittens := [];
      var n := if |sizes| == 0 then 0 else |sizes| - 1;
      var i := 1;
      while i < n
        invariant 1 <= i && (i <= n || i == 1)
        invariant forall j :: j in kittens <==> j < i && IsLayerKitten(boundaries, weights, minSize, j)
        invariant forall j, k :: 0 <= j < k < |kittens| ==> kittens[j] < kittens[k]
      {
        if sizes[i] < minSize {
          var rightWeight := weights[i + 1];
          var prevWeight := Heavier(weights[i - 1], weights[i]);
          var nextWeight := Heavier(weights[i + 1], WeightOr(weights, i + 2));
          if rightWeight < prevWeight && rightWeight < nextWeight {
            assert forall j :: 0 <= j < |kittens| ==> kittens[j] in kittens;
            kittens := kittens + [i];
          }
        }
        i := i + 1;
      }
    }

    /**
      A chunk that is neither the first nor the last becomes one with a neighbour, on the side whose far boundary is
      lighter; no other chunk changes.
     */
    method MergeKitten(i: nat)
      requires Valid() && boundaries != []
      modifies this
      ensures 0 < i < |old(boundaries)| - 2 ==>
                var j := if old(weights)[i] < old(weights)[i + 2] then i - 1 else i;
                && |boundaries| == |weights| == |old(boundaries)| - 1
                && boundaries[..j + 1] == old(boundaries)[..j + 1] && boundaries[j + 1..] == old(boundaries)[j + 2..]
                && weights[..j + 1] == old(weights)[..j + 1] && weights[j + 1..] == old(weights)[j + 2..]
      ensures i == 0 || i >= |old(boundaries)| - 1 ==> unchanged(this)
      ensures boundaries == Merged(old(boundaries), MergedAway(old(boundaries), old(weights), i))
      ensures weights == Merged(old(weights), MergedAway(old(boundaries), old(weights), i))
    {
      if i == 0 || i >= |boundaries| - 1 {
        return;
      }
      var bs, ws := boundaries, weights;
      if ws[i] < WeightOr(ws, i + 2) {
        boundaries := RemoveAt(bs, i);
        weights := RemoveAt(ws, i);
      } else if i + 1 < |bs| {
        boundaries := RemoveAt(bs, i + 1);
        weights := RemoveAt(ws, i + 1);
      }
    }

    /** Merging a chunk that was found to be a kitten. */
    method MergeFound(i: nat)
      requires Valid() && IsLayerKitten(boundaries, weights, minSize, i)
      modifies this
      ensures Coarsens(boundaries, weights, old(boundaries), old(weights)) && |boundaries| == |old(boundaries)| - 1
    {
      KittenMergeIsInner(boundaries, weights, minSize, i);
      RemoveInner(boundaries, weights, MergedAway(boundaries, weights, i).value);
      MergeKitten(i);
    }

    /** Finding and merging until nothing is found: it ends, and leaves a coarser chunking without kittens. */
    method MergeAllKittens()
      requires Valid() && |boundaries| >= 2
      modifies this
      ensures Coarsens(boundaries, weights, old(boundaries), old(weights))
      ensures forall i :: !IsLayerKitten(boundaries, weights, minSize, i)
      ensures Sum(ChunkSizes(boundaries)) == Sum(ChunkSizes(old(boundaries)))
    {
      CoarsensItself(boundaries, weights);
      var kittens := FindKittens();
      while kittens != []
        invariant Coarsens(boundaries, weights, old(boundaries), old(weights))
        invariant forall i :: i in kittens <==> IsLayerKitten(boundaries, weights, minSize, i)
        decreases |boundaries|
      {
        assert kittens[0] in kittens;
        ghost var bs, ws := boundaries, weights;
        MergeFound(kittens[0]);
        CoarsensTransitive(boundaries, weights, bs, ws, old(boundaries), old(weights));
        kittens := FindKittens();
      }
      SizesAddUp(boundaries);
      SizesAddUp(old(boundaries));
    }
  }
}
