/** The extent map as the source keeps it: a table edited in place, with a counter beside it. */
module ExtentMaps {
  import opened Sets
  import opened Extents
  import opened Allocation

  /** The overlapped keys found so far in an ascending scan. */
  ghost predicate Collected(m: ExtentTable, keys: seq<nat>, i: nat, start: nat, end: nat, found: seq<nat>)
  {
    && i <= |keys| && Ascending(keys) && Ascending(found)
    && (forall j :: 0 <= j < |keys| ==> keys[j] in m)
    && (forall j :: 0 <= j < |found| ==> found[j] in m && m[found[j]].Overlaps(start, end))
    && (forall j :: 0 <= j < i && m[keys[j]].Overlaps(start, end) ==> keys[j] in found)
    && (forall j, k :: 0 <= j < |found| && i <= k < |keys| ==> found[j] < keys[k])
  }

  lemma CollectNone(m: ExtentTable, keys: seq<nat>, start: nat, end: nat)
    requires Ascending(keys) && forall j :: 0 <= j < |keys| ==> keys[j] in m
    ensures Collected(m, keys, 0, start, end, [])
  {
  }

  lemma CollectStep(m: ExtentTable, keys: seq<nat>, i: nat, start: nat, end: nat, found: seq<nat>)
    requires Collected(m, keys, i, start, end, found) && i < |keys|
    ensures keys[i] in m
    ensures Collected(m, keys, i + 1, start, end,
                      if m[keys[i]].Overlaps(start, end) then found + [keys[i]] else found)
  {
    forall k | i < k < |keys| ensures keys[i] < keys[k] {
      assert Rising(keys, i, k);
    }
    var more := found + [keys[i]];
    forall j, k ensures Rising(more, j, k) {
      assert Rising(found, j, k);
    }
  }

  function Values(m: ExtentTable, ks: seq<nat>): (es: seq<Extent>)
    requires forall j :: 0 <= j < |ks| ==> ks[j] in m
    ensures |es| == |ks| && forall j :: 0 <= j < |ks| ==> es[j] == m[ks[j]]
  {
    if ks == [] then [] else Values(m, ks[..|ks| - 1]) + [m[ks[|ks| - 1]]]
  }

  ghost predicate Follows(es: seq<Extent>, i: int, j: int) {
    0 <= i < j < |es| ==> es[i].offset < es[j].offset
  }

  /** Exactly the extents that overlap the range, in ascending order. */
  ghost predicate ExactlyOverlapping(m: ExtentTable, start: nat, end: nat, es: seq<Extent>) {
    && (forall i :: 0 <= i < |es| ==> es[i].offset in m && m[es[i].offset] == es[i] && es[i].Overlaps(start, end))
    && (forall k :: k in m && m[k].Overlaps(start, end) ==> m[k] in es)
    && (forall i, j :: Follows(es, i, j))
  }

  /** In a well-formed map they are also apart from each other. */
  lemma FollowsApart(m: ExtentTable, start: nat, end: nat, es: seq<Extent>, i: nat, j: nat)
    requires WellFormed(m) && ExactlyOverlapping(m, start, end, es) && i < j < |es|
    ensures es[i].offset < es[j].offset && es[i].End() <= es[j].offset
  {
    assert Follows(es, i, j);
    assert Apart(m, es[i].offset, es[j].offset);
  }

  lemma ValuesExact(m: ExtentTable, keys: seq<nat>, start: nat, end: nat, found: seq<nat>)
    requires Keyed(m)
    requires forall k :: k in m && k < end ==> k in keys
    requires Collected(m, keys, |keys|, start, end, found)
    ensures ExactlyOverlapping(m, start, end, Values(m, found))
  {
    var es := Values(m, found);
    forall k | k in m && m[k].Overlaps(start, end) ensures m[k] in es {
      assert k in keys;
      assert k in found;
      var j :| 0 <= j < |found| && found[j] == k;
      assert es[j] == m[k];
    }
    forall i, j ensures Follows(es, i, j) {
      if 0 <= i < j < |es| {
        assert Rising(found, i, j);
        assert es[i] == m[found[i]] && es[j] == m[found[j]];
      }
    }
  }

  lemma CollectedAll(m: ExtentTable, keys: seq<nat>, start: nat, end: nat, found: seq<nat>)
    requires Keyed(m)
    requires forall k :: k in m && k < end ==> k in keys
    requires Collected(m, keys, |keys|, start, end, found)
    ensures Lists(found, Overlapping(m, start, end))
  {
  }

  lemma ListsMembers(ks: seq<nat>, s: set<nat>)
    requires Lists(ks, s)
    ensures Members(ks) == s
  {
  }

  lemma MembersStep(ks: seq<nat>, i: nat)
    requires Ascending(ks) && i < |ks|
    ensures Members(ks[..i + 1]) == Members(ks[..i]) + {ks[i]} && ks[i] !in Members(ks[..i])
  {
    assert ks[..i + 1] == ks[..i] + [ks[i]];
    forall j | 0 <= j < i ensures ks[j] < ks[i] {
      assert Rising(ks, j, i);
    }
  }

  /** In a well-formed map only the last extent that starts at or before a byte can contain it. */
  lemma ProbeIsEnough(m: ExtentTable, k: nat, b: nat)
    requires WellFormed(m) && k in m && k <= b && forall j :: j in m && j <= b ==> j <= k
    ensures forall j :: j in m && m[j].Contains(b) ==> j == k
    ensures At(m, b) == if m[k].Contains(b) then Some(m[k].CellAt(b)) else None
  {
    forall j | j in m && m[j].Contains(b) ensures j == k {
      assert Apart(m, j, k);
    }
    if m[k].Contains(b) {
      AtOwner(m, k, b);
    }
  }

  class ExtentMap {
    const size: nat
    var extents: ExtentTable
    var counter: int

    /** What every call keeps, whatever its arguments; extents may overlap. */
    ghost predicate Valid()
      reads this
    {
      Keyed(extents)
    }

    ghost function State(): Tracked
      reads this
    {
      Tracked(extents, counter)
    }

    constructor (size: nat)
      ensures Valid() && State() == EMPTY && this.size == size
    {
      this.size := size;
      extents := map[];
      counter := 0;
    }

    /** The predecessor probe: only the last extent that starts at or before `offset` is looked at. */
    method Lookup(offset: nat) returns (r: Option<Extent>)
      requires Valid()
      ensures r.Some? ==> r.value.offset in extents && extents[r.value.offset] == r.value && r.value.Contains(offset)
      ensures r.Some? ==> forall k :: k in extents && k <= offset ==> k <= r.value.offset
      ensures WellFormed(extents) && r.None? ==> forall k :: k in extents ==> !extents[k].Contains(offset)
      ensures WellFormed(extents) ==> At(extents, offset) == if r.Some? then Some(r.value.CellAt(offset)) else None
    {
      var below := set k | k in extents && k <= offset;
      r := None;
      if below != {} {
        var k := Max(below);
        forall j | j in extents && j <= offset ensures j <= k {
          assert j in below;
        }
        if extents[k].Contains(offset) {
          r := Some(extents[k]);
        }
        if WellFormed(extents) {
          ProbeIsEnough(extents, k, offset);
        }
      } else {
        forall j | j in extents ensures !extents[j].Contains(offset) {
          assert j <= offset ==> j in below;
        }
      }
    }

    method LookupRange(start: nat, end: nat) returns (r: seq<Extent>)
      requires Valid()
      ensures ExactlyOverlapping(extents, start, end, r)
    {
      var m := extents;
      var keys := InOrder(set k | k in m && k < end);
      ghost var found := [];
      r := [];
      CollectNone(m, keys, start, end);
      for i := 0 to |keys|
        invariant Collected(m, keys, i, start, end, found)
        invariant r == Values(m, found)
      {
        CollectStep(m, keys, i, start, end, found);
        if m[keys[i]].Overlaps(start, end) {
          r := r + [m[keys[i]]];
          found := found + [keys[i]];
        }
      }
      ValuesExact(m, keys, start, end, found);
    }

    /** The keys of all extents that overlap a range, in ascending order. */
    method CollectOverlapping(start: nat, end: nat) returns (found: seq<nat>)
      requires Valid()
      ensures Lists(found, Overlapping(extents, start, end))
    {
      var m := extents;
      var keys := InOrder(set k | k in m && k < end);
      found := [];
      CollectNone(m, keys, start, end);
      for i := 0 to |keys|
        invariant Collected(m, keys, i, start, end, found)
      {
        CollectStep(m, keys, i, start, end, found);
        if m[keys[i]].Overlaps(start, end) {
          found := found + [keys[i]];
        }
      }
      CollectedAll(m, keys, start, end, found);
    }

    /** One `extents.remove` with its `fetch_sub`, which does not underflow while the counter covers the lengths. */
    method RemoveKey(k: nat)
      requires Valid() && k in extents
      modifies this
      ensures Valid() && extents == old(extents) - {k}
      ensures counter == old(counter) - old(extents)[k].Weight()
      ensures Gap(State()) == old(Gap(State()))
      ensures old(Gap(State())) >= 0 ==> counter >= 0
    {
      TotalTake(extents, k);
      var removed := extents[k];
      extents := extents - {k};
      if !removed.IsHole() {
        counter := counter - removed.length;
      }
    }

    /** Take out the collected extents and subtract their lengths. */
    method RemoveAll(doomed: seq<nat>)
      requires Valid() && Ascending(doomed) && forall i :: 0 <= i < |doomed| ==> doomed[i] in extents
      modifies this
      ensures Valid() && extents == old(extents) - Members(doomed)
      ensures counter == old(counter) - TotalLength(Restrict(old(extents), Members(doomed)))
    {
      ghost var m := extents;
      for i := 0 to |doomed|
        invariant Valid() && extents == m - Members(doomed[..i])
        invariant Gap(State()) == old(Gap(State()))
      {
        MembersStep(doomed, i);
        RemoveKey(doomed[i]);
      }
      assert doomed[..|doomed|] == doomed;
      TotalSplit(m, Members(doomed));
    }

    /** On any table, also one with overlapping extents. */
    method Insert(e: Extent)
      requires Valid()
      modifies this
      ensures Valid() && State() == Apply(old(State()), Allocation.Insert(e))
      ensures WellFormed(old(extents)) ==> WellFormed(extents)
    {
      ghost var m := extents;
      var doomed := CollectOverlapping(e.offset, e.End());
      ListsMembers(doomed, Overlapping(m, e.offset, e.End()));
      RemoveAll(doomed);
      if !e.IsHole() {
        counter := counter + e.length;
      }
      extents := extents[e.offset := e];
      if WellFormed(m) {
        InsertedWellFormed(m, e);
      }
    }

    /** What sticks out of the range before and after, of one overlapped extent. */
    static method PiecesOf(e: Extent, start: nat, end: nat) returns (pieces: seq<Extent>)
      requires e.Overlaps(start, end)
      ensures pieces == HeadPart(e, start) + TailPart(e, end)
    {
      pieces := [];
      if e.offset < start {
        pieces := pieces + [e.(length := start - e.offset)];
      }
      if e.End() > end {
        pieces := pieces + [e.(offset := end, objectOffset := e.objectOffset + (end - e.offset), length := e.End() - end)];
      }
    }

    /** What sticks out of the range before and after, in the order of the overlapped extents. */
    method CollectPieces(doomed: seq<nat>, start: nat, end: nat) returns (toAdd: seq<Extent>)
      requires forall i :: 0 <= i < |doomed| ==> doomed[i] in extents && extents[doomed[i]].Overlaps(start, end)
      ensures toAdd == PieceList(extents, doomed, start, end)
    {
      var m := extents;
      toAdd := [];
      for i := 0 to |doomed|
        invariant toAdd == PieceList(m, doomed[..i], start, end)
      {
        assert doomed[..i + 1][..i] == doomed[..i];
        var pieces := PiecesOf(m[doomed[i]], start, end);
        toAdd := toAdd + pieces;
      }
      assert doomed[..|doomed|] == doomed;
    }

    method AddPieces(toAdd: seq<Extent>)
      modifies this
      ensures extents == AddAll(old(extents), toAdd)
      ensures counter == old(counter) + SumWeights(toAdd)
    {
      for i := 0 to |toAdd|
        invariant extents == AddAll(old(extents), toAdd[..i])
        invariant counter == old(counter) + SumWeights(toAdd[..i])
      {
        assert toAdd[..i + 1][..i] == toAdd[..i];
        if !toAdd[i].IsHole() {
          counter := counter + toAdd[i].length;
        }
        extents := extents[toAdd[i].offset := toAdd[i]];
      }
      assert toAdd[..|toAdd|] == toAdd;
    }

    /** On any table; a well-formed one stays so unless the range is backwards over a straddling extent. */
    method RemoveRange(start: nat, end: nat)
      requires Valid()
      modifies this
      ensures Valid() && State() == Apply(old(State()), Allocation.RemoveRange(start, end))
      ensures WellFormed(old(extents)) ==>
                (WellFormed(extents) <==> start <= end || !Straddled(old(extents), start, end))
    {
      ghost var m := extents;
      var doomed := CollectOverlapping(start, end);
      var toAdd := CollectPieces(doomed, start, end);
      ListsMembers(doomed, Overlapping(m, start, end));
      RemoveAll(doomed);
      AddPieces(toAdd);
      PiecesOfAll(m, doomed, start, end);
      RemovedKeyed(m, start, end);
      if WellFormed(m) {
        RemovedWellFormed(m, start, end);
      }
    }

    /** A separate map with every extent marked shared, and the same count. */
    method CloneForSnapshot() returns (c: ExtentMap)
      requires Valid()
      ensures fresh(c) && c.Valid()
      ensures c.extents == AllShared(extents) && c.counter == counter && c.size == size
    {
      var m := extents;
      var keys := InOrder(m.Keys);
      var copy: ExtentTable := map[];
      for i := 0 to |keys|
        invariant forall j :: 0 <= j < i ==> keys[j] in copy
        invariant forall k :: k in copy ==> k in m && copy[k] == MarkShared(m[k])
      {
        copy := copy[keys[i] := MarkShared(m[keys[i]])];
      }
      forall k | k in m ensures k in copy {
        assert k in keys;
      }
      assert copy == AllShared(m);
      c := new ExtentMap(size);
      c.extents := copy;
      c.counter := counter;
    }
  }

  // ---------------------------------------------------------------- the pieces as a list

  ghost function HeadPart(e: Extent, start: nat): seq<Extent> {
    if e.offset < start then [e.Head(start)] else []
  }

  ghost function TailPart(e: Extent, end: nat): seq<Extent> {
    if e.offset <= end < e.End() then [e.Tail(end)] else []
  }

  /** The pieces in the order they are pushed. */
  ghost function PieceList(m: ExtentTable, cut: seq<nat>, start: nat, end: nat): seq<Extent>
    requires forall i :: 0 <= i < |cut| ==> cut[i] in m
  {
    if cut == [] then [] else
      var e := m[cut[|cut| - 1]];
      PieceList(m, cut[..|cut| - 1], start, end) + (HeadPart(e, start) + TailPart(e, end))
  }

  ghost function AddAll(m: ExtentTable, es: seq<Extent>): ExtentTable {
    if es == [] then m else
      var e := es[|es| - 1];
      AddAll(m, es[..|es| - 1])[e.offset := e]
  }

  ghost function SumWeights(es: seq<Extent>): nat {
    if es == [] then 0 else SumWeights(es[..|es| - 1]) + es[|es| - 1].Weight()
  }

  lemma AddSnoc(m: ExtentTable, es: seq<Extent>, e: Extent)
    ensures AddAll(m, es + [e]) == AddAll(m, es)[e.offset := e]
    ensures SumWeights(es + [e]) == SumWeights(es) + e.Weight()
  {
    assert (es + [e])[..|es|] == es;
  }

  /** The first extents of the list, by key. */
  ghost function Front(m: ExtentTable, cut: seq<nat>, n: nat): ExtentTable
    requires n <= |cut|
  {
    Restrict(m, Members(cut[..n]))
  }

  /** `cut` lists keys of extents that overlap the range, in ascending order. */
  ghost predicate Cuts(m: ExtentTable, cut: seq<nat>, start: nat, end: nat) {
    Keyed(m) && Ascending(cut) && forall i :: 0 <= i < |cut| ==> cut[i] in m && m[cut[i]].Overlaps(start, end)
  }

  /** The next extent has the greatest key so far. */
  lemma FrontNext(m: ExtentTable, cut: seq<nat>, n: nat, start: nat, end: nat)
    requires Cuts(m, cut, start, end) && n < |cut|
    ensures Front(m, cut, n + 1) == Front(m, cut, n)[cut[n] := m[cut[n]]]
    ensures forall k :: k in Front(m, cut, n) ==> k < cut[n]
  {
    MembersStep(cut, n);
    forall k | k in Front(m, cut, n) ensures k < cut[n] {
      var i :| 0 <= i < n && cut[i] == k;
      assert Rising(cut, i, n);
    }
  }

  lemma HeadsNext(p: ExtentTable, k: nat, e: Extent, start: nat, end: nat)
    requires k !in p && e.Overlaps(start, end)
    ensures Heads(p[k := e], start, end)
            == if e.offset < start then Heads(p, start, end)[k := e.Head(start)] else Heads(p, start, end)
  {
  }

  lemma TailsNext(p: ExtentTable, k: nat, e: Extent, start: nat, end: nat)
    requires e.Overlaps(start, end) && forall j :: j in p ==> j < k
    ensures CutTails(p[k := e], start, end)
            == if e.End() > end then CutTails(p, start, end)[k := e.Tail(end)] else CutTails(p, start, end)
    ensures Tails(p[k := e], start, end) == if e.End() > end then map[end := e.Tail(end)] else Tails(p, start, end)
  {
    var past, past' := PastKeys(p, start, end), PastKeys(p[k := e], start, end);
    if e.End() > end {
      assert ReachesPast(p[k := e], start, end, k);
      assert k in past' && Max(past') == k;
    } else {
      assert past' == past;
    }
  }

  /** Putting back the pieces of the first extents gives their heads and the last of their tails; all are counted. */
  ghost predicate PutBack(m: ExtentTable, base: ExtentTable, cut: seq<nat>, n: nat, start: nat, end: nat)
    requires n <= |cut| && forall i :: 0 <= i < |cut| ==> cut[i] in m
  {
    var p, list := Front(m, cut, n), PieceList(m, cut[..n], start, end);
    && AddAll(base, list) == base + Pieces(p, start, end)
    && SumWeights(list) == TotalLength(Heads(p, start, end)) + TotalLength(CutTails(p, start, end))
  }

  lemma AddHead(base: ExtentTable, heads: ExtentTable, tails: ExtentTable, k: nat, e: Extent)
    requires k !in tails
    ensures (base + (heads + tails))[k := e] == base + (heads[k := e] + tails)
  {
  }

  lemma AddTail(base: ExtentTable, heads: ExtentTable, tails: ExtentTable, end: nat, e: Extent)
    requires forall k :: k in tails ==> k == end
    ensures (base + (heads + tails))[end := e] == base + (heads + map[end := e])
  {
  }

  /** One more extent: first its head, then its tail. */
  lemma PutBackOne(base: ExtentTable, p: ExtentTable, list: seq<Extent>, e: Extent, start: nat, end: nat)
    requires e.Overlaps(start, end) && forall j :: j in p ==> j < e.offset
    requires AddAll(base, list) == base + Pieces(p, start, end)
    requires SumWeights(list) == TotalLength(Heads(p, start, end)) + TotalLength(CutTails(p, start, end))
    ensures var q, more := p[e.offset := e], list + (HeadPart(e, start) + TailPart(e, end));
            && AddAll(base, more) == base + Pieces(q, start, end)
            && SumWeights(more) == TotalLength(Heads(q, start, end)) + TotalLength(CutTails(q, start, end))
  {
    HeadsNext(p, e.offset, e, start, end);
    TailsNext(p, e.offset, e, start, end);
    var withHead := list + HeadPart(e, start);
    HeadPutBack(base, p, list, e, start, end);
    assert list + (HeadPart(e, start) + TailPart(e, end)) == withHead + TailPart(e, end);
    TailPutBack(base, p, withHead, e, start, end);
  }

  lemma HeadPutBack(base: ExtentTable, p: ExtentTable, list: seq<Extent>, e: Extent, start: nat, end: nat)
    requires e.Overlaps(start, end) && forall j :: j in p ==> j < e.offset
    requires AddAll(base, list) == base + Pieces(p, start, end)
    ensures AddAll(base, list + HeadPart(e, start))
            == base + (Heads(p[e.offset := e], start, end) + Tails(p, start, end))
    ensures SumWeights(list + HeadPart(e, start)) + TotalLength(Heads(p, start, end))
            == SumWeights(list) + TotalLength(Heads(p[e.offset := e], start, end))
  {
    HeadsNext(p, e.offset, e, start, end);
    if e.offset < start {
      AddSnoc(base, list, e.Head(start));
      AddHead(base, Heads(p, start, end), Tails(p, start, end), e.offset, e.Head(start));
      TotalPut(Heads(p, start, end), e.offset, e.Head(start));
    } else {
      assert list + HeadPart(e, start) == list;
    }
  }

  lemma TailPutBack(base: ExtentTable, p: ExtentTable, list: seq<Extent>, e: Extent, start: nat, end: nat)
    requires e.Overlaps(start, end) && forall j :: j in p ==> j < e.offset
    requires AddAll(base, list) == base + (Heads(p[e.offset := e], start, end) + Tails(p, start, end))
    ensures AddAll(base, list + TailPart(e, end)) == base + Pieces(p[e.offset := e], start, end)
    ensures SumWeights(list + TailPart(e, end)) + TotalLength(CutTails(p, start, end))
            == SumWeights(list) + TotalLength(CutTails(p[e.offset := e], start, end))
  {
    TailsNext(p, e.offset, e, start, end);
    if e.End() > end {
      AddSnoc(base, list, e.Tail(end));
      AddTail(base, Heads(p[e.offset := e], start, end), Tails(p, start, end), end, e.Tail(end));
      TotalPut(CutTails(p, start, end), e.offset, e.Tail(end));
    } else {
      assert list + TailPart(e, end) == list;
    }
  }

  lemma {:induction false} PutBackAll(m: ExtentTable, base: ExtentTable, cut: seq<nat>, n: nat, start: nat, end: nat)
    requires Cuts(m, cut, start, end) && n <= |cut|
    ensures PutBack(m, base, cut, n, start, end)
  {
    if n == 0 {
      assert cut[..0] == [] && Front(m, cut, 0) == map[];
      assert Heads(map[], start, end) == map[] && CutTails(map[], start, end) == map[];
    } else {
      PutBackAll(m, base, cut, n - 1, start, end);
      FrontNext(m, cut, n - 1, start, end);
      assert cut[..n][..n - 1] == cut[..n - 1];
      PutBackOne(base, Front(m, cut, n - 1), PieceList(m, cut[..n - 1], start, end), m[cut[n - 1]], start, end);
    }
  }

  /** Only the overlapped extents leave pieces. */
  lemma OnlyOverlapped(m: ExtentTable, start: nat, end: nat)
    ensures var p := Restrict(m, Overlapping(m, start, end));
            && Heads(p, start, end) == Heads(m, start, end)
            && CutTails(p, start, end) == CutTails(m, start, end)
            && Tails(p, start, end) == Tails(m, start, end)
  {
    var p := Restrict(m, Overlapping(m, start, end));
    assert PastKeys(p, start, end) == PastKeys(m, start, end);
  }

  /** The loops over the collected extents do what the edit on values says, for every table. */
  lemma PiecesOfAll(m: ExtentTable, cut: seq<nat>, start: nat, end: nat)
    requires Keyed(m) && Lists(cut, Overlapping(m, start, end))
    ensures AddAll(m - Overlapping(m, start, end), PieceList(m, cut, start, end)) == Removed(m, start, end)
    ensures SumWeights(PieceList(m, cut, start, end))
            == TotalLength(Heads(m, start, end)) + TotalLength(CutTails(m, start, end))
  {
    PutBackAll(m, m - Overlapping(m, start, end), cut, |cut|, start, end);
    assert cut[..|cut|] == cut;
    ListsMembers(cut, Overlapping(m, start, end));
    OnlyOverlapped(m, start, end);
  }

  // ---------------------------------------------------------------- sharing

  function MarkShared(e: Extent): Extent {
    e.(flags := e.flags.SetShared())
  }

  function AllShared(m: ExtentTable): ExtentTable {
    map k | k in m :: MarkShared(m[k])
  }

  lemma SharedWellFormed(m: ExtentTable)
    requires WellFormed(m)
    ensures WellFormed(AllShared(m))
    ensures Solid(m) ==> Solid(AllShared(m))
  {
    forall j, k ensures Apart(AllShared(m), j, k) {
      assert Apart(m, j, k);
    }
  }
}
