/**
  Block extents and the partial byte map they stand for.

  An extent map is a map from start offset to extent, as in the source's `BTreeMap<u64, BlockExtent>`. Its meaning is
  `At(m, b)`: which object, at which position and with which flags, holds virtual byte `b`. The edits `Inserted` and
  `Removed` are the source's edits on values, and the lemmas give their effect on every byte.
 */
module Extents {
  import opened Sets

  /** The named bits of the source's flag word. */
  datatype ExtentFlags = ExtentFlags(hole: bool, shared: bool, dirty: bool, zeroed: bool) {
    function SetShared(): ExtentFlags { this.(shared := true) }
  }

  const NO_FLAGS := ExtentFlags(false, false, false, false)

  /** What one virtual byte is mapped to. */
  datatype Cell = Cell(objectKey: string, position: nat, flags: ExtentFlags) {
    predicate IsHole() { flags.hole }
    predicate IsShared() { flags.shared }
  }

  datatype Extent = Extent(offset: nat, length: nat, objectKey: string, objectOffset: nat, flags: ExtentFlags) {
    predicate IsHole() { flags.hole }

    predicate IsShared() { flags.shared }

    function End(): nat { offset + length }

    predicate Contains(b: nat) { offset <= b < End() }

    predicate Overlaps(start: nat, end: nat) { offset < end && End() > start }

    /** The receiver after the split, and the part split off, if any. */
    function SplitAt(at: nat): (r: (Extent, Option<Extent>)) {
      if at <= offset || at >= End() then (this, None)
      else
        (this.(length := at - offset),
         Some(Extent(at, End() - at, objectKey, objectOffset + (at - offset), flags)))
    }

    function CellAt(b: nat): Cell
      requires Contains(b)
    {
      Cell(objectKey, objectOffset + (b - offset), flags)
    }

    /** The extent up to `start`, as `remove_range` keeps it. */
    function Head(start: nat): Extent
      requires offset < start
    {
      this.(length := start - offset)
    }

    /** The extent from `end` on, as `remove_range` keeps it. */
    function Tail(end: nat): Extent
      requires offset <= end < End()
    {
      this.(offset := end, objectOffset := objectOffset + (end - offset), length := End() - end)
    }

    /** The bytes this extent adds to the allocation counter. */
    function Weight(): nat { if IsHole() then 0 else length }
  }

  type ExtentTable = map<nat, Extent>

  /** If `j` starts before `k`, it ends at or before the start of `k`. */
  ghost predicate Apart(m: ExtentTable, j: nat, k: nat) {
    j in m && k in m && j < k ==> m[j].End() <= k
  }

  /** Extents are keyed by their own offset. */
  ghost predicate Keyed(m: ExtentTable) {
    forall k :: k in m ==> m[k].offset == k
  }

  /** In addition no extent runs past the start of a later one. */
  ghost predicate WellFormed(m: ExtentTable) {
    Keyed(m) && forall j, k :: Apart(m, j, k)
  }

  /** No extent is empty. */
  ghost predicate Solid(m: ExtentTable) {
    forall k :: k in m ==> m[k].length > 0
  }

  /** The meaning of an extent map at one byte. */
  ghost function At(m: ExtentTable, b: nat): Option<Cell> {
    if exists k :: k in m && m[k].Contains(b) then
      var k :| k in m && m[k].Contains(b);
      Some(m[k].CellAt(b))
    else None
  }

  lemma OneOwner(m: ExtentTable, j: nat, k: nat, b: nat)
    requires WellFormed(m) && j in m && k in m
    requires m[j].Contains(b) && m[k].Contains(b)
    ensures j == k
  {
    assert Apart(m, j, k) && Apart(m, k, j);
  }

  lemma AtOwner(m: ExtentTable, k: nat, b: nat)
    requires WellFormed(m) && k in m && m[k].Contains(b)
    ensures At(m, b) == Some(m[k].CellAt(b))
  {
    var j :| j in m && m[j].Contains(b) && At(m, b) == Some(m[j].CellAt(b));
    OneOwner(m, j, k, b);
  }

  /** A map that keeps every owner of `b`, and gains none, means the same at `b`. */
  lemma AtSame(m: ExtentTable, n: ExtentTable, b: nat)
    requires WellFormed(m) && WellFormed(n)
    requires forall k :: k in m && m[k].Contains(b) ==> k in n && n[k] == m[k]
    requires forall k :: k in n && n[k].Contains(b) ==> k in m && m[k].Contains(b)
    ensures At(n, b) == At(m, b)
  {
    if exists k :: k in m && m[k].Contains(b) {
      var k :| k in m && m[k].Contains(b);
      AtOwner(m, k, b);
      AtOwner(n, k, b);
    }
  }

  // ---------------------------------------------------------------- splitting

  /** Splitting loses no byte and changes none; the parts meet at the split offset. */
  lemma SplitKeepsBytes(e: Extent, at: nat, b: nat)
    ensures var (first, second) := e.SplitAt(at);
            && (e.Contains(b) <==> first.Contains(b) || (second.Some? && second.value.Contains(b)))
            && (first.Contains(b) ==> first.CellAt(b) == e.CellAt(b))
            && (second.Some? && second.value.Contains(b) ==> second.value.CellAt(b) == e.CellAt(b) && !first.Contains(b))
            && (second.Some? <==> e.offset < at < e.End())
            && (second.Some? ==> first.length > 0 && second.value.length > 0 && first.End() == at == second.value.offset)
  {
  }

  /**
    For every overlapped extent and every range, also an empty or a backwards one: `remove_range` keeps a head exactly when
    splitting at `start` cuts the extent, and a tail exactly when splitting at `end` does, and they are the parts cut off.
   */
  lemma TrimIsTwoSplits(e: Extent, start: nat, end: nat)
    requires e.Overlaps(start, end)
    ensures e.offset < start <==> e.SplitAt(start).1.Some?
    ensures e.offset < start ==> e.Head(start) == e.SplitAt(start).0
    ensures e.End() > end <==> e.SplitAt(end).1.Some?
    ensures e.End() > end ==> Some(e.Tail(end)) == e.SplitAt(end).1
  {
  }

  // ---------------------------------------------------------------- the edits

  ghost function Overlapping(m: ExtentTable, start: nat, end: nat): (ks: set<nat>)
    ensures forall k :: k in ks <==> k in m && m[k].Overlaps(start, end)
  {
    set k | k in m && m[k].Overlaps(start, end)
  }

  ghost function Restrict(m: ExtentTable, ks: set<nat>): ExtentTable {
    map k | k in m && k in ks :: m[k]
  }

  ghost function Inserted(m: ExtentTable, e: Extent): ExtentTable {
    (m - Overlapping(m, e.offset, e.End()))[e.offset := e]
  }

  /** Extent `k` is cut by the range and reaches past its end. */
  ghost predicate ReachesPast(m: ExtentTable, start: nat, end: nat, k: nat) {
    k in m && m[k].Overlaps(start, end) && m[k].End() > end
  }

  ghost function PastKeys(m: ExtentTable, start: nat, end: nat): (ks: set<nat>)
    ensures forall k :: k in ks <==> ReachesPast(m, start, end, k)
  {
    set k | k in m && m[k].Overlaps(start, end) && m[k].End() > end
  }

  /** What `remove_range` keeps before the range. */
  ghost function Heads(m: ExtentTable, start: nat, end: nat): ExtentTable {
    map k | k in m && m[k].Overlaps(start, end) && m[k].offset < start :: m[k].Head(start)
  }

  /** What `remove_range` puts back after the range, by the extent it is cut from. */
  ghost function CutTails(m: ExtentTable, start: nat, end: nat): map<nat, Extent> {
    map k | k in PastKeys(m, start, end) :: m[k].Tail(end)
  }

  /** All of them start at `end`, so the table keeps the one put back last. */
  ghost function Tails(m: ExtentTable, start: nat, end: nat): ExtentTable {
    var past := PastKeys(m, start, end);
    if past == {} then map[] else map[end := m[Max(past)].Tail(end)]
  }

  ghost function Pieces(m: ExtentTable, start: nat, end: nat): ExtentTable {
    Heads(m, start, end) + Tails(m, start, end)
  }

  ghost function Removed(m: ExtentTable, start: nat, end: nat): ExtentTable {
    (m - Overlapping(m, start, end)) + Pieces(m, start, end)
  }

  /** An extent that reaches over all of [end, start], possible only for a backwards range. */
  ghost predicate Straddled(m: ExtentTable, start: nat, end: nat) {
    exists k :: k in m && k < end && m[k].End() > start
  }

  // ---------------------------------------------------------------- insert

  lemma InsertedKeyed(m: ExtentTable, e: Extent)
    requires Keyed(m)
    ensures Keyed(Inserted(m, e))
  {
  }

  lemma InsertedWellFormed(m: ExtentTable, e: Extent)
    requires WellFormed(m)
    ensures WellFormed(Inserted(m, e))
    ensures Solid(m) && e.length > 0 ==> Solid(Inserted(m, e))
  {
    var n := Inserted(m, e);
    forall j, k ensures Apart(n, j, k) {
      assert Apart(m, j, k);
    }
  }

  /**
    Every byte of the new extent maps to it. Every extent that overlaps the new range, or starts at the same offset, is
    dropped whole, also outside the new range. Every other byte keeps its meaning.
   */
  lemma InsertedBytes(m: ExtentTable, e: Extent, b: nat)
    requires WellFormed(m)
    ensures e.Contains(b) ==> At(Inserted(m, e), b) == Some(e.CellAt(b))
    ensures !e.Contains(b) && (exists k :: k in m && m[k].Contains(b) && (m[k].Overlaps(e.offset, e.End()) || k == e.offset))
            ==> At(Inserted(m, e), b) == None
    ensures !e.Contains(b) && !(exists k :: k in m && m[k].Contains(b) && (m[k].Overlaps(e.offset, e.End()) || k == e.offset))
            ==> At(Inserted(m, e), b) == At(m, b)
  {
    var n := Inserted(m, e);
    InsertedWellFormed(m, e);
    if e.Contains(b) {
      AtOwner(n, e.offset, b);
    } else if k :| k in m && m[k].Contains(b) && (m[k].Overlaps(e.offset, e.End()) || k == e.offset) {
      forall j | j in n && n[j].Contains(b) ensures false {
        OneOwner(m, j, k, b);
      }
    } else {
      AtSame(m, n, b);
    }
  }

  // ---------------------------------------------------------------- remove

  lemma RemovedKeyed(m: ExtentTable, start: nat, end: nat)
    requires Keyed(m)
    ensures Keyed(Removed(m, start, end))
  {
  }

  /** The overlapped extents lie in order, so at most one of them reaches past the end. */
  lemma TailOf(m: ExtentTable, start: nat, end: nat, k: nat)
    requires WellFormed(m) && ReachesPast(m, start, end, k)
    ensures PastKeys(m, start, end) == {k}
    ensures Tails(m, start, end) == map[end := m[k].Tail(end)]
    ensures end !in m
  {
    forall j | ReachesPast(m, start, end, j) ensures j == k {
      assert Apart(m, j, k) && Apart(m, k, j);
    }
    assert PastKeys(m, start, end) == {k};
    assert Apart(m, k, end);
  }

  /** Every extent after the removal is part of one extent before it, and lies outside the range. */
  lemma RemovedOwner(m: ExtentTable, start: nat, end: nat, p: nat) returns (k: nat)
    requires WellFormed(m) && p in Removed(m, start, end)
    ensures k in m && k <= p
    ensures var e := Removed(m, start, end)[p];
            && e.offset == p && e.End() <= m[k].End()
            && e == m[k].(offset := p, length := e.length, objectOffset := m[k].objectOffset + (p - k))
            && (e.End() <= start || end <= p)
            && (p != k ==> p == end)
            && (e.length == 0 ==> m[k].length == 0)
            && (e.End() < m[k].End() ==> p == k && e.End() == start)
  {
    if p in Tails(m, start, end) {
      k :| ReachesPast(m, start, end, k);
      TailOf(m, start, end, k);
    } else {
      k := p;
    }
  }

  lemma RemovedOrdered(m: ExtentTable, start: nat, end: nat, i: nat, j: nat)
    requires WellFormed(m) && (start <= end || !Straddled(m, start, end))
    requires i in Removed(m, start, end) && j in Removed(m, start, end) && i < j
    ensures Apart(Removed(m, start, end), i, j)
  {
    if start > end {
      assert forall k :: !ReachesPast(m, start, end, k);
      assert Removed(m, start, end) == m;
      assert Apart(m, i, j);
    } else {
      var a := RemovedOwner(m, start, end, i);
      var b := RemovedOwner(m, start, end, j);
      assert Apart(m, a, b) && Apart(m, b, a);
    }
  }

  /** Removing keeps the map well formed exactly when the range is not backwards over a straddling extent. */
  lemma RemovedWellFormed(m: ExtentTable, start: nat, end: nat)
    requires WellFormed(m)
    ensures WellFormed(Removed(m, start, end)) <==> start <= end || !Straddled(m, start, end)
    ensures Solid(m) ==> Solid(Removed(m, start, end))
  {
    var n := Removed(m, start, end);
    forall p | p in n
      ensures n[p].offset == p
      ensures Solid(m) ==> n[p].length > 0
    {
      var _ := RemovedOwner(m, start, end, p);
    }
    if start <= end || !Straddled(m, start, end) {
      forall i, j ensures Apart(n, i, j) {
        if i in n && j in n && i < j {
          RemovedOrdered(m, start, end, i, j);
        }
      }
    } else {
      var k :| k in m && k < end && m[k].End() > start;
      TailOf(m, start, end, k);
      assert !Apart(n, k, end);
    }
  }

  lemma RemovedPart(m: ExtentTable, start: nat, end: nat, k: nat, b: nat) returns (p: nat)
    requires WellFormed(m) && start <= end
    requires k in m && m[k].Contains(b) && !(start <= b < end)
    ensures p in Removed(m, start, end) && Removed(m, start, end)[p].Contains(b)
    ensures Removed(m, start, end)[p].CellAt(b) == m[k].CellAt(b)
  {
    if m[k].Overlaps(start, end) && end <= b {
      TailOf(m, start, end, k);
      p := end;
    } else {
      if j :| ReachesPast(m, start, end, j) {
        TailOf(m, start, end, j);
      }
      p := k;
    }
  }

  lemma RemovedKeeps(m: ExtentTable, start: nat, end: nat, k: nat, b: nat)
    requires WellFormed(m) && start <= end
    requires k in m && m[k].Contains(b) && !(start <= b < end)
    ensures At(Removed(m, start, end), b) == Some(m[k].CellAt(b))
  {
    RemovedWellFormed(m, start, end);
    var p := RemovedPart(m, start, end, k, b);
    AtOwner(Removed(m, start, end), p, b);
  }

  lemma RemovedClears(m: ExtentTable, start: nat, end: nat, b: nat)
    requires WellFormed(m) && start <= end
    requires start <= b < end || At(m, b) == None
    ensures At(Removed(m, start, end), b) == None
  {
    var n := Removed(m, start, end);
    if p :| p in n && n[p].Contains(b) {
      var k := RemovedOwner(m, start, end, p);
      assert m[k].Contains(b);
      assert false;
    }
  }

  /** Exactly the bytes of [start, end) become unmapped; every other byte keeps object, position and flags. */
  lemma RemovedBytes(m: ExtentTable, start: nat, end: nat, b: nat)
    requires WellFormed(m) && start <= end
    ensures At(Removed(m, start, end), b) == if start <= b < end then None else At(m, b)
  {
    if start <= b < end || At(m, b) == None {
      RemovedClears(m, start, end, b);
    } else {
      var k :| k in m && m[k].Contains(b) && At(m, b) == Some(m[k].CellAt(b));
      RemovedKeeps(m, start, end, k, b);
    }
  }

  /** Backwards ranges are where `remove_range` goes wrong: one extent comes back as two overlapping ones. */
  lemma BackwardsRemoveExample()
    ensures var m := map[0 := Extent(0, 10, "obj", 0, NO_FLAGS)];
            WellFormed(m) && !WellFormed(Removed(m, 6, 4))
  {
    var m := map[0 := Extent(0, 10, "obj", 0, NO_FLAGS)];
    assert m[0].End() > 6;
    RemovedWellFormed(m, 6, 4);
  }

  /**
    Clearing a range and then inserting over it is an exact overlay of the new extent on the old bytes, exactly when the
    new extent is not empty or its offset is unmapped.
   */
  lemma OverlayExact(m: ExtentTable, e: Extent)
    requires WellFormed(m)
    ensures (forall b: nat :: At(Inserted(Removed(m, e.offset, e.End()), e), b)
                              == if e.Contains(b) then Some(e.CellAt(b)) else At(m, b))
            <==> e.length > 0 || At(m, e.offset) == None
  {
    var n := Removed(m, e.offset, e.End());
    RemovedWellFormed(m, e.offset, e.End());
    if e.length > 0 || At(m, e.offset) == None {
      forall b: nat
        ensures At(Inserted(n, e), b) == if e.Contains(b) then Some(e.CellAt(b)) else At(m, b)
      {
        OverlayByte(m, e, b);
      }
    } else {
      OverlayLost(m, e);
    }
  }

  /** An empty extent inserted at a mapped offset unmaps that byte. */
  lemma OverlayLost(m: ExtentTable, e: Extent)
    requires WellFormed(m) && e.length == 0 && At(m, e.offset) != None
    ensures At(Inserted(Removed(m, e.offset, e.End()), e), e.offset) == None
  {
    var b := e.offset;
    var n := Removed(m, b, b);
    RemovedWellFormed(m, b, b);
    RemovedBytes(m, b, b, b);
    var p :| p in n && n[p].Contains(b);
    var k := RemovedOwner(m, b, b, p);
    InsertedBytes(n, e, b);
  }

  lemma OverlayByte(m: ExtentTable, e: Extent, b: nat)
    requires WellFormed(m)
    requires e.length > 0 || At(m, e.offset) == None
    ensures At(Inserted(Removed(m, e.offset, e.End()), e), b) == if e.Contains(b) then Some(e.CellAt(b)) else At(m, b)
  {
    var n := Removed(m, e.offset, e.End());
    RemovedWellFormed(m, e.offset, e.End());
    RemovedBytes(m, e.offset, e.End(), b);
    RemovedBytes(m, e.offset, e.End(), e.offset);
    InsertedBytes(n, e, b);
    forall k | k in n && n[k].Contains(b)
      ensures !n[k].Overlaps(e.offset, e.End()) && k != e.offset
    {
      var c := if k < e.offset then e.offset else k;
      RemovedBytes(m, e.offset, e.End(), c);
      if n[k].Contains(c) {
        AtOwner(n, k, c);
      }
    }
  }
}
