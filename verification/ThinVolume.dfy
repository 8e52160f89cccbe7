/** Thin volumes: tiling a read request with data and zero ranges, and the sharing test before a write. */
module ThinVolumes {
  import opened Sets
  import opened Extents
  import opened Allocation
  import opened ExtentMaps

  const U32_RANGE: nat := 0x1_0000_0000

  /** The `as u32` cast, which truncates. */
  function AsU32(x: nat): (r: nat)
    ensures x < U32_RANGE ==> r == x
  {
    x % U32_RANGE
  }

  datatype BlockError = InvalidOffset(offset: nat, size: nat) | ReadOnly | OutOfSpace | SnapshotNotFound(id: nat)

  datatype Result<+T> = Ok(value: T) | Err(error: BlockError)

  datatype DataRange =
    | Zero(offset: nat, length: nat)
    | Data(offset: nat, length: nat, objectKey: string, objectOffset: nat)
  {
    function End(): nat { offset + length }
  }

  datatype ReadResult = AllZero(length: nat) | Ranges(ranges: seq<DataRange>) {
    /** The ranges of a request that starts at `offset`. */
    function AsRanges(offset: nat): seq<DataRange> {
      if AllZero? then [Zero(offset, length)] else ranges
    }
  }

  datatype WriteResult = WriteResult(offset: nat, length: nat, needsCow: bool)

  /** Consecutive ranges from `lo` to `hi`, without gap or overlap. */
  predicate Tiles(rs: seq<DataRange>, lo: nat, hi: nat) {
    if rs == [] then lo == hi
    else
      && rs[0].offset == lo
      && rs[|rs| - 1].End() == hi
      && forall i :: 0 < i < |rs| ==> rs[i].offset == rs[i - 1].End()
  }

  /** Every byte of the range is what the byte map says: nothing or a hole, or this position of this object. */
  ghost predicate Answers(m: ExtentTable, r: DataRange) {
    forall b: nat :: r.offset <= b < r.End() ==>
      match r
      case Zero(_, _) => At(m, b) == None || At(m, b).value.IsHole()
      case Data(offset, _, key, position) =>
        At(m, b).Some? && !At(m, b).value.IsHole()
        && At(m, b).value.objectKey == key && At(m, b).value.position == position + (b - offset)
  }

  ghost predicate AllAnswer(m: ExtentTable, rs: seq<DataRange>) {
    forall i :: 0 <= i < |rs| ==> Answers(m, rs[i])
  }

  lemma {:induction false} TilesCover(rs: seq<DataRange>, lo: nat, hi: nat, b: nat)
    requires Tiles(rs, lo, hi) && lo <= b < hi
    ensures exists i :: 0 <= i < |rs| && rs[i].offset <= b < rs[i].End()
  {
    var last := |rs| - 1;
    if rs[last].offset <= b {
      assert rs[last].offset <= b < rs[last].End();
    } else {
      var front := rs[..last];
      assert Tiles(front, lo, rs[last].offset);
      TilesCover(front, lo, rs[last].offset, b);
      var i :| 0 <= i < |front| && front[i].offset <= b < front[i].End();
      assert rs[i].offset <= b < rs[i].End();
    }
  }

  lemma {:induction false} TilesAscend(rs: seq<DataRange>, lo: nat, hi: nat, i: nat, j: nat)
    requires Tiles(rs, lo, hi) && i < j < |rs|
    ensures rs[i].End() <= rs[j].offset
    decreases j
  {
    if i + 1 < j {
      TilesAscend(rs, lo, hi, i, j - 1);
    }
  }

  /** Each requested byte lies in exactly one returned range, and is reported as data exactly when it is allocated. */
  lemma ReadByte(m: ExtentTable, rs: seq<DataRange>, lo: nat, hi: nat, b: nat) returns (i: nat)
    requires Tiles(rs, lo, hi) && AllAnswer(m, rs) && lo <= b < hi
    ensures i < |rs| && rs[i].offset <= b < rs[i].End()
    ensures forall j :: 0 <= j < |rs| && rs[j].offset <= b < rs[j].End() ==> j == i
    ensures rs[i].Data? <==> At(m, b).Some? && !At(m, b).value.IsHole()
    ensures rs[i].Data? ==> rs[i].objectKey == At(m, b).value.objectKey
                            && rs[i].objectOffset + (b - rs[i].offset) == At(m, b).value.position
  {
    TilesCover(rs, lo, hi, b);
    i :| 0 <= i < |rs| && rs[i].offset <= b < rs[i].End();
    assert Answers(m, rs[i]);
    forall j | 0 <= j < |rs| && rs[j].offset <= b < rs[j].End() ensures j == i {
      if j < i {
        TilesAscend(rs, lo, hi, j, i);
      } else if i < j {
        TilesAscend(rs, lo, hi, i, j);
      }
    }
  }

  /**
    End to end: after any run of overlaying writes and discards, the range a read returns for a byte is data exactly when
    the latest update of that byte wrote data, and then it names the object and position of that write.
   */
  lemma ReadReturnsLastWrite(us: seq<Update>, rs: seq<DataRange>, lo: nat, hi: nat, b: nat) returns (i: nat)
    requires forall u :: u in us ==> Proper(u)
    requires Tiles(rs, lo, hi) && AllAnswer(RunUpdates(us).extents, rs) && lo <= b < hi
    ensures i < |rs| && rs[i].offset <= b < rs[i].End()
    ensures rs[i].Data? <==> LastWrite(us, b).Some? && !LastWrite(us, b).value.IsHole()
    ensures rs[i].Data? ==> rs[i].objectKey == LastWrite(us, b).value.objectKey
                            && rs[i].objectOffset + (b - rs[i].offset) == LastWrite(us, b).value.position
  {
    LastWriterWins(us, b);
    i := ReadByte(RunUpdates(us).extents, rs, lo, hi, b);
  }

  // ---------------------------------------------------------------- steps of the read loop

  lemma TilesAppend(rs: seq<DataRange>, lo: nat, mid: nat, r: DataRange)
    requires Tiles(rs, lo, mid) && r.offset == mid
    ensures Tiles(rs + [r], lo, r.End())
  {
  }

  /** A byte before the next extent, past the ends of the previous ones, is not mapped. */
  lemma GapUnmapped(m: ExtentTable, start: nat, end: nat, es: seq<Extent>, i: nat, current: nat, b: nat)
    requires WellFormed(m) && ExactlyOverlapping(m, start, end, es) && i <= |es|
    requires forall j :: 0 <= j < i ==> es[j].End() <= current
    requires start <= current <= b < end && (i < |es| ==> b < es[i].offset)
    ensures At(m, b) == None
  {
    forall k | k in m ensures !m[k].Contains(b) {
      if m[k].Overlaps(start, end) {
        assert m[k] in es;
        var j :| 0 <= j < |es| && es[j] == m[k];
        if i < j {
          FollowsApart(m, start, end, es, i, j);
        }
      }
    }
  }

  lemma GapAnswers(m: ExtentTable, start: nat, end: nat, es: seq<Extent>, i: nat, current: nat, to: nat)
    requires WellFormed(m) && ExactlyOverlapping(m, start, end, es) && i <= |es|
    requires forall j :: 0 <= j < i ==> es[j].End() <= current
    requires start <= current <= to <= end && (i < |es| ==> to <= es[i].offset)
    ensures Answers(m, Zero(current, to - current))
  {
    forall b: nat | current <= b < to ensures At(m, b) == None {
      GapUnmapped(m, start, end, es, i, current, b);
    }
  }

  /** The range the source pushes for the part [from, to) of an extent. */
  function ExtentRange(e: Extent, from: nat, to: nat): DataRange
    requires e.offset <= from <= to <= e.End()
  {
    if e.IsHole() then Zero(from, AsU32(to - from))
    else Data(from, AsU32(to - from), e.objectKey, e.objectOffset + (from - e.offset))
  }

  lemma ExtentAnswers(m: ExtentTable, e: Extent, from: nat, to: nat)
    requires WellFormed(m) && e.offset in m && m[e.offset] == e
    requires e.offset <= from <= to <= e.End() && to - from < U32_RANGE
    ensures Answers(m, ExtentRange(e, from, to))
    ensures ExtentRange(e, from, to).offset == from && ExtentRange(e, from, to).End() == to
  {
    forall b: nat | from <= b < to ensures At(m, b) == Some(e.CellAt(b)) {
      AtOwner(m, e.offset, b);
    }
  }

  /** What the loop has established when it reaches extent `i` with everything before `current` answered. */
  ghost predicate Progress(m: ExtentTable, start: nat, end: nat, es: seq<Extent>, i: nat, rs: seq<DataRange>, current: nat) {
    && WellFormed(m) && ExactlyOverlapping(m, start, end, es) && i <= |es|
    && start <= current <= end
    && Tiles(rs, start, current) && AllAnswer(m, rs)
    && (forall j :: 0 <= j < i ==> es[j].End() <= current || current == end)
    && (i < |es| ==> current <= es[i].End())
  }

  /** The hole before extent `i`, or after the last one. */
  lemma PushGap(m: ExtentTable, start: nat, end: nat, es: seq<Extent>, i: nat, rs: seq<DataRange>, current: nat, to: nat)
    requires Progress(m, start, end, es, i, rs, current) && end - start < U32_RANGE
    requires current < to && to == if i < |es| then es[i].offset else end
    ensures Progress(m, start, end, es, i, rs + [Zero(current, AsU32(to - current))], to)
  {
    assert to <= end;
    forall j | 0 <= j < i ensures es[j].End() <= current {
      if i < |es| {
        FollowsApart(m, start, end, es, j, i);
      }
    }
    GapAnswers(m, start, end, es, i, current, to);
    TilesAppend(rs, start, current, Zero(current, to - current));
  }

  lemma PushExtent(m: ExtentTable, start: nat, end: nat, es: seq<Extent>, i: nat, rs: seq<DataRange>, current: nat, to: nat)
    requires Progress(m, start, end, es, i, rs, current) && end - start < U32_RANGE
    requires i < |es| && es[i].offset <= current
    requires to == if end < es[i].End() then end else es[i].End()
    ensures current <= to && to - current < U32_RANGE
    ensures Progress(m, start, end, es, i + 1, rs + [ExtentRange(es[i], current, to)], to)
  {
    ExtentAnswers(m, es[i], current, to);
    TilesAppend(rs, start, current, ExtentRange(es[i], current, to));
    if i + 1 < |es| {
      FollowsApart(m, start, end, es, i, i + 1);
    }
    forall j | 0 <= j < i + 1 ensures es[j].End() <= to || to == end {
      if j < i {
        FollowsApart(m, start, end, es, j, i);
      }
    }
  }

  /** The ranges pushed for one extent when everything before `current` is answered. */
  function RangesFor(e: Extent, current: nat, end: nat): seq<DataRange>
    requires current <= e.End() && e.offset < end && current <= end
  {
    var from := if current < e.offset then e.offset else current;
    var to := if end < e.End() then end else e.End();
    (if current < e.offset then [Zero(current, AsU32(e.offset - current))] else []) + [ExtentRange(e, from, to)]
  }

  lemma PushBoth(m: ExtentTable, start: nat, end: nat, es: seq<Extent>, i: nat, rs: seq<DataRange>, current: nat)
    requires Progress(m, start, end, es, i, rs, current) && end - start < U32_RANGE && i < |es|
    ensures current <= es[i].End() && es[i].offset < end && current <= end
    ensures Progress(m, start, end, es, i + 1, rs + RangesFor(es[i], current, end),
                     if end < es[i].End() then end else es[i].End())
  {
    var e := es[i];
    var to := if end < e.End() then end else e.End();
    if current < e.offset {
      var gap := Zero(current, AsU32(e.offset - current));
      PushGap(m, start, end, es, i, rs, current, e.offset);
      PushExtent(m, start, end, es, i, rs + [gap], e.offset, to);
      assert rs + RangesFor(e, current, end) == rs + [gap] + [ExtentRange(e, e.offset, to)];
    } else {
      PushExtent(m, start, end, es, i, rs, current, to);
      assert RangesFor(e, current, end) == [ExtentRange(e, current, to)];
    }
  }

  /** The read loop over the overlapping extents. */
  method TileRequest(es: seq<Extent>, offset: nat, end: nat, ghost m: ExtentTable) returns (ranges: seq<DataRange>)
    requires WellFormed(m) && ExactlyOverlapping(m, offset, end, es)
    requires offset <= end < offset + U32_RANGE
    ensures Tiles(ranges, offset, end) && AllAnswer(m, ranges)
  {
    ranges := [];
    var current: nat := offset;
    for i := 0 to |es|
      invariant Progress(m, offset, end, es, i, ranges, current)
    {
      PushBoth(m, offset, end, es, i, ranges, current);
      var e := es[i];
      ghost var before, answered := ranges, current;
      if current < e.offset {
        ranges := ranges + [Zero(current, AsU32(e.offset - current))];
        current := e.offset;
      }
      var from := if current < e.offset then e.offset else current;
      var to := if end < e.End() then end else e.End();
      if e.IsHole() {
        ranges := ranges + [Zero(from, AsU32(to - from))];
      } else {
        ranges := ranges + [Data(from, AsU32(to - from), e.objectKey, e.objectOffset + (from - e.offset))];
      }
      current := to;
      assert ranges == before + RangesFor(e, answered, end);
    }
    if current < end {
      PushGap(m, offset, end, es, |es|, ranges, current, end);
      ranges := ranges + [Zero(current, AsU32(end - current))];
    }
  }

  // ---------------------------------------------------------------- sharing

  /** The test made before a write: some extent that overlaps the range is shared. */
  ghost predicate CowNeeded(m: ExtentTable, start: nat, end: nat) {
    exists k :: k in m && m[k].Overlaps(start, end) && m[k].IsShared()
  }

  ghost predicate SharedByte(m: ExtentTable, b: nat) {
    At(m, b).Some? && At(m, b).value.IsShared()
  }

  /** A shared extent without bytes that starts inside the range. */
  ghost predicate EmptyInside(m: ExtentTable, start: nat, end: nat, k: nat) {
    k in m && m[k].IsShared() && m[k].length == 0 && start < k < end
  }

  /** A shared extent with `at` strictly inside. */
  ghost predicate Around(m: ExtentTable, at: nat, k: nat) {
    k in m && m[k].IsShared() && k < at < m[k].End()
  }

  /**
    The test says yes exactly for three reasons: some byte of the range is mapped to a shared extent, an empty shared
    extent starts inside the range, or the range itself is empty and lies strictly inside a shared extent.
   */
  lemma CowIsPerByte(m: ExtentTable, start: nat, end: nat)
    requires WellFormed(m) && start <= end
    ensures CowNeeded(m, start, end) <==>
              || (exists b: nat :: start <= b < end && SharedByte(m, b))
              || (exists k :: EmptyInside(m, start, end, k))
              || (start == end && exists k :: Around(m, start, k))
  {
    if k :| k in m && m[k].Overlaps(start, end) && m[k].IsShared() {
      if start == end {
        assert Around(m, start, k);
      } else if m[k].length == 0 {
        assert EmptyInside(m, start, end, k);
      } else {
        var b := if k < start then start else k;
        AtOwner(m, k, b);
        assert SharedByte(m, b);
      }
    }
    if b: nat :| start <= b < end && SharedByte(m, b) {
      var k :| k in m && m[k].Contains(b) && At(m, b) == Some(m[k].CellAt(b));
      assert m[k].Overlaps(start, end);
    }
    if k :| EmptyInside(m, start, end, k) {
      assert m[k].Overlaps(start, end);
    }
    if start == end {
      if k :| Around(m, start, k) {
        assert m[k].Overlaps(start, end);
      }
    }
  }

  class ThinVolume {
    const id: nat
    const virtualSize: nat
    const readOnly: bool
    const extents: ExtentMap

    constructor (id: nat, virtualSize: nat, readOnly: bool)
      ensures this.id == id && this.virtualSize == virtualSize && this.readOnly == readOnly
      ensures fresh(extents) && extents.Valid() && extents.extents == map[] && extents.size == virtualSize
    {
      this.id := id;
      this.virtualSize := virtualSize;
      this.readOnly := readOnly;
      var em := new ExtentMap(virtualSize);
      this.extents := em;
    }

    method Read(offset: nat, length: nat) returns (r: Result<ReadResult>)
      requires WellFormed(extents.extents) && length < U32_RANGE
      ensures offset + length > virtualSize ==> r == Err(InvalidOffset(offset, virtualSize))
      ensures offset + length <= virtualSize ==> r.Ok?
      ensures r.Ok? ==> Tiles(r.value.AsRanges(offset), offset, offset + length)
      ensures r.Ok? ==> AllAnswer(extents.extents, r.value.AsRanges(offset))
      ensures r.Ok? ==> (r.value.AllZero? <==> forall k :: k in extents.extents ==>
                                                 !extents.extents[k].Overlaps(offset, offset + length))
    {
      if offset + length > virtualSize {
        return Err(InvalidOffset(offset, virtualSize));
      }
      var end := offset + length;
      var es := extents.LookupRange(offset, end);
      ghost var m := extents.extents;
      if es == [] {
        GapAnswers(m, offset, end, es, 0, offset, end);
        return Ok(AllZero(length));
      }
      var ranges := TileRequest(es, offset, end, m);
      assert es[0].Overlaps(offset, end);
      r := Ok(Ranges(ranges));
    }

    method Write(offset: nat, length: nat) returns (r: Result<WriteResult>)
      requires extents.Valid()
      ensures readOnly ==> r == Err(ReadOnly)
      ensures !readOnly && offset + length > virtualSize ==> r == Err(InvalidOffset(offset, virtualSize))
      ensures !readOnly && offset + length <= virtualSize ==>
                r == Ok(WriteResult(offset, length, CowNeeded(extents.extents, offset, offset + length)))
    {
      if readOnly {
        return Err(ReadOnly);
      }
      if offset + length > virtualSize {
        return Err(InvalidOffset(offset, virtualSize));
      }
      var es := extents.LookupRange(offset, offset + length);
      var cow := exists i :: 0 <= i < |es| && es[i].IsShared();
      if cow {
        var i :| 0 <= i < |es| && es[i].IsShared();
      }
      r := Ok(WriteResult(offset, length, cow));
    }
  }
}
