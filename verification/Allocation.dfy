/**
  The running `allocated` counter of an extent map, against the set of bytes it is meant to count, over whole runs.

  The counter is an `AtomicU64`, which wraps; `counter` here is the unwrapped integer, and the run theorems put it
  between 0 and the size of the volume, so the wrapped and the unwrapped counter are the same number.
 */
module Allocation {
  import opened Sets
  import opened Extents

  ghost function BytesOf(e: Extent): set<int> {
    Interval(e.offset, e.End())
  }

  /** The distinct bytes covered by extents that are not holes. */
  ghost function AllocatedBytes(m: ExtentTable): (s: set<int>)
    ensures forall b :: b in s <==> exists k :: k in m && !m[k].IsHole() && b in BytesOf(m[k])
  {
    set k, b | k in m && !m[k].IsHole() && b in BytesOf(m[k]) :: b
  }

  /** In terms of the byte map: the bytes mapped to a cell that is not a hole. */
  lemma AllocatedMeans(m: ExtentTable, b: nat)
    requires WellFormed(m)
    ensures b in AllocatedBytes(m) <==> At(m, b).Some? && !At(m, b).value.IsHole()
  {
    if k :| k in m && m[k].Contains(b) {
      AtOwner(m, k, b);
      assert b in BytesOf(m[k]);
      forall j | j in m && b in BytesOf(m[j]) ensures j == k {
        OneOwner(m, j, k, b);
      }
    }
  }

  ghost function Pick(m: ExtentTable): (k: nat)
    requires m != map[]
    ensures k in m
  {
    assert m.Keys != {};
    var k :| k in m; k
  }

  /** The sum of the lengths of the extents that are not holes. */
  ghost function TotalLength(m: ExtentTable): nat
    decreases |m|
  {
    if m == map[] then 0 else m[Pick(m)].Weight() + TotalLength(m - {Pick(m)})
  }

  lemma {:induction false} TotalTake(m: map<nat, Extent>, k: nat)
    requires k in m
    ensures TotalLength(m) == m[k].Weight() + TotalLength(m - {k})
    decreases |m|
  {
    var p := Pick(m);
    if p != k {
      TotalTake(m - {p}, k);
      TotalTake(m - {k}, p);
      assert m - {p} - {k} == m - {k} - {p};
    }
  }

  lemma TotalPut(m: map<nat, Extent>, k: nat, e: Extent)
    ensures TotalLength(m[k := e]) == TotalLength(m) + e.Weight() - if k in m then m[k].Weight() else 0
  {
    TotalTake(m[k := e], k);
    if k in m {
      TotalTake(m, k);
      assert m[k := e] - {k} == m - {k};
    } else {
      assert m[k := e] - {k} == m;
    }
  }

  lemma {:induction false} TotalSplit(m: map<nat, Extent>, ks: set<nat>)
    ensures TotalLength(m) == TotalLength(m - ks) + TotalLength(Restrict(m, ks))
    decreases |m|
  {
    if m == map[] {
      assert m - ks == map[] && Restrict(m, ks) == map[];
    } else {
      var k := Pick(m);
      TotalSplit(m - {k}, ks);
      if k in ks {
        TotalTake(Restrict(m, ks), k);
        assert Restrict(m, ks) - {k} == Restrict(m - {k}, ks) && m - {k} - ks == m - ks;
      } else {
        TotalTake(m - ks, k);
        assert m - ks - {k} == m - {k} - ks && Restrict(m - {k}, ks) == Restrict(m, ks);
      }
    }
  }

  lemma TotalUnion(m: map<nat, Extent>, n: map<nat, Extent>)
    requires forall k :: k in n ==> k !in m
    ensures TotalLength(m + n) == TotalLength(m) + TotalLength(n)
  {
    TotalSplit(m + n, n.Keys);
    assert (m + n) - n.Keys == m && Restrict(m + n, n.Keys) == n;
  }

  // ---------------------------------------------------------------- lengths against bytes

  /** The bytes an extent adds to the counter. */
  ghost function OwnBytes(e: Extent): (s: set<int>)
    ensures |s| == e.Weight()
    ensures forall b :: b in s <==> !e.IsHole() && b in BytesOf(e)
  {
    if e.IsHole() then {} else BytesOf(e)
  }

  /** How much the lengths of a table count more than once. */
  ghost function Surplus(m: ExtentTable): int {
    TotalLength(m) - |AllocatedBytes(m)|
  }

  ghost predicate CountedTwice(m: ExtentTable, j: nat, k: nat, b: int) {
    j in m && k in m && j != k && b in OwnBytes(m[j]) && b in OwnBytes(m[k])
  }

  /** No byte lies in two extents that are not holes. */
  ghost predicate NoByteTwice(m: ExtentTable) {
    forall j, k, b :: !CountedTwice(m, j, k, b)
  }

  lemma BytesTake(m: ExtentTable, k: nat)
    requires k in m
    ensures AllocatedBytes(m) == AllocatedBytes(m - {k}) + OwnBytes(m[k])
  {
    var rest := m - {k};
    forall b | b in AllocatedBytes(m) ensures b in AllocatedBytes(rest) + OwnBytes(m[k]) {
      var j :| j in m && !m[j].IsHole() && b in BytesOf(m[j]);
      assert j != k ==> j in rest && rest[j] == m[j];
    }
    forall b | b in AllocatedBytes(rest) ensures b in AllocatedBytes(m) {
      var j :| j in rest && !rest[j].IsHole() && b in BytesOf(rest[j]);
      assert m[j] == rest[j];
    }
  }

  lemma SurplusTake(m: ExtentTable, k: nat)
    requires k in m
    ensures Surplus(m) == Surplus(m - {k}) + |OwnBytes(m[k]) * AllocatedBytes(m - {k})|
  {
    TotalTake(m, k);
    BytesTake(m, k);
    UnionSize(AllocatedBytes(m - {k}), OwnBytes(m[k]));
  }

  /** Sharing bytes with the rest of the table is sharing a byte with one extent of it. */
  lemma SharesByte(m: ExtentTable, k: nat)
    requires k in m
    ensures OwnBytes(m[k]) * AllocatedBytes(m - {k}) == {} <==> forall j, b :: !CountedTwice(m, j, k, b)
  {
    var rest := m - {k};
    if b :| b in OwnBytes(m[k]) * AllocatedBytes(rest) {
      var j :| j in rest && !rest[j].IsHole() && b in BytesOf(rest[j]);
      assert CountedTwice(m, j, k, b);
    }
    if j, b :| CountedTwice(m, j, k, b) {
      assert rest[j] == m[j] && b in AllocatedBytes(rest);
      assert b in OwnBytes(m[k]) * AllocatedBytes(rest);
    }
  }

  lemma TwiceTake(m: ExtentTable, k: nat)
    requires k in m
    ensures NoByteTwice(m) <==> NoByteTwice(m - {k}) && forall j, b :: !CountedTwice(m, j, k, b)
  {
    var rest := m - {k};
    if NoByteTwice(m) {
      forall i, j, b ensures !CountedTwice(rest, i, j, b) {
        assert !CountedTwice(m, i, j, b);
      }
    }
    if NoByteTwice(rest) && forall j, b :: !CountedTwice(m, j, k, b) {
      forall i, j, b ensures !CountedTwice(m, i, j, b) {
        assert !CountedTwice(rest, i, j, b) && !CountedTwice(m, i, k, b) && !CountedTwice(m, j, k, b);
      }
    }
  }

  /** For every table, overlapping or not: lengths never count too little, and count right exactly when no byte is shared. */
  lemma {:induction false} SurplusIff(m: ExtentTable)
    ensures Surplus(m) >= 0
    ensures Surplus(m) == 0 <==> NoByteTwice(m)
    decreases |m|
  {
    if m == map[] {
      assert AllocatedBytes(m) == {};
    } else {
      var k := Pick(m);
      SurplusIff(m - {k});
      SurplusTake(m, k);
      SharesByte(m, k);
      TwiceTake(m, k);
    }
  }

  /** Summing lengths extent by extent counts each byte of a well-formed map once. */
  lemma LengthsCountBytes(m: ExtentTable)
    requires WellFormed(m)
    ensures TotalLength(m) == |AllocatedBytes(m)|
  {
    forall j, k, b ensures !CountedTwice(m, j, k, b) {
      if CountedTwice(m, j, k, b) {
        OneOwner(m, j, k, b);
      }
    }
    SurplusIff(m);
  }

  // ---------------------------------------------------------------- one edit

  datatype Tracked = Tracked(extents: ExtentTable, counter: int)

  const EMPTY := Tracked(map[], 0)

  datatype Edit = Insert(extent: Extent) | RemoveRange(start: nat, end: nat)

  /**
    Both edits subtract the length of every extent they take out and add the length of every extent they put in, also of
    those that do not stay because another one is put in at the same offset.
   */
  ghost function Apply(s: Tracked, edit: Edit): Tracked {
    match edit
    case Insert(e) =>
      Tracked(Inserted(s.extents, e),
              s.counter - TotalLength(Restrict(s.extents, Overlapping(s.extents, e.offset, e.End()))) + e.Weight())
    case RemoveRange(start, end) =>
      Tracked(Removed(s.extents, start, end),
              s.counter - TotalLength(Restrict(s.extents, Overlapping(s.extents, start, end)))
              + TotalLength(Heads(s.extents, start, end)) + TotalLength(CutTails(s.extents, start, end)))
  }

  /** The counter's error: what it reports minus what is there. */
  ghost function Drift(s: Tracked): int {
    s.counter - |AllocatedBytes(s.extents)|
  }

  /** The counter against the lengths in the table. */
  ghost function Gap(s: Tracked): int {
    s.counter - TotalLength(s.extents)
  }

  /** The length lost from the books when an empty extent replaces the extent that starts at the same offset. */
  ghost function Overwritten(m: ExtentTable, e: Extent): nat {
    if e.length == 0 && e.offset in m then m[e.offset].Weight() else 0
  }

  /** The same for a removal: the extent at `end` that a tail replaces, and all tails but the one put back last. */
  ghost function Buried(m: ExtentTable, start: nat, end: nat): nat {
    var past := PastKeys(m, start, end);
    if past == {} then 0
    else TotalLength(CutTails(m, start, end) - {Max(past)}) + if end in m then m[end].Weight() else 0
  }

  /** The length of the extents an edit replaces without subtracting it. */
  ghost function Replaced(m: ExtentTable, edit: Edit): nat {
    match edit
    case Insert(e) => Overwritten(m, e)
    case RemoveRange(start, end) => Buried(m, start, end)
  }

  lemma InsertGap(s: Tracked, e: Extent)
    requires Keyed(s.extents)
    ensures Gap(Apply(s, Insert(e))) == Gap(s) + Overwritten(s.extents, e)
  {
    var gone := Overlapping(s.extents, e.offset, e.End());
    TotalSplit(s.extents, gone);
    TotalPut(s.extents - gone, e.offset, e);
  }

  /** The lengths in the table once the overlapped extents are cut back to their heads. */
  lemma TotalCutBack(m: ExtentTable, start: nat, end: nat)
    ensures TotalLength((m - Overlapping(m, start, end)) + Heads(m, start, end))
            == TotalLength(m) - TotalLength(Restrict(m, Overlapping(m, start, end))) + TotalLength(Heads(m, start, end))
  {
    TotalSplit(m, Overlapping(m, start, end));
    TotalUnion(m - Overlapping(m, start, end), Heads(m, start, end));
  }

  /** And once the tails are put back, one over the other. */
  lemma TotalPutBack(m: ExtentTable, cut: ExtentTable, start: nat, end: nat)
    requires end in cut <==> end in m
    requires end in m ==> cut[end] == m[end]
    ensures TotalLength(cut + Tails(m, start, end))
            == TotalLength(cut) + TotalLength(CutTails(m, start, end)) - Buried(m, start, end)
  {
    var past, tails := PastKeys(m, start, end), CutTails(m, start, end);
    if past == {} {
      assert tails == map[];
      assert cut + Tails(m, start, end) == cut;
    } else {
      var last := Max(past);
      TotalTake(tails, last);
      TotalPut(cut, end, tails[last]);
      assert cut + Tails(m, start, end) == cut[end := tails[last]];
    }
  }

  lemma SumOfThree(a: ExtentTable, b: ExtentTable, c: ExtentTable)
    ensures a + (b + c) == (a + b) + c
  {
  }

  lemma EndIsKept(m: ExtentTable, start: nat, end: nat)
    requires Keyed(m)
    ensures var cut := (m - Overlapping(m, start, end)) + Heads(m, start, end);
            (end in cut <==> end in m) && (end in m ==> cut[end] == m[end])
  {
  }

  lemma TotalRemoved(m: ExtentTable, start: nat, end: nat)
    requires Keyed(m)
    ensures TotalLength(Removed(m, start, end))
            == TotalLength(m) - TotalLength(Restrict(m, Overlapping(m, start, end))) + TotalLength(Heads(m, start, end))
               + TotalLength(CutTails(m, start, end)) - Buried(m, start, end)
  {
    EndIsKept(m, start, end);
    TotalCutBack(m, start, end);
    TotalPutBack(m, (m - Overlapping(m, start, end)) + Heads(m, start, end), start, end);
    SumOfThree(m - Overlapping(m, start, end), Heads(m, start, end), Tails(m, start, end));
  }

  lemma RemoveGap(s: Tracked, start: nat, end: nat)
    requires Keyed(s.extents)
    ensures Gap(Apply(s, RemoveRange(start, end))) == Gap(s) + Buried(s.extents, start, end)
  {
    TotalRemoved(s.extents, start, end);
  }

  /** Every edit of every table moves the counter away from the lengths by exactly what it replaces. */
  lemma EditGap(s: Tracked, edit: Edit)
    requires Keyed(s.extents)
    ensures Keyed(Apply(s, edit).extents)
    ensures Gap(Apply(s, edit)) == Gap(s) + Replaced(s.extents, edit)
  {
    match edit
    case Insert(e) =>
      InsertGap(s, e);
      InsertedKeyed(s.extents, e);
    case RemoveRange(start, end) =>
      RemoveGap(s, start, end);
      RemovedKeyed(s.extents, start, end);
  }

  // ---------------------------------------------------------------- one edit of a well-formed map

  lemma DriftIsGap(s: Tracked)
    requires WellFormed(s.extents)
    ensures Drift(s) == Gap(s)
  {
    LengthsCountBytes(s.extents);
  }

  /** An insert is off by exactly the overwritten length: the counter stays exact if and only if that is 0. */
  lemma InsertDrift(s: Tracked, e: Extent)
    requires WellFormed(s.extents)
    ensures Drift(Apply(s, Insert(e))) == Drift(s) + Overwritten(s.extents, e)
  {
    InsertedWellFormed(s.extents, e);
    InsertGap(s, e);
    DriftIsGap(s);
    DriftIsGap(Apply(s, Insert(e)));
  }

  /** What a backwards range counts twice: the two pieces it leaves of a straddling extent overlap in [end, start). */
  ghost function Doubled(m: ExtentTable, start: nat, end: nat): nat {
    if exists k :: Doubles(m, start, end, k) then start - end else 0
  }

  ghost predicate Doubles(m: ExtentTable, start: nat, end: nat, k: nat) {
    start > end && k in m && !m[k].IsHole() && k < end && m[k].End() > start
  }

  lemma NothingBuried(m: ExtentTable, start: nat, end: nat)
    requires WellFormed(m)
    ensures Buried(m, start, end) == 0
  {
    if k :| ReachesPast(m, start, end, k) {
      TailOf(m, start, end, k);
      assert CutTails(m, start, end) - {k} == map[];
    }
  }

  /** A removal is off by exactly the doubled length: the counter stays exact if and only if that is 0. */
  lemma RemoveDrift(s: Tracked, start: nat, end: nat)
    requires WellFormed(s.extents)
    ensures Drift(Apply(s, RemoveRange(start, end))) == Drift(s) + Doubled(s.extents, start, end)
  {
    var n := Removed(s.extents, start, end);
    RemoveGap(s, start, end);
    NothingBuried(s.extents, start, end);
    DriftIsGap(s);
    RemovedWellFormed(s.extents, start, end);
    if k :| start > end && k in s.extents && k < end && s.extents[k].End() > start {
      BackwardSurplus(s.extents, start, end, k);
    } else {
      LengthsCountBytes(n);
    }
  }

  /** The table after a backwards range over extent `k`. */
  ghost predicate CutBackwards(m: ExtentTable, n: ExtentTable, start: nat, end: nat, k: nat) {
    && k in m && m[k].offset == k < end < start < m[k].End() && end !in m
    && n == m[k := m[k].Head(start)][end := m[k].Tail(end)]
  }

  lemma BackwardPieces(m: ExtentTable, start: nat, end: nat, k: nat)
    requires WellFormed(m) && start > end && k in m && k < end && m[k].End() > start
    ensures CutBackwards(m, Removed(m, start, end), start, end, k)
  {
    forall j | j in m && m[j].Overlaps(start, end) ensures j == k {
      assert Apart(m, j, k) && Apart(m, k, j);
    }
    TailOf(m, start, end, k);
    assert Overlapping(m, start, end) == {k};
    assert Heads(m, start, end) == map[k := m[k].Head(start)];
  }

  lemma CutKeepsByte(m: ExtentTable, n: ExtentTable, start: nat, end: nat, k: nat, j: nat, b: int)
    requires CutBackwards(m, n, start, end, k) && j in m && !m[j].IsHole() && b in BytesOf(m[j])
    ensures b in AllocatedBytes(n)
  {
    var i := if j != k then j else if b < start then k else end;
    assert i in n && !n[i].IsHole() && b in BytesOf(n[i]);
  }

  lemma CutAddsNoByte(m: ExtentTable, n: ExtentTable, start: nat, end: nat, k: nat, i: nat, b: int)
    requires CutBackwards(m, n, start, end, k) && i in n && !n[i].IsHole() && b in BytesOf(n[i])
    ensures b in AllocatedBytes(m)
  {
    var j := if i == end then k else i;
    assert j in m && !m[j].IsHole() && b in BytesOf(m[j]);
  }

  lemma BackwardBytes(m: ExtentTable, n: ExtentTable, start: nat, end: nat, k: nat)
    requires CutBackwards(m, n, start, end, k)
    ensures AllocatedBytes(n) == AllocatedBytes(m)
  {
    forall b | b in AllocatedBytes(m) ensures b in AllocatedBytes(n) {
      var j :| j in m && !m[j].IsHole() && b in BytesOf(m[j]);
      CutKeepsByte(m, n, start, end, k, j, b);
    }
    forall b | b in AllocatedBytes(n) ensures b in AllocatedBytes(m) {
      var i :| i in n && !n[i].IsHole() && b in BytesOf(n[i]);
      CutAddsNoByte(m, n, start, end, k, i, b);
    }
  }

  lemma BackwardSurplus(m: ExtentTable, start: nat, end: nat, k: nat)
    requires WellFormed(m) && start > end && k in m && k < end && m[k].End() > start
    ensures Surplus(Removed(m, start, end)) == Doubled(m, start, end)
  {
    BackwardPieces(m, start, end, k);
    BackwardBytes(m, Removed(m, start, end), start, end, k);
    LengthsCountBytes(m);
    TotalPut(m, k, m[k].Head(start));
    TotalPut(m[k := m[k].Head(start)], end, m[k].Tail(end));
    assert !m[k].IsHole() ==> Doubles(m, start, end, k);
    forall j | Doubles(m, start, end, j) ensures j == k {
      assert Apart(m, j, k) && Apart(m, k, j);
    }
  }

  // ---------------------------------------------------------------- runs

  predicate Forward(edit: Edit) {
    edit.RemoveRange? ==> edit.start <= edit.end
  }

  predicate Regular(edit: Edit) {
    Forward(edit) && (edit.Insert? ==> edit.extent.length > 0)
  }

  predicate InBounds(edit: Edit, size: nat) {
    edit.Insert? ==> edit.extent.End() <= size
  }

  lemma ApplyWellFormed(s: Tracked, edit: Edit)
    requires WellFormed(s.extents) && Forward(edit)
    ensures WellFormed(Apply(s, edit).extents)
    ensures Solid(s.extents) && Regular(edit) ==> Solid(Apply(s, edit).extents)
  {
    match edit
    case Insert(e) => InsertedWellFormed(s.extents, e);
    case RemoveRange(start, end) => RemovedWellFormed(s.extents, start, end);
  }

  ghost predicate Within(m: ExtentTable, size: nat) {
    forall k :: k in m ==> m[k].End() <= size
  }

  lemma ApplyWithin(s: Tracked, edit: Edit, size: nat)
    requires WellFormed(s.extents) && Within(s.extents, size) && InBounds(edit, size)
    ensures Within(Apply(s, edit).extents, size)
  {
    if edit.RemoveRange? {
      var n := Removed(s.extents, edit.start, edit.end);
      forall p | p in n ensures n[p].End() <= size {
        var _ := RemovedOwner(s.extents, edit.start, edit.end, p);
      }
    }
  }

  lemma BytesWithin(m: ExtentTable, size: nat)
    requires Within(m, size)
    ensures |AllocatedBytes(m)| <= size
  {
    SubsetSize(AllocatedBytes(m), Interval(0, size));
  }

  ghost function EditsFrom(s: Tracked, edits: seq<Edit>): Tracked {
    if edits == [] then s else Apply(EditsFrom(s, edits[..|edits| - 1]), edits[|edits| - 1])
  }

  ghost function Run(edits: seq<Edit>): Tracked {
    EditsFrom(EMPTY, edits)
  }

  /** The state before edit `i`. */
  ghost function StateAt(s: Tracked, edits: seq<Edit>, i: nat): Tracked
    requires i <= |edits|
  {
    EditsFrom(s, edits[..i])
  }

  lemma StateNext(s: Tracked, edits: seq<Edit>, i: nat)
    requires i < |edits|
    ensures StateAt(s, edits, i + 1) == Apply(StateAt(s, edits, i), edits[i])
  {
    assert edits[..i + 1][..i] == edits[..i];
  }

  lemma RunSnoc(edits: seq<Edit>, last: Edit)
    ensures Run(edits + [last]) == Apply(Run(edits), last)
  {
    assert (edits + [last])[..|edits|] == edits;
  }

  /** What each edit of the run replaces. */
  ghost function Losses(s: Tracked, edits: seq<Edit>): nat -> nat {
    (i: nat) => if i < |edits| then Replaced(StateAt(s, edits, i).extents, edits[i]) else 0
  }

  /** What the first `n` edits have replaced. */
  ghost function ReplacedIn(s: Tracked, edits: seq<Edit>, n: nat): nat {
    SumBelow(Losses(s, edits), n)
  }

  /**
    All through every run, with overlapping tables too, the counter is ahead of the lengths in the table by exactly what
    the edits have replaced, and of the bytes by what the table counts more than once on top of that.
   */
  lemma {:induction false} RunDrift(s: Tracked, edits: seq<Edit>, n: nat)
    requires Keyed(s.extents) && n <= |edits|
    ensures Keyed(StateAt(s, edits, n).extents)
    ensures Gap(StateAt(s, edits, n)) == Gap(s) + ReplacedIn(s, edits, n)
    ensures Drift(StateAt(s, edits, n)) == Gap(s) + ReplacedIn(s, edits, n) + Surplus(StateAt(s, edits, n).extents)
  {
    if n == 0 {
      assert edits[..0] == [];
    } else {
      RunDrift(s, edits, n - 1);
      StateNext(s, edits, n - 1);
      EditGap(StateAt(s, edits, n - 1), edits[n - 1]);
    }
  }

  /** Edit `i` of the run replaces an extent that still has bytes on the books. */
  ghost predicate ReplacesAt(s: Tracked, edits: seq<Edit>, i: nat) {
    i < |edits| && Losses(s, edits)(i) > 0
  }

  lemma ReplacedInIff(s: Tracked, edits: seq<Edit>)
    ensures ReplacedIn(s, edits, |edits|) > 0 <==> exists i: nat :: ReplacesAt(s, edits, i)
  {
    var losses := Losses(s, edits);
    SumBelowIff(losses, |edits|);
    if i: nat :| i < |edits| && losses(i) > 0 {
      assert ReplacesAt(s, edits, i);
    }
  }

  /**
    After any run at all the counter is not too low, and no subtraction has underflowed. It is the number of distinct
    bytes covered by extents that are not holes, if and only if no edit of the run replaced an extent that had bytes on
    the books and no byte of the final table lies in two extents that are not holes.
   */
  lemma RunExactIff(edits: seq<Edit>)
    ensures Run(edits).counter >= TotalLength(Run(edits).extents) >= |AllocatedBytes(Run(edits).extents)|
    ensures Run(edits).counter == |AllocatedBytes(Run(edits).extents)|
            <==> (!exists i: nat :: ReplacesAt(EMPTY, edits, i)) && NoByteTwice(Run(edits).extents)
  {
    assert edits[..|edits|] == edits;
    RunDrift(EMPTY, edits, |edits|);
    ReplacedInIff(EMPTY, edits);
    SurplusIff(Run(edits).extents);
  }

  /** The edit is a backwards range over an extent that straddles it. */
  ghost predicate Breaks(m: ExtentTable, edit: Edit) {
    edit.RemoveRange? && edit.start > edit.end && Straddled(m, edit.start, edit.end)
  }

  /** A single edit leaves a well-formed map well formed if and only if it is not of that kind. */
  lemma EditWellFormed(s: Tracked, edit: Edit)
    requires WellFormed(s.extents)
    ensures WellFormed(Apply(s, edit).extents) <==> !Breaks(s.extents, edit)
  {
    match edit
    case Insert(e) => InsertedWellFormed(s.extents, e);
    case RemoveRange(start, end) => RemovedWellFormed(s.extents, start, end);
  }

  ghost predicate SoundAt(s: Tracked, edits: seq<Edit>, i: nat) {
    i <= |edits| ==> WellFormed(StateAt(s, edits, i).extents)
  }

  ghost predicate BreaksAt(s: Tracked, edits: seq<Edit>, i: nat) {
    i < |edits| && Breaks(StateAt(s, edits, i).extents, edits[i])
  }

  lemma {:induction false} SoundUpTo(s: Tracked, edits: seq<Edit>, i: nat)
    requires WellFormed(s.extents) && i <= |edits| && forall j: nat :: j < i ==> !BreaksAt(s, edits, j)
    ensures SoundAt(s, edits, i)
  {
    if i == 0 {
      assert edits[..0] == [];
    } else {
      SoundUpTo(s, edits, i - 1);
      StateNext(s, edits, i - 1);
      assert !BreaksAt(s, edits, i - 1);
      EditWellFormed(StateAt(s, edits, i - 1), edits[i - 1]);
    }
  }

  /**
    Extents are apart all through a run if and only if none of its removals is a backwards one over an extent that
    straddles it.
   */
  lemma RunWellFormed(s: Tracked, edits: seq<Edit>)
    requires WellFormed(s.extents)
    ensures (forall i: nat :: SoundAt(s, edits, i)) <==> !exists i: nat :: BreaksAt(s, edits, i)
  {
    if i: nat :| BreaksAt(s, edits, i) {
      BrokenNext(s, edits, i);
    } else {
      forall i: nat ensures SoundAt(s, edits, i) {
        if i <= |edits| {
          SoundUpTo(s, edits, i);
        }
      }
    }
  }

  lemma BrokenNext(s: Tracked, edits: seq<Edit>, i: nat)
    requires BreaksAt(s, edits, i)
    ensures !SoundAt(s, edits, i) || !SoundAt(s, edits, i + 1)
  {
    StateNext(s, edits, i);
    if SoundAt(s, edits, i) {
      EditWellFormed(StateAt(s, edits, i), edits[i]);
    }
  }

  // ---------------------------------------------------------------- short runs

  lemma OneInsert(first: Extent)
    ensures Run([Insert(first)]).extents == map[first.offset := first] && WellFormed(Run([Insert(first)]).extents)
    ensures Run([Insert(first)]).counter == first.Weight() && Drift(Run([Insert(first)])) == 0
  {
    RunSnoc([], Insert(first));
    assert [] + [Insert(first)] == [Insert(first)];
    assert AllocatedBytes(EMPTY.extents) == {} && Restrict(EMPTY.extents, {}) == map[];
    InsertedWellFormed(EMPTY.extents, first);
    InsertDrift(EMPTY, first);
  }

  /** A single empty insert is enough to make the counter wrong, by all of the extent it replaces. */
  lemma EmptyInsertLoses(first: Extent, second: Extent)
    requires first.length > 0 && !first.IsHole() && second.offset == first.offset && second.length == 0
    ensures Drift(Run([Insert(first)])) == 0
    ensures Drift(Run([Insert(first)] + [Insert(second)])) == first.length
  {
    OneInsert(first);
    RunSnoc([Insert(first)], Insert(second));
    InsertDrift(Run([Insert(first)]), second);
  }

  /** So is a single backwards removal inside an extent, by the length of the range. */
  lemma BackwardsRemoveDoubles(first: Extent, start: nat, end: nat)
    requires !first.IsHole() && first.offset < end < start < first.End()
    ensures Drift(Run([Insert(first)] + [RemoveRange(start, end)])) == start - end
    ensures !WellFormed(Run([Insert(first)] + [RemoveRange(start, end)]).extents)
  {
    OneInsert(first);
    RunSnoc([Insert(first)], RemoveRange(start, end));
    RemoveDrift(Run([Insert(first)]), start, end);
    RemovedWellFormed(Run([Insert(first)]).extents, start, end);
    assert Doubles(Run([Insert(first)]).extents, start, end, first.offset);
  }

  lemma TakesBoth(first: Extent, n: ExtentTable, start: nat, end: nat)
    requires CutBackwards(map[first.offset := first], n, start, end, first.offset)
    ensures Inserted(n, first) == map[first.offset := first] && Overwritten(n, first) == 0
  {
    assert n.Keys == {first.offset, end};
    assert Overlapping(n, first.offset, first.End()) == {first.offset, end};
  }

  /** Inserting the extent once more takes out both pieces: the map is well formed again and the counter exact. */
  lemma InsertRepairs(first: Extent, start: nat, end: nat)
    requires !first.IsHole() && first.offset < end < start < first.End()
    ensures var s := Run([Insert(first)] + [RemoveRange(start, end)] + [Insert(first)]);
            WellFormed(s.extents) && s.extents == map[first.offset := first] && Drift(s) == 0
  {
    var one, two := Run([Insert(first)]), Run([Insert(first)] + [RemoveRange(start, end)]);
    OneInsert(first);
    RunSnoc([Insert(first)], RemoveRange(start, end));
    RunSnoc([Insert(first)] + [RemoveRange(start, end)], Insert(first));
    BackwardPieces(one.extents, start, end, first.offset);
    RemoveGap(one, start, end);
    NothingBuried(one.extents, start, end);
    InsertGap(two, first);
    TakesBoth(first, two.extents, start, end);
    DriftIsGap(one);
    DriftIsGap(Apply(two, Insert(first)));
  }

  // ---------------------------------------------------------------- runs of regular edits

  /**
    After every run of edits that insert no empty extent and remove no backwards range, extents are apart and not empty,
    and the counter is exact.
   */
  lemma {:induction false} RunExact(edits: seq<Edit>)
    requires forall e :: e in edits ==> Regular(e)
    ensures WellFormed(Run(edits).extents) && Solid(Run(edits).extents)
    ensures Run(edits).counter == |AllocatedBytes(Run(edits).extents)|
  {
    if edits == [] {
      assert AllocatedBytes(EMPTY.extents) == {};
    } else {
      var before, last := edits[..|edits| - 1], edits[|edits| - 1];
      assert Regular(last);
      RunExact(before);
      ApplyWellFormed(Run(before), last);
      match last
      case Insert(e) => InsertDrift(Run(before), e);
      case RemoveRange(start, end) => RemoveDrift(Run(before), start, end);
    }
  }

  /** If in addition every insert stays inside the volume, the counter never exceeds the volume's size. */
  lemma {:induction false} RunBounded(edits: seq<Edit>, size: nat)
    requires forall e :: e in edits ==> Regular(e) && InBounds(e, size)
    ensures Within(Run(edits).extents, size)
    ensures 0 <= Run(edits).counter <= size
  {
    if edits != [] {
      var before := edits[..|edits| - 1];
      RunBounded(before, size);
      RunExact(before);
      ApplyWithin(Run(before), edits[|edits| - 1], size);
    }
    RunExact(edits);
    BytesWithin(Run(edits).extents, size);
  }

  // ---------------------------------------------------------------- last writer wins

  /** A write that clears its range before inserting, or a discard. */
  datatype Update = Write(extent: Extent) | Discard(start: nat, end: nat)

  predicate Proper(u: Update) {
    if u.Write? then u.extent.length > 0 else u.start <= u.end
  }

  ghost function Updated(s: Tracked, u: Update): Tracked {
    match u
    case Write(e) => Apply(Apply(s, RemoveRange(e.offset, e.End())), Insert(e))
    case Discard(start, end) => Apply(s, RemoveRange(start, end))
  }

  ghost function RunUpdates(us: seq<Update>): Tracked {
    if us == [] then EMPTY else Updated(RunUpdates(us[..|us| - 1]), us[|us| - 1])
  }

  /** The reference: a byte holds what the latest update that covers it says. */
  function LastWrite(us: seq<Update>, b: nat): Option<Cell> {
    if us == [] then None
    else match us[|us| - 1]
      case Write(e) => if e.Contains(b) then Some(e.CellAt(b)) else LastWrite(us[..|us| - 1], b)
      case Discard(start, end) => if start <= b < end then None else LastWrite(us[..|us| - 1], b)
  }

  lemma UpdatedByte(s: Tracked, u: Update, b: nat)
    requires WellFormed(s.extents) && Proper(u)
    ensures WellFormed(Updated(s, u).extents)
    ensures At(Updated(s, u).extents, b)
            == match u
               case Write(e) => if e.Contains(b) then Some(e.CellAt(b)) else At(s.extents, b)
               case Discard(start, end) => if start <= b < end then None else At(s.extents, b)
  {
    match u
    case Write(e) =>
      var clear := RemoveRange(e.offset, e.End());
      ApplyWellFormed(s, clear);
      ApplyWellFormed(Apply(s, clear), Insert(e));
      OverlayByte(s.extents, e, b);
    case Discard(start, end) =>
      ApplyWellFormed(s, RemoveRange(start, end));
      RemovedBytes(s.extents, start, end, b);
  }

  /** Over every run of updates the extent map means, byte by byte, what the latest update says. */
  lemma {:induction false} LastWriterWins(us: seq<Update>, b: nat)
    requires forall u :: u in us ==> Proper(u)
    ensures WellFormed(RunUpdates(us).extents)
    ensures At(RunUpdates(us).extents, b) == LastWrite(us, b)
  {
    if us != [] {
      assert Proper(us[|us| - 1]);
      LastWriterWins(us[..|us| - 1], b);
      UpdatedByte(RunUpdates(us[..|us| - 1]), us[|us| - 1], b);
    }
  }
}
