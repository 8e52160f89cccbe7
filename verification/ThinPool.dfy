/**
  The thin pool's chunk allocator: the pool as one caller at a time sees it, and the same calls split into their atomic
  steps and interleaved in every order.
 */
module ThinPools {
  import opened Sets
  import opened Indexes
  import opened ThinVolumes

  /** An id is live or free, and not both, exactly when it has been handed out. */
  ghost predicate Known(live: set<nat>, freeList: seq<nat>, nextId: nat, id: nat) {
    && (id in live || id in freeList <==> 1 <= id < nextId)
    && !(id in live && id in freeList)
  }

  /** Live ids and recycled ids are apart, and together they are exactly the ids handed out so far. */
  ghost predicate Partitioned(live: set<nat>, freeList: seq<nat>, nextId: nat) {
    1 <= nextId && Distinct(freeList) && forall id :: Known(live, freeList, nextId, id)
  }

  lemma TakeFresh(live: set<nat>, freeList: seq<nat>, nextId: nat)
    requires Partitioned(live, freeList, nextId)
    ensures nextId !in live && Partitioned(live + {nextId}, freeList, nextId + 1)
  {
    assert Known(live, freeList, nextId, nextId);
    var live', next' := live + {nextId}, nextId + 1;
    forall x ensures Known(live', freeList, next', x) {
      assert Known(live, freeList, nextId, x);
    }
  }

  lemma TakeRecycled(live: set<nat>, freeList: seq<nat>, id: nat, nextId: nat)
    requires Partitioned(live, freeList + [id], nextId)
    ensures id !in live && Partitioned(live + {id}, freeList, nextId)
  {
    var list, live' := freeList + [id], live + {id};
    DistinctPush(freeList, id);
    assert id in list && Known(live, list, nextId, id);
    forall x ensures Known(live', freeList, nextId, x) {
      assert Known(live, list, nextId, x);
    }
  }

  /** Freeing keeps the books exactly when the freed id is live. */
  lemma GivePartitioned(live: set<nat>, freeList: seq<nat>, nextId: nat, id: nat)
    requires Partitioned(live, freeList, nextId)
    ensures Partitioned(live - {id}, freeList + [id], nextId) <==> id in live
  {
    var list, live' := freeList + [id], live - {id};
    DistinctPush(freeList, id);
    assert Known(live, freeList, nextId, id);
    if id in live {
      forall x ensures Known(live', list, nextId, x) {
        assert Known(live, freeList, nextId, x);
      }
    } else if id !in freeList {
      assert !Known(live', list, nextId, id);
    }
  }

  /** The id `allocate` returns: the one freed last, or else a fresh one. */
  function TakenId(freeList: seq<nat>, nextId: nat): nat {
    if freeList != [] then freeList[|freeList| - 1] else nextId
  }

  function AfterTake(freeList: seq<nat>): seq<nat> {
    if freeList != [] then freeList[..|freeList| - 1] else []
  }

  /** An id freed twice is handed out twice, one time right after the other. */
  lemma DoubleFreeHandsOutTwice(freeList: seq<nat>, nextId: nat, id: nat)
    ensures var list := freeList + [id] + [id];
            TakenId(list, nextId) == id && TakenId(AfterTake(list), nextId) == id
            && AfterTake(AfterTake(list)) == freeList
  {
    assert AfterTake(freeList + [id] + [id]) == freeList + [id];
    assert AfterTake(freeList + [id]) == freeList;
  }

  // ---------------------------------------------------------------- the quota in chunks

  /** How many chunks the quota has room for; no limit without a quota. */
  function Capacity(chunkSize: nat, maxSize: nat): Option<nat> {
    if maxSize == 0 || chunkSize == 0 then None else Some(maxSize / chunkSize)
  }

  predicate HasRoom(count: int, capacity: Option<nat>) {
    capacity.Some? ==> count < capacity.value
  }

  /** The source's test on bytes is the test on chunks. */
  lemma SpaceTest(count: nat, chunkSize: nat, maxSize: nat)
    ensures (maxSize > 0 ==> count * chunkSize + chunkSize <= maxSize) <==> HasRoom(count, Capacity(chunkSize, maxSize))
  {
    if maxSize > 0 && chunkSize > 0 {
      var q := maxSize / chunkSize;
      assert maxSize == q * chunkSize + maxSize % chunkSize;
      if count < q {
        assert (count + 1) * chunkSize <= q * chunkSize;
      } else {
        assert (q + 1) * chunkSize <= (count + 1) * chunkSize;
      }
      assert (count + 1) * chunkSize == count * chunkSize + chunkSize;
    }
  }

  /** A count within the capacity, up to some extra chunks, in bytes. */
  lemma CapacityInBytes(count: nat, extra: nat, chunkSize: nat, maxSize: nat)
    requires Capacity(chunkSize, maxSize).Some? ==> count <= Capacity(chunkSize, maxSize).value + extra
    requires maxSize > 0
    ensures count * chunkSize <= maxSize + extra * chunkSize
  {
  }

  const U64_MAX: nat := 0xFFFF_FFFF_FFFF_FFFF

  class ThinPool {
    const chunkSize: nat
    const maxSize: nat
    ghost const capacity: Option<nat>
    var allocatedChunks: nat
    var nextId: nat
    var freeList: seq<nat>
    /** The ids handed out and not freed. */
    ghost var live: set<nat>

    ghost predicate Valid()
      reads this
    {
      && Partitioned(live, freeList, nextId)
      && allocatedChunks == |live|
      && capacity == Capacity(chunkSize, maxSize)
      && (capacity.Some? ==> |live| <= capacity.value)
    }

    constructor (chunkSize: nat, maxSize: nat)
      ensures Valid() && live == {} && this.chunkSize == chunkSize && this.maxSize == maxSize
    {
      this.chunkSize, this.maxSize := chunkSize, maxSize;
      capacity := Capacity(chunkSize, maxSize);
      allocatedChunks, nextId, freeList := 0, 1, [];
      live := {};
    }

    method CheckSpace() returns (ok: bool)
      requires Valid()
      ensures ok <==> HasRoom(|live|, capacity)
    {
      SpaceTest(allocatedChunks, chunkSize, maxSize);
      ok := true;
      if maxSize > 0 {
        var newAllocated := allocatedChunks * chunkSize + chunkSize;
        if newAllocated > maxSize {
          ok := false;
        }
      }
    }

    /** A chunk nobody holds, most recently freed first, unless the quota would be exceeded. */
    method AllocateChunk() returns (r: Result<nat>)
      requires Valid()
      modifies this
      ensures Valid()
      ensures r.Ok? <==> old(HasRoom(|live|, capacity))
      ensures r.Err? ==> r == Err(OutOfSpace) && unchanged(this)
      ensures r.Ok? ==> r.value !in old(live) && live == old(live) + {r.value}
      ensures r.Ok? ==> r.value == TakenId(old(freeList), old(nextId)) && freeList == AfterTake(old(freeList))
    {
      var ok := CheckSpace();
      if !ok {
        return Err(OutOfSpace);
      }
      var id;
      if freeList != [] {
        id := freeList[|freeList| - 1];
        assert freeList[..|freeList| - 1] + [id] == freeList;
        TakeRecycled(live, freeList[..|freeList| - 1], id, nextId);
        freeList := freeList[..|freeList| - 1];
      } else {
        TakeFresh(live, freeList, nextId);
        id := nextId;
        nextId := nextId + 1;
      }
      live := live + {id};
      allocatedChunks := allocatedChunks + 1;
      r := Ok(id);
    }

    /** Any id is accepted; the pool stays in order exactly when it was live. The counter wraps below 0. */
    method FreeChunk(id: nat)
      requires Valid()
      modifies this
      ensures Valid() <==> id in old(live)
      ensures live == old(live) - {id} && freeList == old(freeList) + [id] && nextId == old(nextId)
      ensures allocatedChunks == if old(allocatedChunks) == 0 then U64_MAX else old(allocatedChunks) - 1
    {
      GivePartitioned(live, freeList, nextId, id);
      freeList := freeList + [id];
      live := live - {id};
      allocatedChunks := if allocatedChunks == 0 then U64_MAX else allocatedChunks - 1;
    }
  }

  // ---------------------------------------------------------------- interleaved calls

  /**
    Calls in flight: `checked` are past the space check, `missed` have found the free list empty, `holding` have taken an
    id that is not yet counted, `freed` have given an id back that is still counted. `live` are the ids whose allocation
    has been counted.
   */
  datatype Pool = Pool(count: int, nextId: nat, freeList: seq<nat>, live: set<nat>,
                       checked: set<nat>, missed: set<nat>, holding: map<nat, nat>, freed: set<nat>)
  {
    function Allocating(): nat { |checked| + |missed| + |holding| }

    predicate InFlight(c: nat) { c in checked || c in missed || c in holding || c in freed }
  }

  const START := Pool(0, 1, [], {}, {}, {}, map[], {})

  datatype Step =
    | Check(call: nat)         // the space test of allocate_chunk, which lets the call go on
    | Pop(call: nat)           // free_list.write().pop(), under a lock that is released at once
    | TakeNext(call: nat)      // next_id.fetch_add(1), after a pop that found nothing
    | Count(call: nat)         // allocated_chunks.fetch_add(1)
    | Free(call: nat, id: nat) // chunk_allocator.free()
    | Uncount(call: nat)       // allocated_chunks.fetch_sub(1)

  /** `k` bounds the allocate calls in flight. */
  predicate Enabled(p: Pool, step: Step, capacity: Option<nat>, k: nat) {
    match step
    case Check(c) =>
      !p.InFlight(c) && p.Allocating() < k && HasRoom(p.count, capacity)
    case Pop(c) => c in p.checked
    case TakeNext(c) => c in p.missed
    case Count(c) => c in p.holding
    case Free(c, id) => !p.InFlight(c) && id in p.live
    case Uncount(c) => c in p.freed
  }

  function Next(p: Pool, step: Step): Pool
    requires step.Count? ==> step.call in p.holding
  {
    match step
    case Check(c) => p.(checked := p.checked + {c})
    case Pop(c) =>
      if p.freeList != [] then
        p.(freeList := p.freeList[..|p.freeList| - 1], checked := p.checked - {c},
           holding := p.holding[c := p.freeList[|p.freeList| - 1]])
      else p.(checked := p.checked - {c}, missed := p.missed + {c})
    case TakeNext(c) => p.(nextId := p.nextId + 1, missed := p.missed - {c}, holding := p.holding[c := p.nextId])
    case Count(c) => p.(count := p.count + 1, live := p.live + {p.holding[c]}, holding := p.holding - {c})
    case Free(c, id) => p.(freeList := p.freeList + [id], live := p.live - {id}, freed := p.freed + {c})
    case Uncount(c) => p.(count := p.count - 1, freed := p.freed - {c})
  }

  /** The ids held by calls in flight. */
  ghost function Held(holding: map<nat, nat>): set<nat> {
    set c | c in holding :: holding[c]
  }

  ghost predicate SameHolder(holding: map<nat, nat>, c: nat, d: nat) {
    c in holding && d in holding && holding[c] == holding[d] ==> c == d
  }

  /** Every id handed out is free, live, or held by exactly one call. */
  ghost predicate Books(live: set<nat>, holding: map<nat, nat>, freeList: seq<nat>, nextId: nat) {
    && Partitioned(live + Held(holding), freeList, nextId)
    && live !! Held(holding)
    && (forall c, d :: SameHolder(holding, c, d))
  }

  /** The books are in order, and the counter is the live ids plus the frees still to be counted. */
  ghost predicate Consistent(p: Pool) {
    && (forall c :: c in p.checked ==> c !in p.missed && c !in p.holding)
    && (forall c :: c in p.missed ==> c !in p.holding)
    && Books(p.live, p.holding, p.freeList, p.nextId)
    && p.count == |p.live| + |p.freed|
  }

  /** Calls past the check are already paid for, up to one chunk for each other call in flight. */
  ghost predicate QuotaHolds(p: Pool, capacity: Option<nat>, k: nat) {
    && p.Allocating() <= k
    && (capacity.Some? && k > 0 ==> p.count + p.Allocating() <= capacity.value + k - 1)
  }

  lemma HoldBooks(live: set<nat>, holding: map<nat, nat>, c: nat, id: nat, freeList: seq<nat>, nextId: nat)
    requires live !! Held(holding) && forall d, e :: SameHolder(holding, d, e)
    requires c !in holding && id !in live + Held(holding)
    requires Partitioned(live + Held(holding) + {id}, freeList, nextId)
    ensures Books(live, holding[c := id], freeList, nextId)
  {
    AddValue(holding, c, id);
    AddHolder(holding, holding[c := id], c, id);
    assert live + Held(holding[c := id]) == live + Held(holding) + {id};
  }

  lemma FreshBooks(live: set<nat>, holding: map<nat, nat>, c: nat, freeList: seq<nat>, nextId: nat)
    requires Books(live, holding, freeList, nextId) && c !in holding
    ensures Books(live, holding[c := nextId], freeList, nextId + 1)
  {
    TakeFresh(live + Held(holding), freeList, nextId);
    HoldBooks(live, holding, c, nextId, freeList, nextId + 1);
  }

  lemma RecycledBooks(live: set<nat>, holding: map<nat, nat>, c: nat, freeList: seq<nat>, nextId: nat)
    requires Books(live, holding, freeList, nextId) && c !in holding && freeList != []
    ensures Books(live, holding[c := freeList[|freeList| - 1]], freeList[..|freeList| - 1], nextId)
  {
    var rest, id := freeList[..|freeList| - 1], freeList[|freeList| - 1];
    assert rest + [id] == freeList;
    TakeRecycled(live + Held(holding), rest, id, nextId);
    HoldBooks(live, holding, c, id, rest, nextId);
  }

  /** The call moves from checked to holding; whatever id it takes, as long as the books stay in order. */
  lemma HoldKeeps(p: Pool, q: Pool, c: nat, id: nat)
    requires Consistent(p) && c in p.checked
    requires q == p.(freeList := q.freeList, checked := p.checked - {c}, holding := p.holding[c := id])
    requires Books(q.live, q.holding, q.freeList, q.nextId)
    ensures Consistent(q) && q.Allocating() == p.Allocating()
  {
    assert |q.holding| == |p.holding| + 1;
  }

  /** The same for a call that found the free list empty. */
  lemma HoldNextKeeps(p: Pool, q: Pool, c: nat, id: nat, next: nat)
    requires Consistent(p) && c in p.missed
    requires q == p.(nextId := next, missed := p.missed - {c}, holding := p.holding[c := id])
    requires Books(p.live, p.holding[c := id], p.freeList, next)
    ensures Consistent(q) && q.Allocating() == p.Allocating()
  {
    assert |q.holding| == |p.holding| + 1;
  }

  lemma PopKeeps(p: Pool, c: nat)
    requires Consistent(p) && c in p.checked
    ensures Consistent(Next(p, Pop(c))) && Next(p, Pop(c)).Allocating() == p.Allocating()
  {
    if p.freeList != [] {
      RecycledBooks(p.live, p.holding, c, p.freeList, p.nextId);
      HoldKeeps(p, Next(p, Pop(c)), c, p.freeList[|p.freeList| - 1]);
    }
  }

  /** The fresh id is new also when ids have been freed since the pop. */
  lemma TakeNextKeeps(p: Pool, c: nat)
    requires Consistent(p) && c in p.missed
    ensures Consistent(Next(p, TakeNext(c))) && Next(p, TakeNext(c)).Allocating() == p.Allocating()
  {
    FreshBooks(p.live, p.holding, c, p.freeList, p.nextId);
    HoldNextKeeps(p, Next(p, TakeNext(c)), c, p.nextId, p.nextId + 1);
  }

  lemma AddHolder(m: map<nat, nat>, n: map<nat, nat>, c: nat, id: nat)
    requires id !in Held(m) && forall d, e :: SameHolder(m, d, e)
    requires n == m[c := id]
    ensures forall d, e :: SameHolder(n, d, e)
  {
    forall d, e ensures SameHolder(n, d, e) {
      assert SameHolder(m, d, e);
      assert d in m ==> m[d] in Held(m);
      assert e in m ==> m[e] in Held(m);
    }
  }

  lemma AddValue(m: map<nat, nat>, c: nat, id: nat)
    requires c !in m
    ensures Held(m[c := id]) == Held(m) + {id}
  {
    forall v | v in Held(m) + {id} ensures v in Held(m[c := id]) {
      if v == id {
        assert m[c := id][c] == id;
      } else {
        var d :| d in m && m[d] == v;
        assert m[c := id][d] == v;
      }
    }
  }

  lemma CountBooks(live: set<nat>, holding: map<nat, nat>, c: nat, freeList: seq<nat>, nextId: nat)
    requires Books(live, holding, freeList, nextId) && c in holding
    ensures holding[c] !in live && Books(live + {holding[c]}, holding - {c}, freeList, nextId)
  {
    var id, rest := holding[c], holding - {c};
    assert id in Held(holding);
    forall d | d in rest ensures rest[d] != id {
      assert SameHolder(holding, c, d);
    }
    assert rest[c := id] == holding;
    AddValue(rest, c, id);
    assert (live + {id}) + Held(rest) == live + Held(holding);
    forall d, e ensures SameHolder(rest, d, e) {
      assert SameHolder(holding, d, e);
    }
  }

  lemma CountKeeps(p: Pool, c: nat)
    requires Consistent(p) && c in p.holding
    ensures Consistent(Next(p, Count(c))) && Next(p, Count(c)).Allocating() == p.Allocating() - 1
  {
    CountBooks(p.live, p.holding, c, p.freeList, p.nextId);
    assert |p.holding - {c}| == |p.holding| - 1;
  }

  lemma FreeKeeps(p: Pool, c: nat, id: nat)
    requires Consistent(p) && c !in p.freed && id in p.live
    ensures Consistent(Next(p, Free(c, id)))
  {
    GiveBack(p.live, Held(p.holding), p.freeList, p.nextId, id);
  }

  lemma GiveBack(live: set<nat>, held: set<nat>, freeList: seq<nat>, nextId: nat, id: nat)
    requires Partitioned(live + held, freeList, nextId) && live !! held && id in live
    ensures Partitioned((live - {id}) + held, freeList + [id], nextId) && |live - {id}| == |live| - 1
  {
    GivePartitioned(live + held, freeList, nextId, id);
    assert (live - {id}) + held == live + held - {id};
  }

  lemma StepKeeps(p: Pool, step: Step, capacity: Option<nat>, k: nat)
    requires Consistent(p) && QuotaHolds(p, capacity, k) && Enabled(p, step, capacity, k)
    ensures Consistent(Next(p, step)) && QuotaHolds(Next(p, step), capacity, k)
  {
    match step
    case Check(c) =>
    case Pop(c) => PopKeeps(p, c);
    case TakeNext(c) => TakeNextKeeps(p, c);
    case Count(c) => CountKeeps(p, c);
    case Free(c, id) => FreeKeeps(p, c, id);
    case Uncount(c) =>
  }

  /** A run: each step is enabled in the state the steps before it lead to. */
  ghost predicate IsRun(p: Pool, steps: seq<Step>, capacity: Option<nat>, k: nat)
    decreases |steps|
  {
    steps == []
    || (Enabled(p, steps[0], capacity, k) && IsRun(Next(p, steps[0]), steps[1..], capacity, k))
  }

  ghost function Final(p: Pool, steps: seq<Step>, capacity: Option<nat>, k: nat): Pool
    requires IsRun(p, steps, capacity, k)
    decreases |steps|
  {
    if steps == [] then p else Final(Next(p, steps[0]), steps[1..], capacity, k)
  }

  lemma StartKeeps(capacity: Option<nat>, k: nat)
    requires k >= 1
    ensures Consistent(START) && QuotaHolds(START, capacity, k)
  {
  }

  lemma {:induction false} RunKeeps(p: Pool, steps: seq<Step>, capacity: Option<nat>, k: nat)
    requires Consistent(p) && QuotaHolds(p, capacity, k) && IsRun(p, steps, capacity, k)
    ensures var q := Final(p, steps, capacity, k);
            Consistent(q) && QuotaHolds(q, capacity, k)
    decreases |steps|
  {
    if steps != [] {
      StepKeeps(p, steps[0], capacity, k);
      RunKeeps(Next(p, steps[0]), steps[1..], capacity, k);
    }
  }

  /** In every interleaving no id is handed out twice, and the counter stays between 0 and its bound in chunks. */
  lemma RunsFromStart(steps: seq<Step>, capacity: Option<nat>, k: nat)
    requires k >= 1 && IsRun(START, steps, capacity, k)
    ensures var q := Final(START, steps, capacity, k);
            && Consistent(q) && q.count >= 0
            && (capacity.Some? ==> q.count <= capacity.value + (k - 1))
  {
    StartKeeps(capacity, k);
    RunKeeps(START, steps, capacity, k);
  }

  ghost function FinalCount(steps: seq<Step>, capacity: Option<nat>, k: nat): int
    requires IsRun(START, steps, capacity, k)
  {
    Final(START, steps, capacity, k).count
  }

  /**
    In every interleaving with at most `k` allocations in flight, allocated bytes stay within the quota plus `k - 1`
    chunks; so one allocation at a time never exceeds the quota.
   */
  lemma QuotaOverRuns(steps: seq<Step>, capacity: Option<nat>, chunkSize: nat, maxSize: nat, k: nat)
    requires capacity == Capacity(chunkSize, maxSize) && maxSize > 0
    requires k >= 1 && IsRun(START, steps, capacity, k)
    ensures FinalCount(steps, capacity, k) * chunkSize <= maxSize + (k - 1) * chunkSize
  {
    RunsFromStart(steps, capacity, k);
    CapacityInBytes(FinalCount(steps, capacity, k), k - 1, chunkSize, maxSize);
  }

  // ---------------------------------------------------------------- the bound is attained

  /** Nothing is free and the first `j` calls are past the space check. */
  ghost predicate AllChecked(p: Pool, j: nat) {
    && p.freeList == [] && p.missed == {} && p.holding == map[] && p.freed == {} && |p.checked| == j
    && (forall c: nat :: c in p.checked <==> c < j)
  }

  lemma RunStep(p: Pool, step: Step, rest: seq<Step>, capacity: Option<nat>, k: nat)
    requires Enabled(p, step, capacity, k) && IsRun(Next(p, step), rest, capacity, k)
    ensures IsRun(p, [step] + rest, capacity, k)
    ensures Final(p, [step] + rest, capacity, k) == Final(Next(p, step), rest, capacity, k)
  {
    assert ([step] + rest)[1..] == rest;
  }

  /** The pool after a checked call has taken a fresh id and been counted. */
  function Allocated(p: Pool, c: nat): Pool {
    p.(count := p.count + 1, nextId := p.nextId + 1, live := p.live + {p.nextId}, checked := p.checked - {c})
  }

  lemma FinishOne(p: Pool, c: nat, rest: seq<Step>, capacity: Option<nat>, k: nat) returns (steps: seq<Step>)
    requires c in p.checked && p.freeList == [] && p.missed == {} && p.holding == map[]
    requires IsRun(Allocated(p, c), rest, capacity, k)
    ensures IsRun(p, steps, capacity, k) && Final(p, steps, capacity, k) == Final(Allocated(p, c), rest, capacity, k)
  {
    var q1 := Next(p, Pop(c));
    var q2 := Next(q1, TakeNext(c));
    assert q1.missed == {c} && q2.holding == map[c := p.nextId];
    assert Next(q2, Count(c)) == Allocated(p, c);
    RunStep(q2, Count(c), rest, capacity, k);
    RunStep(q1, TakeNext(c), [Count(c)] + rest, capacity, k);
    RunStep(p, Pop(c), [TakeNext(c)] + ([Count(c)] + rest), capacity, k);
    steps := [Pop(c)] + ([TakeNext(c)] + ([Count(c)] + rest));
  }

  lemma OneLessChecked(p: Pool, j: nat)
    requires AllChecked(p, j) && j > 0
    ensures AllChecked(Allocated(p, j - 1), j - 1)
  {
  }

  lemma {:induction false} CountAll(p: Pool, j: nat, capacity: Option<nat>, k: nat) returns (steps: seq<Step>)
    requires AllChecked(p, j)
    ensures IsRun(p, steps, capacity, k) && Final(p, steps, capacity, k).count == p.count + j
    decreases j
  {
    if j == 0 {
      return [];
    }
    OneLessChecked(p, j);
    var rest := CountAll(Allocated(p, j - 1), j - 1, capacity, k);
    steps := FinishOne(p, j - 1, rest, capacity, k);
  }

  lemma OneMoreChecked(p: Pool, j: nat)
    requires AllChecked(p, j)
    ensures AllChecked(Next(p, Check(j)), j + 1)
  {
  }

  /** With room for one more chunk, `k` calls pass the check before the first of them is counted. */
  lemma {:induction false} Crowd(p: Pool, j: nat, capacity: Option<nat>, k: nat) returns (steps: seq<Step>)
    requires AllChecked(p, j) && HasRoom(p.count, capacity) && j <= k
    ensures IsRun(p, steps, capacity, k) && Final(p, steps, capacity, k).count == p.count + k
    decreases k - j
  {
    if j == k {
      steps := CountAll(p, j, capacity, k);
    } else {
      OneMoreChecked(p, j);
      var rest := Crowd(Next(p, Check(j)), j + 1, capacity, k);
      RunStep(p, Check(j), rest, capacity, k);
      steps := [Check(j)] + rest;
    }
  }

  /** Calls one at a time until there is room for one more chunk, and then the crowd. */
  lemma {:induction false} FillThenCrowd(p: Pool, room: nat, capacity: nat, k: nat) returns (steps: seq<Step>)
    requires AllChecked(p, 0) && p.count + room + 1 == capacity && k >= 1
    ensures IsRun(p, steps, Some(capacity), k) && Final(p, steps, Some(capacity), k).count == capacity - 1 + k
    decreases room
  {
    if room == 0 {
      steps := Crowd(p, 0, Some(capacity), k);
    } else {
      var q := Next(p, Check(0));
      OneMoreChecked(p, 0);
      OneLessChecked(q, 1);
      var rest := FillThenCrowd(Allocated(q, 0), room - 1, capacity, k);
      var more := FinishOne(q, 0, rest, Some(capacity), k);
      RunStep(p, Check(0), more, Some(capacity), k);
      steps := [Check(0)] + more;
    }
  }

  /** For every quota with room for a chunk and every `k`, some interleaving reaches the bound. */
  lemma QuotaAttained(chunkSize: nat, maxSize: nat, k: nat) returns (steps: seq<Step>)
    requires 0 < chunkSize <= maxSize && k >= 1
    ensures IsRun(START, steps, Capacity(chunkSize, maxSize), k)
    ensures FinalCount(steps, Capacity(chunkSize, maxSize), k) == Capacity(chunkSize, maxSize).value + (k - 1)
  {
    var capacity := maxSize / chunkSize;
    assert capacity >= 1;
    assert AllChecked(START, 0);
    steps := FillThenCrowd(START, capacity - 1, capacity, k);
  }
}
