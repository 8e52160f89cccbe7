/** Chunk replication: one repair plan, the queue it fills, and what draining the queue does to the chunks' holders. */
module Replication {
  import opened Sets
  import opened Indexes

  type Peer = nat
  type Chunk = nat

  datatype Request = Request(chunk: Chunk, target: Peer)

  datatype PeerInfo = PeerInfo(healthy: bool, lastSeen: int)

  /** The peers marked healthy and seen within three timeouts; `now(p)` is the clock when peer `p` is looked at. */
  ghost function HealthySet(peers: map<Peer, PeerInfo>, now: Peer -> int, peerTimeout: nat): set<Peer> {
    set p | p in peers && peers[p].healthy && !(now(p) - peers[p].lastSeen > 3 * peerTimeout)
  }

  /** The targets a queue holds for one chunk. */
  ghost function Targets(queue: seq<Request>, c: Chunk): set<Peer> {
    set r | r in queue && r.chunk == c :: r.target
  }

  function Holders(locations: map<Chunk, set<Peer>>, c: Chunk): set<Peer> {
    if c in locations then locations[c] else {}
  }

  function Min(a: int, b: int): int {
    if a < b then a else b
  }

  function Forgotten(locations: map<Chunk, set<Peer>>, p: Peer): map<Chunk, set<Peer>> {
    map c | c in locations :: locations[c] - {p}
  }

  /** The other peers hold what they held, of the same tracked chunks. */
  lemma ForgottenHolders(locations: map<Chunk, set<Peer>>, p: Peer, c: Chunk, q: Peer)
    ensures Forgotten(locations, p).Keys == locations.Keys
    ensures q in Holders(Forgotten(locations, p), c) <==> q != p && q in Holders(locations, c)
  {
  }

  // ---------------------------------------------------------------- delivering requests

  /** A request succeeds when the chunk is in local storage and its target is still a peer. */
  predicate Deliverable(r: Request, storage: set<Chunk>, peers: set<Peer>) {
    r.chunk in storage && r.target in peers
  }

  function Recorded(locations: map<Chunk, set<Peer>>, r: Request): map<Chunk, set<Peer>> {
    locations[r.chunk := Holders(locations, r.chunk) + {r.target}]
  }

  function Delivered(locations: map<Chunk, set<Peer>>, queue: seq<Request>, storage: set<Chunk>, peers: set<Peer>)
    : map<Chunk, set<Peer>>
  {
    if queue == [] then locations else
      var before := Delivered(locations, queue[..|queue| - 1], storage, peers);
      if Deliverable(queue[|queue| - 1], storage, peers) then Recorded(before, queue[|queue| - 1]) else before
  }

  lemma TargetsSnoc(queue: seq<Request>, r: Request, c: Chunk)
    ensures Targets(queue + [r], c) == Targets(queue, c) + if r.chunk == c then {r.target} else {}
  {
  }

  /** A chunk gains exactly the targets that are still peers, and only if it is stored locally. */
  lemma {:induction false} DeliveredHolders(locations: map<Chunk, set<Peer>>, queue: seq<Request>, storage: set<Chunk>,
                                            peers: set<Peer>, c: Chunk)
    ensures Holders(Delivered(locations, queue, storage, peers), c)
            == Holders(locations, c) + if c in storage then Targets(queue, c) * peers else {}
  {
    if queue != [] {
      var front, r := queue[..|queue| - 1], queue[|queue| - 1];
      assert queue == front + [r];
      DeliveredHolders(locations, front, storage, peers, c);
      TargetsSnoc(front, r, c);
    }
  }

  /** A peer that was removed is not recorded again by requests still queued for it. */
  lemma RemovedPeerStaysOut(locations: map<Chunk, set<Peer>>, queue: seq<Request>, storage: set<Chunk>, peers: set<Peer>,
                            p: Peer, c: Chunk)
    ensures p !in Holders(Delivered(Forgotten(locations, p), queue, storage, peers - {p}), c)
  {
  }

  lemma {:induction false} DeliveredSplit(locations: map<Chunk, set<Peer>>, a: seq<Request>, b: seq<Request>,
                                          storage: set<Chunk>, peers: set<Peer>)
    ensures Delivered(Delivered(locations, a, storage, peers), b, storage, peers)
            == Delivered(locations, a + b, storage, peers)
  {
    if b == [] {
      assert a + b == a;
    } else {
      var front := b[..|b| - 1];
      assert (a + b)[..|a + b| - 1] == a + front;
      DeliveredSplit(locations, a, front, storage, peers);
    }
  }

  // ---------------------------------------------------------------- the repair plan

  /** How many copies a repair adds: what is missing, as far as there are healthy peers without the chunk. */
  ghost function Shortfall(holders: set<Peer>, healthy: set<Peer>, factor: nat): nat {
    if |holders| < factor then Min(factor - |holders|, |healthy - holders|) else 0
  }

  /** The queue holds, for every chunk in `done`, the right number of healthy peers that lack it; nothing else. */
  ghost predicate Plan(queue: seq<Request>, locations: map<Chunk, set<Peer>>, done: set<Chunk>, healthy: set<Peer>, factor: nat) {
    && (forall i :: 0 <= i < |queue| ==> queue[i].chunk in done)
    && (forall c {:trigger PlannedFor(queue, Holders(locations, c), c, healthy, factor)} ::
          c in done ==> PlannedFor(queue, Holders(locations, c), c, healthy, factor))
  }

  ghost predicate PlannedFor(queue: seq<Request>, holders: set<Peer>, c: Chunk, healthy: set<Peer>, factor: nat) {
    && Targets(queue, c) <= healthy - holders
    && |Targets(queue, c)| == Shortfall(holders, healthy, factor)
  }

  lemma TargetsOther(queue: seq<Request>, more: seq<Request>, c: Chunk)
    requires forall i :: 0 <= i < |more| ==> more[i].chunk != c
    ensures Targets(queue + more, c) == Targets(queue, c)
  {
  }

  lemma TargetsOnly(queue: seq<Request>, more: seq<Request>, c: Chunk)
    requires forall i :: 0 <= i < |queue| ==> queue[i].chunk != c
    ensures Targets(queue + more, c) == Targets(more, c)
  {
  }

  /**
    What repair and delivery do to the holders of one chunk. If it is stored locally and had too few holders, it ends
    with the smaller of the factor and all the holders it could have; otherwise nothing changes. No holder is lost, only
    healthy peers are added, and a stored chunk has nothing left to repair.
   */
  ghost predicate Repaired(before: set<Peer>, after: set<Peer>, stored: bool, healthy: set<Peer>, factor: nat) {
    && (stored && |before| < factor ==> |after| == Min(factor, |before| + |healthy - before|))
    && (!stored || |before| >= factor ==> after == before)
    && before <= after <= before + healthy
    && (stored ==> Shortfall(after, healthy, factor) == 0)
  }

  /** After a planned repair is delivered, a chunk held locally has the smaller of the factor and all it could reach. */
  lemma RepairReaches(queue: seq<Request>, locations: map<Chunk, set<Peer>>, healthy: set<Peer>, factor: nat,
                      storage: set<Chunk>, peers: set<Peer>, c: Chunk)
    requires Plan(queue, locations, locations.Keys, healthy, factor) && healthy <= peers && c in locations
    ensures Repaired(locations[c], Holders(Delivered(locations, queue, storage, peers), c), c in storage, healthy, factor)
  {
    DeliveredHolders(locations, queue, storage, peers, c);
    assert PlannedFor(queue, locations[c], c, healthy, factor);
    assert Targets(queue, c) * peers == Targets(queue, c);
    if c in storage {
      AddTargets(locations[c], Targets(queue, c), healthy, factor);
    }
  }

  lemma AddTargets(holders: set<Peer>, added: set<Peer>, healthy: set<Peer>, factor: nat)
    requires added <= healthy - holders && |added| == Shortfall(holders, healthy, factor)
    ensures Repaired(holders, holders + added, true, healthy, factor)
  {
    assert |holders + added| == |holders| + |added|;
    if |holders| >= factor {
      assert added == {};
    } else if |holders + added| < factor {
      SameSizeSubset(added, healthy - holders);
      assert healthy - (holders + added) == {};
    }
  }

  function RequestsFor(c: Chunk, ps: seq<Peer>): (rs: seq<Request>)
    ensures |rs| == |ps| && forall i :: 0 <= i < |ps| ==> rs[i] == Request(c, ps[i])
  {
    if ps == [] then [] else RequestsFor(c, ps[..|ps| - 1]) + [Request(c, ps[|ps| - 1])]
  }

  lemma {:induction false} DistinctSize(ps: seq<Peer>)
    requires Distinct(ps)
    ensures |Members(ps)| == |ps|
  {
    if ps != [] {
      var front, last := ps[..|ps| - 1], ps[|ps| - 1];
      DistinctSize(front);
      assert ps == front + [last];
      assert Members(ps) == Members(front) + {last};
    }
  }

  lemma TargetsOfRequests(c: Chunk, ps: seq<Peer>)
    ensures Targets(RequestsFor(c, ps), c) == Members(ps)
  {
  }

  /** Planning one more chunk leaves the plan for the others alone. */
  lemma PlanStep(queue: seq<Request>, locations: map<Chunk, set<Peer>>, done: set<Chunk>, healthy: set<Peer>, factor: nat,
                 c: Chunk, ps: seq<Peer>)
    requires Plan(queue, locations, done, healthy, factor) && c !in done && Distinct(ps)
    requires Members(ps) <= healthy - Holders(locations, c) && |ps| == Shortfall(Holders(locations, c), healthy, factor)
    ensures Plan(queue + RequestsFor(c, ps), locations, done + {c}, healthy, factor)
  {
    var more := RequestsFor(c, ps);
    forall d | d in done + {c} ensures PlannedFor(queue + more, Holders(locations, d), d, healthy, factor) {
      if d == c {
        TargetsOnly(queue, more, c);
        TargetsOfRequests(c, ps);
        DistinctSize(ps);
      } else {
        assert PlannedFor(queue, Holders(locations, d), d, healthy, factor);
        TargetsOther(queue, more, d);
      }
    }
  }

  lemma PlanNothing(locations: map<Chunk, set<Peer>>, done: set<Chunk>, healthy: set<Peer>, factor: nat)
    requires done <= locations.Keys && (healthy == {} || forall c :: c in done ==> |locations[c]| >= factor)
    ensures Plan([], locations, done, healthy, factor)
  {
  }

  /** A plan is empty exactly when no chunk needs or can get another copy. */
  lemma PlanEmptyIff(queue: seq<Request>, locations: map<Chunk, set<Peer>>, healthy: set<Peer>, factor: nat)
    requires Plan(queue, locations, locations.Keys, healthy, factor)
    ensures queue == [] <==> forall c :: c in locations ==> Shortfall(locations[c], healthy, factor) == 0
  {
    if queue == [] {
      forall c | c in locations ensures Shortfall(locations[c], healthy, factor) == 0 {
        assert PlannedFor(queue, Holders(locations, c), c, healthy, factor);
        assert Targets(queue, c) == {};
      }
    } else {
      var c := queue[0].chunk;
      assert queue[0] in queue;
      assert queue[0].target in Targets(queue, c);
      assert PlannedFor(queue, Holders(locations, c), c, healthy, factor);
    }
  }

  ghost function Replicated(locations: map<Chunk, set<Peer>>, factor: nat): set<Chunk> {
    set c | c in locations && |locations[c]| >= factor
  }

  ghost function Firsts(cs: seq<(Chunk, nat)>): set<Chunk> {
    set i | 0 <= i < |cs| :: cs[i].0
  }

  /** The chunks with too few holders, each once and with its count. */
  ghost predicate ListsUnder(cs: seq<(Chunk, nat)>, locations: map<Chunk, set<Peer>>, factor: nat) {
    && (forall i :: 0 <= i < |cs| ==> cs[i].0 in locations && cs[i].1 == |locations[cs[i].0]| < factor)
    && (forall c :: c in locations && |locations[c]| < factor ==> c in Firsts(cs))
    && (forall i, j :: Differ(cs, i, j))
  }

  ghost predicate Differ(cs: seq<(Chunk, nat)>, i: int, j: int) {
    0 <= i < j < |cs| ==> cs[i].0 != cs[j].0
  }

  lemma FirstsSnoc(cs: seq<(Chunk, nat)>, x: (Chunk, nat))
    ensures Firsts(cs + [x]) == Firsts(cs) + {x.0}
  {
    forall c | c in Firsts(cs) ensures c in Firsts(cs + [x]) {
      var j :| 0 <= j < |cs| && cs[j].0 == c;
      assert (cs + [x])[j].0 == c;
    }
    assert (cs + [x])[|cs|].0 == x.0;
  }

  lemma FirstsStep(cs: seq<(Chunk, nat)>, i: nat)
    requires i < |cs| && forall j, k :: Differ(cs, j, k)
    ensures Firsts(cs[..i + 1]) == Firsts(cs[..i]) + {cs[i].0} && cs[i].0 !in Firsts(cs[..i])
  {
    assert cs[..i + 1] == cs[..i] + [cs[i]];
    FirstsSnoc(cs[..i], cs[i]);
    forall j | 0 <= j < i ensures cs[j].0 != cs[i].0 {
      assert Differ(cs, j, i);
    }
  }

  lemma NextUnder(cs: seq<(Chunk, nat)>, locations: map<Chunk, set<Peer>>, factor: nat, i: nat)
    requires ListsUnder(cs, locations, factor) && i < |cs|
    ensures cs[i].0 in locations && cs[i].1 == |locations[cs[i].0]| < factor
    ensures cs[i].0 !in Replicated(locations, factor) + Firsts(cs[..i])
    ensures Firsts(cs[..i + 1]) == Firsts(cs[..i]) + {cs[i].0}
  {
    FirstsStep(cs, i);
  }

  lemma AllUnder(cs: seq<(Chunk, nat)>, locations: map<Chunk, set<Peer>>, factor: nat)
    requires ListsUnder(cs, locations, factor)
    ensures Replicated(locations, factor) + Firsts(cs) == locations.Keys
  {
  }

  function CountDeliverable(queue: seq<Request>, storage: set<Chunk>, peers: set<Peer>): nat {
    if queue == [] then 0 else
      CountDeliverable(queue[..|queue| - 1], storage, peers)
      + if Deliverable(queue[|queue| - 1], storage, peers) then 1 else 0
  }

  /** The places in the queue that hold a deliverable request. */
  function DeliverablePlaces(queue: seq<Request>, storage: set<Chunk>, peers: set<Peer>): set<nat> {
    set i | 0 <= i < |queue| && Deliverable(queue[i], storage, peers)
  }

  lemma {:induction false} CountsPlaces(queue: seq<Request>, storage: set<Chunk>, peers: set<Peer>)
    ensures CountDeliverable(queue, storage, peers) == |DeliverablePlaces(queue, storage, peers)|
  {
    if queue == [] {
      assert DeliverablePlaces(queue, storage, peers) == {};
    } else {
      var n := |queue| - 1;
      CountsPlaces(queue[..n], storage, peers);
      assert DeliverablePlaces(queue, storage, peers)
          == DeliverablePlaces(queue[..n], storage, peers) + if Deliverable(queue[n], storage, peers) then {n} else {};
    }
  }

  lemma {:induction false} DeliveredKeys(locations: map<Chunk, set<Peer>>, queue: seq<Request>, storage: set<Chunk>, peers: set<Peer>)
    requires forall i :: 0 <= i < |queue| ==> queue[i].chunk in locations
    ensures Delivered(locations, queue, storage, peers).Keys == locations.Keys
  {
    if queue != [] {
      DeliveredKeys(locations, queue[..|queue| - 1], storage, peers);
    }
  }

  class ReplicationManager {
    const factor: nat
    const maxConcurrent: nat
    const peerTimeout: nat
    /** The chunks the local store can deliver. */
    const storage: set<Chunk>
    var peers: map<Peer, PeerInfo>
    var locations: map<Chunk, set<Peer>>
    var pending: seq<Request>

    constructor (factor: nat, maxConcurrent: nat, peerTimeout: nat, storage: set<Chunk>)
      ensures peers == map[] && locations == map[] && pending == []
      ensures this.factor == factor && this.maxConcurrent == maxConcurrent && this.peerTimeout == peerTimeout
      ensures this.storage == storage
    {
      this.factor, this.maxConcurrent, this.peerTimeout := factor, maxConcurrent, peerTimeout;
      this.storage := storage;
      peers, locations, pending := map[], map[], [];
    }

    /** A peer is a target for repairs from now on until three timeouts have passed; for other peers nothing changes. */
    method AddPeer(p: Peer, now: int)
      modifies this`peers
      ensures peers == old(peers)[p := PeerInfo(true, now)]
      ensures forall at: Peer -> int ::
                p in HealthySet(peers, at, peerTimeout) <==> at(p) <= now + 3 * peerTimeout
      ensures forall at: Peer -> int ::
                HealthySet(peers, at, peerTimeout) - {p} == HealthySet(old(peers), at, peerTimeout) - {p}
    {
      peers := peers[p := PeerInfo(true, now)];
    }

    /** The peer is forgotten and no chunk lists it any more; queued requests for it stay queued. */
    method RemovePeer(p: Peer)
      modifies this`peers, this`locations
      ensures peers == old(peers) - {p}
      ensures locations == Forgotten(old(locations), p)
    {
      peers := peers - {p};
      var rest := locations.Keys;
      ghost var before := locations;
      while rest != {}
        invariant peers == old(peers) - {p}
        invariant rest <= before.Keys && locations.Keys == before.Keys
        invariant forall c :: c in before ==> locations[c] == if c in rest then before[c] else before[c] - {p}
        decreases rest
      {
        var c :| c in rest;
        locations := locations[c := locations[c] - {p}];
        rest := rest - {c};
      }
      assert locations == Forgotten(before, p);
    }

    method RecordChunkLocation(c: Chunk, p: Peer)
      modifies this`locations
      ensures locations == Recorded(old(locations), Request(c, p))
    {
      locations := locations[c := Holders(locations, c) + {p}];
    }

    /** The healthy peers in the unspecified order in which the peer table is visited. */
    method HealthyPeers(now: Peer -> int) returns (ps: seq<Peer>)
      ensures forall p :: p in ps <==> p in HealthySet(peers, now, peerTimeout)
      ensures Distinct(ps)
    {
      ps := [];
      var rest := peers.Keys;
      while rest != {}
        invariant rest <= peers.Keys
        invariant forall p :: p in ps <==> p in HealthySet(peers, now, peerTimeout) && p !in rest
        invariant Distinct(ps)
        decreases rest
      {
        var p :| p in rest;
        if peers[p].healthy && !(now(p) - peers[p].lastSeen > 3 * peerTimeout) {
          ps := ps + [p];
        }
        rest := rest - {p};
      }
    }

    /** The tracked chunks with too few holders, and how many they have, in unspecified order. */
    method UnderReplicatedChunks() returns (cs: seq<(Chunk, nat)>)
      ensures ListsUnder(cs, locations, factor)
    {
      cs := [];
      var rest := locations.Keys;
      while rest != {}
        invariant rest <= locations.Keys
        invariant forall i :: 0 <= i < |cs| ==> cs[i].0 in locations && cs[i].0 !in rest && cs[i].1 == |locations[cs[i].0]| < factor
        invariant forall c :: c in locations && c !in rest && |locations[c]| < factor ==> c in Firsts(cs)
        invariant forall i, j :: Differ(cs, i, j)
        decreases rest
      {
        var c :| c in rest;
        var count := |locations[c]|;
        if count < factor {
          FirstsSnoc(cs, (c, count));
          ghost var before := cs;
          cs := cs + [(c, count)];
          forall i, j ensures Differ(cs, i, j) {
            assert Differ(before, i, j);
          }
        }
        rest := rest - {c};
      }
    }

    /** The first `needed` of the healthy peers that do not hold the chunk yet. */
    method ChooseTargets(ps: seq<Peer>, existing: set<Peer>, needed: nat) returns (chosen: seq<Peer>)
      requires Distinct(ps)
      ensures Distinct(chosen) && Members(chosen) <= Members(ps) - existing
      ensures |chosen| == Min(needed, |Members(ps) - existing|)
    {
      chosen := [];
      for i := 0 to |ps|
        invariant Distinct(chosen) && |chosen| <= needed
        invariant forall p :: p in chosen ==> p in ps[..i] && p !in existing
        invariant |chosen| < needed ==> forall p :: p in ps[..i] && p !in existing ==> p in chosen
      {
        assert ps[..i + 1] == ps[..i] + [ps[i]];
        assert ps[i] !in ps[..i];
        if ps[i] !in existing && |chosen| < needed {
          chosen := chosen + [ps[i]];
        }
      }
      assert ps[..|ps|] == ps;
      DistinctSize(chosen);
      SubsetSize(Members(chosen), Members(ps) - existing);
      if |chosen| < needed {
        assert Members(chosen) == Members(ps) - existing;
      }
    }

    method ScheduleReplications(c: Chunk, targets: seq<Peer>) returns (n: nat)
      modifies this`pending
      ensures pending == old(pending) + RequestsFor(c, targets) && n == |targets|
    {
      n := 0;
      for i := 0 to |targets|
        invariant pending == old(pending) + RequestsFor(c, targets[..i]) && n == i
      {
        assert targets[..i + 1][..i] == targets[..i];
        pending := pending + [Request(c, targets[i])];
        n := n + 1;
      }
      assert targets[..|targets|] == targets;
    }

    /** Schedule what one under-replicated chunk lacks. */
    method RepairChunk(c: Chunk, count: nat, ps: seq<Peer>, ghost plan: seq<Request>, ghost done: set<Chunk>,
                       ghost healthy: set<Peer>) returns (n: nat, ghost more: seq<Request>)
      requires c in locations && count == |locations[c]| < factor && Distinct(ps) && Members(ps) == healthy
      requires Plan(plan, locations, done, healthy, factor) && c !in done
      modifies this`pending
      ensures pending == old(pending) + more && n == |more|
      ensures Plan(plan + more, locations, done + {c}, healthy, factor)
    {
      var chosen := ChooseTargets(ps, Holders(locations, c), factor - count);
      PlanStep(plan, locations, done, healthy, factor, c, chosen);
      n := ScheduleReplications(c, chosen);
      more := RequestsFor(c, chosen);
    }

    method RepairChunks(cs: seq<(Chunk, nat)>, ps: seq<Peer>, ghost healthy: set<Peer>)
      returns (scheduled: nat, ghost plan: seq<Request>)
      requires ListsUnder(cs, locations, factor) && Distinct(ps) && Members(ps) == healthy
      modifies this`pending
      ensures pending == old(pending) + plan && scheduled == |plan|
      ensures Plan(plan, locations, locations.Keys, healthy, factor)
    {
      scheduled := 0;
      plan := [];
      ghost var done := Replicated(locations, factor);
      PlanNothing(locations, done, healthy, factor);
      for i := 0 to |cs|
        invariant pending == old(pending) + plan && scheduled == |plan|
        invariant Plan(plan, locations, done, healthy, factor)
        invariant done == Replicated(locations, factor) + Firsts(cs[..i])
      {
        NextUnder(cs, locations, factor, i);
        var n;
        ghost var more;
        n, more := RepairChunk(cs[i].0, cs[i].1, ps, plan, done, healthy);
        scheduled, plan, done := scheduled + n, plan + more, done + {cs[i].0};
      }
      AllUnder(cs, locations, factor);
      assert cs[..|cs|] == cs;
    }

    /** Queue, for every tracked chunk with too few holders, as many healthy non-holders as it lacks. */
    method AntiEntropyRepair(now: Peer -> int) returns (scheduled: nat)
      modifies this`pending
      ensures |pending| == |old(pending)| + scheduled && pending[..|old(pending)|] == old(pending)
      ensures Plan(pending[|old(pending)|..], locations, locations.Keys, HealthySet(peers, now, peerTimeout), factor)
    {
      var cs := UnderReplicatedChunks();
      var ps := HealthyPeers(now);
      ghost var healthy := HealthySet(peers, now, peerTimeout);
      assert Members(ps) == healthy;
      if cs == [] || ps == [] {
        assert ps == [] ==> healthy == {};
        assert cs == [] ==> Firsts(cs) == {};
        PlanNothing(locations, locations.Keys, healthy, factor);
        assert pending[|old(pending)|..] == [];
        return 0;
      }
      ghost var plan;
      scheduled, plan := RepairChunks(cs, ps, healthy);
      assert pending[|old(pending)|..] == plan;
    }

    method ReplicateChunk(r: Request) returns (ok: bool)
      modifies this`locations
      ensures ok <==> Deliverable(r, storage, peers.Keys)
      ensures locations == if ok then Recorded(old(locations), r) else old(locations)
    {
      if r.chunk !in storage {
        return false;
      }
      if r.target !in peers {
        return false;
      }
      RecordChunkLocation(r.chunk, r.target);
      return true;
    }

    /** Deliver the oldest requests, at most `maxConcurrent` of them; failed ones are dropped. */
    method ProcessPending() returns (completed: nat)
      modifies this`pending, this`locations
      ensures var n := Min(|old(pending)|, maxConcurrent);
              && pending == old(pending)[n..]
              && locations == Delivered(old(locations), old(pending)[..n], storage, peers.Keys)
              && completed == |DeliverablePlaces(old(pending)[..n], storage, peers.Keys)|
    {
      var count := Min(|pending|, maxConcurrent);
      CountsPlaces(pending[..count], storage, peers.Keys);
      completed := 0;
      if count == 0 {
        assert pending[..0] == [] && pending[0..] == pending;
        return;
      }
      var batch := pending[..count];
      pending := pending[count..];
      for i := 0 to |batch|
        invariant pending == old(pending)[count..]
        invariant locations == Delivered(old(locations), batch[..i], storage, peers.Keys)
        invariant completed == CountDeliverable(batch[..i], storage, peers.Keys)
      {
        assert batch[..i + 1][..i] == batch[..i];
        var ok := ReplicateChunk(batch[i]);
        if ok {
          completed := completed + 1;
        }
      }
      assert batch[..|batch|] == batch;
    }

    /** Processing until the queue is empty. */
    method Drain()
      requires maxConcurrent > 0
      modifies this`pending, this`locations
      ensures pending == []
      ensures locations == Delivered(old(locations), old(pending), storage, peers.Keys)
    {
      ghost var sent: seq<Request> := [];
      while pending != []
        invariant sent + pending == old(pending)
        invariant locations == Delivered(old(locations), sent, storage, peers.Keys)
        decreases |pending|
      {
        ghost var n, queue := Min(|pending|, maxConcurrent), pending;
        var _ := ProcessPending();
        DeliveredSplit(old(locations), sent, queue[..n], storage, peers.Keys);
        assert queue == queue[..n] + queue[n..];
        sent := sent + queue[..n];
      }
      assert sent == old(pending);
    }

    /**
      One repair on an empty queue, then draining it: every tracked chunk in local storage ends with the smaller of the
      factor and all the holders it could have, every other chunk is unchanged, and a further repair schedules nothing.
     */
    method RepairAndDrain(now: Peer -> int)
      requires pending == [] && maxConcurrent > 0
      modifies this`pending, this`locations
      ensures pending == [] && locations.Keys == old(locations).Keys
      ensures forall c :: c in locations ==>
                Repaired(old(locations)[c], locations[c], c in storage, HealthySet(peers, now, peerTimeout), factor)
    {
      var _ := AntiEntropyRepair(now);
      ghost var plan, before, healthy := pending, locations, HealthySet(peers, now, peerTimeout);
      assert pending[0..] == pending;
      Drain();
      DeliveredKeys(before, plan, storage, peers.Keys);
      forall c | c in locations ensures Repaired(before[c], locations[c], c in storage, healthy, factor) {
        RepairReaches(plan, before, healthy, factor, storage, peers.Keys, c);
      }
    }

    /**
      A peer is removed and its chunks repaired: every tracked chunk in local storage that has too few other holders ends
      with the smaller of the factor and its other holders plus the healthy peers without it; no other holder is lost.
     */
    method RemoveAndRepair(p: Peer, now: Peer -> int)
      requires pending == [] && maxConcurrent > 0
      modifies this`peers, this`pending, this`locations
      ensures locations.Keys == old(locations).Keys
      ensures forall c :: c in locations ==>
                var others, healthy := old(locations)[c] - {p}, HealthySet(old(peers) - {p}, now, peerTimeout);
                && others <= locations[c] <= others + healthy && p !in locations[c]
                && |locations[c]| == if c in storage && |others| < factor then Min(factor, |others| + |healthy - others|) else |others|
    {
      ghost var before := locations;
      RemovePeer(p);
      RepairAndDrain(now);
      ghost var healthy := HealthySet(old(peers) - {p}, now, peerTimeout);
      forall c | c in locations
        ensures Repaired(before[c] - {p}, locations[c], c in storage, healthy, factor) && p !in locations[c]
      {
        ForgottenHolders(before, p, c, p);
      }
    }
  }
}
