/** The virtual network's host allocator: a set of taken hosts and a hint that always lies below the lowest free host. */
module IpAllocation {
  import opened Sets

  const MAX_HOST: nat := 65535
  const NETWORK_HOST: nat := 0
  const HUB_HOST: nat := 1
  const FIRST_ALLOCATABLE: nat := 2

  /** A `u16` host number. */
  type Host = h: nat | h <= MAX_HOST

  datatype AllocError = NetworkAddress | HubAddress | AlreadyAllocated(host: Host)

  datatype Outcome = Done | Refused(error: AllocError)

  ghost predicate Taken(taken: set<int>) {
    && NETWORK_HOST in taken && HUB_HOST in taken
    && forall h :: h in taken ==> 0 <= h <= MAX_HOST
  }

  ghost predicate IsFree(taken: set<int>, h: int) {
    FIRST_ALLOCATABLE <= h <= MAX_HOST && h !in taken
  }

  ghost predicate IsLowestFree(taken: set<int>, h: int) {
    IsFree(taken, h) && forall j :: IsFree(taken, j) ==> h <= j
  }

  /** Everything below the hint is taken: the unstated invariant that makes the hinted scan exact. */
  ghost predicate HintBelowFree(taken: set<int>, hint: Host) {
    FIRST_ALLOCATABLE <= hint && forall j :: IsFree(taken, j) ==> hint <= j
  }

  ghost function FreeHosts(taken: set<int>): set<int> {
    Interval(FIRST_ALLOCATABLE, MAX_HOST + 1) - taken
  }

  /** The count computed from the number of taken hosts is the true number of free hosts. */
  lemma FreeCount(taken: set<int>)
    requires Taken(taken)
    ensures |FreeHosts(taken)| == (MAX_HOST + 1) - |taken|
    ensures 2 <= |taken| <= MAX_HOST + 1
    ensures forall j :: IsFree(taken, j) <==> j in FreeHosts(taken)
  {
    var all := Interval(0, MAX_HOST + 1);
    assert taken <= all;
    SubsetSize(taken, all);
    assert all - taken == FreeHosts(taken);
    var reserved: set<int> := {NETWORK_HOST, HUB_HOST};
    SubsetSize(reserved, taken);
  }

  /** What the hinted scan with wrap-around finds: the first free host from the hint on, or else the first below it. */
  ghost predicate ScanFinds(taken: set<int>, hint: Host, h: int) {
    && IsFree(taken, h)
    && if hint <= h then forall j :: IsFree(taken, j) ==> j < hint || h <= j
       else forall j :: IsFree(taken, j) ==> h <= j < hint
  }

  /** With the hint below every free host the scan finds the lowest free host, and never one by wrapping around. */
  lemma HintedScanIsLowest(taken: set<int>, hint: Host, h: int)
    requires HintBelowFree(taken, hint)
    ensures ScanFinds(taken, hint, h) <==> IsLowestFree(taken, h)
    ensures ScanFinds(taken, hint, h) ==> hint <= h
  {
  }

  function SaturatingSub(a: nat, b: nat): nat {
    if a < b then 0 else a - b
  }

  class BitmapAllocator {
    var taken: set<int>
    var nextHint: Host

    ghost predicate Valid()
      reads this
    {
      Taken(taken) && HintBelowFree(taken, nextHint)
    }

    constructor ()
      ensures Valid() && taken == {NETWORK_HOST, HUB_HOST}
    {
      taken := {NETWORK_HOST, HUB_HOST};
      nextHint := FIRST_ALLOCATABLE;
    }

    constructor WithReserved(reserved: seq<Host>)
      ensures Valid()
      ensures forall h :: h in taken <==> h == NETWORK_HOST || h == HUB_HOST || h in reserved
    {
      taken := {NETWORK_HOST, HUB_HOST};
      nextHint := FIRST_ALLOCATABLE;
      new;
      for i := 0 to |reserved|
        invariant Valid() && nextHint == FIRST_ALLOCATABLE
        invariant forall h :: h in taken <==> h == NETWORK_HOST || h == HUB_HOST || h in reserved[..i]
      {
        assert reserved[..i + 1] == reserved[..i] + [reserved[i]];
        if FIRST_ALLOCATABLE <= reserved[i] <= MAX_HOST {
          taken := taken + {reserved[i]};
        }
      }
      assert reserved[..|reserved|] == reserved;
    }

    /** The scan from the hint and, if that finds nothing, the scan from the start up to the hint. */
    method FindNextAvailable() returns (r: Option<Host>)
      requires Taken(taken)
      ensures r.Some? ==> ScanFinds(taken, nextHint, r.value)
      ensures r.None? ==> forall j :: !IsFree(taken, j)
    {
      var h: int := nextHint;
      while h <= MAX_HOST
        invariant nextHint <= h <= MAX_HOST + 1
        invariant forall j :: IsFree(taken, j) ==> j < nextHint || h <= j
      {
        if h !in taken {
          return Some(h);
        }
        h := h + 1;
      }
      h := FIRST_ALLOCATABLE;
      while h < nextHint
        invariant FIRST_ALLOCATABLE <= h
        invariant forall j :: IsFree(taken, j) ==> h <= j < nextHint
      {
        if h !in taken {
          return Some(h);
        }
        h := h + 1;
      }
      return None;
    }

    /** The lowest free host; fails exactly when none is free. */
    method Allocate() returns (r: Option<Host>)
      requires Valid()
      modifies this
      ensures Valid()
      ensures r.Some? ==> IsLowestFree(old(taken), r.value) && taken == old(taken) + {r.value}
      ensures r.Some? ==> nextHint == if r.value < MAX_HOST then r.value + 1 else FIRST_ALLOCATABLE
      ensures r.None? ==> unchanged(this)
      ensures r.None? <==> |FreeHosts(old(taken))| == 0
    {
      r := FindNextAvailable();
      FreeCount(taken);
      if r.None? {
        assert forall j :: j in FreeHosts(taken) ==> IsFree(taken, j);
        assert FreeHosts(taken) == {};
        return;
      }
      var host := r.value;
      HintedScanIsLowest(taken, nextHint, host);
      assert host in FreeHosts(taken);
      forall j | IsFree(taken + {host}, j) ensures j > host {
        assert IsFree(taken, j);
      }
      taken := taken + {host};
      nextHint := if host < MAX_HOST then host + 1 else FIRST_ALLOCATABLE;
    }

    method Reserve(host: Host) returns (r: Outcome)
      requires Valid()
      modifies this
      ensures Valid()
      ensures r == if host == NETWORK_HOST then Refused(NetworkAddress)
                   else if host == HUB_HOST then Refused(HubAddress)
                   else if host in old(taken) then Refused(AlreadyAllocated(host))
                   else Done
      ensures if r.Done? then taken == old(taken) + {host} && nextHint == old(nextHint) else unchanged(this)
    {
      if host == NETWORK_HOST {
        return Refused(NetworkAddress);
      }
      if host == HUB_HOST {
        return Refused(HubAddress);
      }
      if host in taken {
        return Refused(AlreadyAllocated(host));
      }
      forall j | IsFree(taken + {host}, j) ensures nextHint <= j {
        assert IsFree(taken, j);
      }
      taken := taken + {host};
      return Done;
    }

    method Release(host: Host)
      requires Valid()
      modifies this
      ensures Valid()
      ensures taken == if host == NETWORK_HOST || host == HUB_HOST then old(taken) else old(taken) - {host}
      ensures nextHint == if taken != old(taken) && host < old(nextHint) then host else old(nextHint)
    {
      if host == NETWORK_HOST || host == HUB_HOST {
        return;
      }
      if host in taken {
        forall j | IsFree(taken - {host}, j) ensures j == host || nextHint <= j {
          assert j == host || IsFree(taken, j);
        }
        taken := taken - {host};
        if host < nextHint {
          nextHint := host;
        }
      }
    }

    /** The number of free hosts; neither subtraction saturates. */
    method AvailableCount() returns (n: nat)
      requires Valid()
      ensures n == |FreeHosts(taken)|
    {
      var total := MAX_HOST - FIRST_ALLOCATABLE + 1;
      FreeCount(taken);
      n := SaturatingSub(total, SaturatingSub(|taken|, 2));
    }

    /** A released host that lies below every free one is handed out next, and the allocator is back where it was. */
    method ReleaseThenAllocate(host: Host) returns (r: Option<Host>)
      requires Valid() && FIRST_ALLOCATABLE <= host && host in taken
      requires forall j :: IsFree(taken, j) ==> host < j
      modifies this
      ensures Valid() && r == Some(host) && taken == old(taken)
    {
      Release(host);
      forall j | IsFree(taken, j) ensures host <= j {
        assert j == host || IsFree(old(taken), j);
      }
      assert IsFree(taken, host) && IsLowestFree(taken, host) && host in FreeHosts(taken);
      LowestFreeIff(taken);
      r := Allocate();
    }
  }

  lemma {:induction false} LowestFreeExists(taken: set<int>, from: int, bound: Host) returns (h: Host)
    requires IsFree(taken, bound) && FIRST_ALLOCATABLE <= from <= bound
    requires forall j :: IsFree(taken, j) ==> from <= j
    ensures IsLowestFree(taken, h)
    decreases bound - from
  {
    if IsFree(taken, from) {
      h := from;
    } else {
      h := LowestFreeExists(taken, from + 1, bound);
    }
  }

  /** A lowest free host exists exactly when some host is free, and it is unique. */
  lemma LowestFreeIff(taken: set<int>)
    ensures (exists h :: IsLowestFree(taken, h)) <==> (exists j :: IsFree(taken, j))
    ensures forall g, h :: IsLowestFree(taken, g) && IsLowestFree(taken, h) ==> g == h
  {
    if j :| IsFree(taken, j) {
      var h := LowestFreeExists(taken, FIRST_ALLOCATABLE, j);
    }
  }
}
