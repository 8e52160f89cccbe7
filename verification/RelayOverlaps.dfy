/**
  The relay service with calls that overlap, for one identity: registering is a look-up and then an insert, revoking is a
  removal, a clean-up and a mark, and a relay checks the revocation list before it looks the identity up. A relay keeps
  the looked-up entry locked until its turn is over, so the entry is not replaced or removed meanwhile.
 */
module RelayOverlaps {
  import opened Sets
  import opened RateLimiting

  type Session = string

  /**
    `active` is the session of the stored identity and `limiter` its limiter with the relays inside it. `listed` is how
    often each session lists the identity. Calls in flight: `probing` registrations have found the id unknown, `stored`
    ones have to be listed and `counting` ones to be counted; `removed` revocations have to be taken off the index,
    `cleaned` ones to be put on the revocation list and `marked` ones to be counted; `admitted` relays have passed the
    revocation list.
   */
  datatype Service = Service(active: Option<Session>, limiter: Shared, revoked: bool, listed: multiset<Session>,
                             registeredCount: nat, revokedCount: nat,
                             probing: nat, stored: multiset<Session>, counting: nat,
                             removed: multiset<Session>, cleaned: nat, marked: nat, admitted: nat)
  {
    /** Registrations and revocations in flight. */
    function Changing(): nat { probing + |stored| + counting + |removed| + cleaned + marked }

    function Active(): nat { if active.Some? then 1 else 0 }
  }

  const START := Service(None, Idle(Limiter(0, 0, 0)), false, multiset{}, 0, 0, 0, multiset{}, 0, multiset{}, 0, 0, 0)

  datatype Event =
    | Probe                                                                   // register: identities.contains_key
    | Store(session: Session, limit: nat, windowStart: int, now: int)        // register: identities.insert
    | List(session: Session)                                                 // register: session_index push
    | CountRegistered                                                        // register: total_registered
    | Remove                                                                 // revoke: identities.remove
    | Unlist(session: Session)                                               // revoke: session_index retain
    | Mark                                                                   // revoke: revoked.insert
    | CountRevoked                                                           // revoke: total_revoked
    | Admit                                                                  // relay: revoked.contains_key
    | Refuse                                                                 // relay: one of the other checks fails
    | Limit(step: Step)                                                      // relay: a step inside the rate limiter

  /** Some call in flight is at this point, and the entry is not locked by a relay if the event needs it. */
  predicate Possible(s: Service, e: Event) {
    match e
    case Probe => s.active.None?
    case Store(_, _, _, _) => s.probing > 0 && s.limiter.InFlight() == 0
    case List(session) => session in s.stored
    case CountRegistered => s.counting > 0
    case Remove => s.active.Some? && s.limiter.InFlight() == 0
    case Unlist(session) => session in s.removed
    case Mark => s.cleaned > 0
    case CountRevoked => s.marked > 0
    case Admit => !s.revoked
    case Refuse => s.admitted > 0
    case Limit(step) => s.active.Some? && (step.Read? ==> s.admitted > 0)
  }

  /** `k` bounds the relays inside the limiter. */
  predicate Enabled(s: Service, e: Event, k: nat) {
    Possible(s, e) && (e.Limit? ==> RateLimiting.Enabled(s.limiter, e.step, k))
  }

  function Next(s: Service, e: Event): Service
    requires Possible(s, e)
  {
    match e
    case Probe => s.(probing := s.probing + 1)
    case Store(session, limit, windowStart, _) =>
      s.(active := Some(session), limiter := Idle(Limiter(0, windowStart, limit)),
         probing := s.probing - 1, stored := s.stored + multiset{session})
    case List(session) =>
      s.(listed := s.listed + multiset{session}, stored := s.stored - multiset{session}, counting := s.counting + 1)
    case CountRegistered => s.(registeredCount := s.registeredCount + 1, counting := s.counting - 1)
    case Remove => s.(active := None, removed := s.removed + multiset{s.active.value})
    case Unlist(session) =>
      s.(listed := s.listed[session := 0], removed := s.removed - multiset{session}, cleaned := s.cleaned + 1)
    case Mark => s.(revoked := true, cleaned := s.cleaned - 1, marked := s.marked + 1)
    case CountRevoked => s.(revokedCount := s.revokedCount + 1, marked := s.marked - 1)
    case Admit => s.(admitted := s.admitted + 1)
    case Refuse => s.(admitted := s.admitted - 1)
    case Limit(step) =>
      s.(limiter := RateLimiting.Next(s.limiter, step), admitted := if step.Read? then s.admitted - 1 else s.admitted)
  }

  /** When the event happens; events that nothing depends on happen at once. */
  function TimeOf(e: Event, from: int): int {
    match e
    case Store(_, _, _, now) => now
    case Limit(step) => step.now
    case _ => from
  }

  predicate IsRun(s: Service, events: seq<Event>, k: nat, from: int)
    decreases |events|
  {
    events == []
    || (Enabled(s, events[0], k) && from <= TimeOf(events[0], from)
        && IsRun(Next(s, events[0]), events[1..], k, TimeOf(events[0], from)))
  }

  function Final(s: Service, events: seq<Event>, k: nat, from: int): Service
    requires IsRun(s, events, k, from)
    decreases |events|
  {
    if events == [] then s else Final(Next(s, events[0]), events[1..], k, TimeOf(events[0], from))
  }

  // ---------------------------------------------------------------- the rate

  predicate Passes(s: Service, e: Event) {
    e.Limit? && TurnPasses(s.limiter, e.step)
  }

  /** How many relays are allowed with their turn in [t, t + 60s). */
  function AllowedWithin(s: Service, events: seq<Event>, k: nat, from: int, t: int): nat
    requires IsRun(s, events, k, from)
    decreases |events|
  {
    if events == [] then 0
    else
      (if Passes(s, events[0]) && t <= events[0].step.now < t + MINUTE then 1 else 0)
      + AllowedWithin(Next(s, events[0]), events[1..], k, TimeOf(events[0], from), t)
  }

  function Stores(events: seq<Event>): nat {
    if events == [] then 0 else (if events[0].Store? then 1 else 0) + Stores(events[1..])
  }

  /** Every registration in the run stays within the limit. */
  predicate WithinLimit(e: Event, limit: nat) {
    e.Store? ==> e.limit <= limit
  }

  lemma {:induction false} TimesWider(n: nat, a: nat, b: nat)
    requires a <= b
    ensures Times(n, a) <= Times(n, b)
  {
    if n > 0 {
      TimesWider(n - 1, a, b);
    }
  }

  /** What one stored identity can let pass in a span. */
  lemma BudgetBound(s: Shared, t: int, k: nat, limit: nat)
    requires s.InFlight() <= k && s.limiter.limit <= limit
    ensures Budget(s, t, k) <= Times(k + 1, limit)
  {
    Scale(ResetsLeft(s, t, k), k + 1, s.limiter.limit);
    TimesWider(k + 1, s.limiter.limit, limit);
  }

  /** What can still pass in the span on the identity stored now. */
  function Credit(s: Service, t: int, k: nat): nat {
    if s.active.Some? then Budget(s.limiter, t, k) else 0
  }

  ghost predicate InBounds(s: Service, k: nat, limit: nat) {
    s.limiter.InFlight() <= k && s.limiter.limiter.limit <= limit
  }

  lemma EventInBounds(s: Service, e: Event, k: nat, limit: nat)
    requires Enabled(s, e, k) && InBounds(s, k, limit) && WithinLimit(e, limit)
    ensures InBounds(Next(s, e), k, limit)
  {
    if e.Limit? {
      StepInFlight(s.limiter, e.step, k);
    }
  }

  lemma EventPays(s: Service, e: Event, k: nat, limit: nat, t: int)
    requires Enabled(s, e, k) && InBounds(s, k, limit) && WithinLimit(e, limit)
    requires e.Limit? ==> t <= e.step.now < t + MINUTE
    ensures (if Passes(s, e) then 1 else 0) + Credit(Next(s, e), t, k)
            <= Credit(s, t, k) + if e.Store? then Times(k + 1, limit) else 0
  {
    if e.Limit? {
      StepPays(s.limiter, e.step, k, t);
    } else if e.Store? {
      BudgetBound(Next(s, e).limiter, t, k, limit);
    }
  }

  lemma {:induction false} NothingLater(s: Service, events: seq<Event>, k: nat, from: int, t: int)
    requires IsRun(s, events, k, from) && from >= t + MINUTE
    ensures AllowedWithin(s, events, k, from, t) == 0
    decreases |events|
  {
    if events != [] {
      NothingLater(Next(s, events[0]), events[1..], k, TimeOf(events[0], from), t);
    }
  }

  lemma {:induction false} FromSpanOn(s: Service, events: seq<Event>, k: nat, from: int, limit: nat, t: int)
    requires IsRun(s, events, k, from) && InBounds(s, k, limit) && t <= from
    requires forall i :: 0 <= i < |events| ==> WithinLimit(events[i], limit)
    ensures AllowedWithin(s, events, k, from, t) <= Credit(s, t, k) + Times(Stores(events), Times(k + 1, limit))
    decreases |events|
  {
    if events != [] {
      var e, rest, at := events[0], events[1..], TimeOf(events[0], from);
      EventInBounds(s, e, k, limit);
      if at >= t + MINUTE {
        NothingLater(Next(s, e), rest, k, at, t);
      } else {
        EventPays(s, e, k, limit, t);
        assert forall i :: 0 <= i < |rest| ==> rest[i] == events[i + 1];
        FromSpanOn(Next(s, e), rest, k, at, limit, t);
      }
    }
  }

  /**
    In every interleaving of registrations, revocations and relays, with at most `k` relays at a time inside the limiter,
    the relays allowed in any half-open span of 60 seconds are at most `k + 1` limits for every identity stored: the one
    there is at the start and each one a registration stores.
   */
  lemma {:induction false} SpanOverService(s: Service, events: seq<Event>, k: nat, from: int, limit: nat, t: int)
    requires IsRun(s, events, k, from) && InBounds(s, k, limit)
    requires forall i :: 0 <= i < |events| ==> WithinLimit(events[i], limit)
    ensures AllowedWithin(s, events, k, from, t) <= Times(s.Active() + Stores(events), Times(k + 1, limit))
    decreases |events|
  {
    if events == [] {
    } else if t <= from {
      WithCredit(s, events, k, from, limit, t);
    } else if t <= TimeOf(events[0], from) {
      EntersSpan(s, events, k, from, limit, t);
    } else {
      var next := Next(s, events[0]);
      SkipsEarly(s, events, k, from, t);
      EventInBounds(s, events[0], k, limit);
      RestWithinLimit(events, limit);
      SpanOverService(next, events[1..], k, TimeOf(events[0], from), limit, t);
      StoresStep(s, events[0], events);
      TimesMore(next.Active() + Stores(events[1..]), s.Active() + Stores(events), Times(k + 1, limit));
    }
  }

  lemma {:induction false} TimesMore(n: nat, m: nat, x: nat)
    requires n <= m
    ensures Times(n, x) <= Times(m, x)
    decreases m
  {
    if n < m {
      TimesMore(n, m - 1, x);
    }
  }

  lemma {:induction false} TimesAdd(n: nat, m: nat, x: nat)
    ensures Times(n + m, x) == Times(n, x) + Times(m, x)
  {
    if n > 0 {
      TimesAdd(n - 1, m, x);
    }
  }

  lemma CreditBound(s: Service, t: int, k: nat, limit: nat)
    requires InBounds(s, k, limit)
    ensures Credit(s, t, k) <= Times(s.Active(), Times(k + 1, limit))
  {
    BudgetBound(s.limiter, t, k, limit);
    assert Times(1, Times(k + 1, limit)) == Times(k + 1, limit) + Times(0, Times(k + 1, limit));
  }

  /** From a state in the span on, and with the credit of the identity stored at its start. */
  lemma WithCredit(s: Service, events: seq<Event>, k: nat, from: int, limit: nat, t: int)
    requires IsRun(s, events, k, from) && InBounds(s, k, limit) && t <= from
    requires forall i :: 0 <= i < |events| ==> WithinLimit(events[i], limit)
    ensures AllowedWithin(s, events, k, from, t) <= Times(s.Active() + Stores(events), Times(k + 1, limit))
  {
    FromSpanOn(s, events, k, from, limit, t);
    CreditBound(s, t, k, limit);
    TimesAdd(s.Active(), Stores(events), Times(k + 1, limit));
  }

  /** Starting the run later changes nothing if no event happens before. */
  lemma LaterStart(s: Service, e: Event, rest: seq<Event>, k: nat, from: int, later: int, t: int)
    requires IsRun(s, [e] + rest, k, from) && from <= later && (e.Store? || e.Limit?) && later <= TimeOf(e, from)
    ensures IsRun(s, [e] + rest, k, later)
    ensures AllowedWithin(s, [e] + rest, k, later, t) == AllowedWithin(s, [e] + rest, k, from, t)
  {
  }

  lemma StoresStep(s: Service, e: Event, events: seq<Event>)
    requires events != [] && e == events[0] && Possible(s, e)
    ensures Next(s, e).Active() + Stores(events[1..]) <= s.Active() + Stores(events)
  {
  }

  /** An event before the span counts for nothing. */
  lemma SkipsEarly(s: Service, events: seq<Event>, k: nat, from: int, t: int)
    requires IsRun(s, events, k, from) && events != [] && TimeOf(events[0], from) < t
    ensures AllowedWithin(s, events, k, from, t)
            == AllowedWithin(Next(s, events[0]), events[1..], k, TimeOf(events[0], from), t)
  {
  }

  /** The first event of a run that starts before the span happens in it or after it. */
  lemma EntersSpan(s: Service, events: seq<Event>, k: nat, from: int, limit: nat, t: int)
    requires IsRun(s, events, k, from) && InBounds(s, k, limit) && events != [] && from < t <= TimeOf(events[0], from)
    requires forall i :: 0 <= i < |events| ==> WithinLimit(events[i], limit)
    ensures AllowedWithin(s, events, k, from, t) <= Times(s.Active() + Stores(events), Times(k + 1, limit))
  {
    assert events == [events[0]] + events[1..];
    LaterStart(s, events[0], events[1..], k, from, t, t);
    WithCredit(s, events, k, t, limit, t);
  }

  lemma RestWithinLimit(events: seq<Event>, limit: nat)
    requires events != [] && forall i :: 0 <= i < |events| ==> WithinLimit(events[i], limit)
    ensures forall i :: 0 <= i < |events[1..]| ==> WithinLimit(events[1..][i], limit)
  {
    assert forall i :: 0 <= i < |events[1..]| ==> events[1..][i] == events[i + 1];
  }

  /** So with one registration from the start on it is `k + 1` limits, as for a limiter on its own. */
  lemma OneRegistration(events: seq<Event>, k: nat, from: int, limit: nat, t: int)
    requires IsRun(START, events, k, from) && Stores(events) <= 1
    requires forall i :: 0 <= i < |events| ==> WithinLimit(events[i], limit)
    ensures AllowedWithin(START, events, k, from, t) <= (k + 1) * limit
  {
    SpanOverService(START, events, k, from, limit, t);
    TimesIsProduct(k + 1, limit);
    assert Times(1, Times(k + 1, limit)) == Times(k + 1, limit) + Times(0, Times(k + 1, limit));
  }

  // ---------------------------------------------------------------- revocation

  /** How many relays are allowed, at any time. */
  function Allowed(s: Service, events: seq<Event>, k: nat, from: int): nat
    requires IsRun(s, events, k, from)
    decreases |events|
  {
    if events == [] then 0
    else
      (if Passes(s, events[0]) then 1 else 0)
      + Allowed(Next(s, events[0]), events[1..], k, TimeOf(events[0], from))
  }

  /**
    Once an identity is on the revocation list only relays that had passed the list before can still be allowed, each of
    them once, whatever is registered or revoked later.
   */
  lemma {:induction false} RevokedRunsDry(s: Service, events: seq<Event>, k: nat, from: int)
    requires IsRun(s, events, k, from) && s.revoked
    ensures Allowed(s, events, k, from) <= s.admitted + s.limiter.InFlight()
    decreases |events|
  {
    if events != [] {
      RevokedRunsDry(Next(s, events[0]), events[1..], k, TimeOf(events[0], from));
    }
  }

  lemma Prefix(s: Service, e: Event, rest: seq<Event>, k: nat, from: int)
    requires Enabled(s, e, k) && from <= TimeOf(e, from) && IsRun(Next(s, e), rest, k, TimeOf(e, from))
    ensures IsRun(s, [e] + rest, k, from)
    ensures Final(s, [e] + rest, k, from) == Final(Next(s, e), rest, k, TimeOf(e, from))
    ensures Allowed(s, [e] + rest, k, from) == (if Passes(s, e) then 1 else 0) + Allowed(Next(s, e), rest, k, TimeOf(e, from))
  {
    assert ([e] + rest)[1..] == rest;
  }

  /** A registration that runs to its end, and then `rest`. */
  lemma Register(s: Service, session: Session, limit: nat, now: int, rest: seq<Event>, k: nat) returns (events: seq<Event>)
    requires s.active.None? && s.limiter.InFlight() == 0
    requires IsRun(Registered(s, session, limit, now), rest, k, now)
    ensures IsRun(s, events, k, now) && Final(s, events, k, now) == Final(Registered(s, session, limit, now), rest, k, now)
    ensures Allowed(s, events, k, now) == Allowed(Registered(s, session, limit, now), rest, k, now)
  {
    var s1 := Next(s, Probe);
    var s2 := Next(s1, Store(session, limit, now, now));
    var s3 := Next(s2, List(session));
    assert s3.stored == s.stored;
    assert Next(s3, CountRegistered) == Registered(s, session, limit, now);
    Prefix(s3, CountRegistered, rest, k, now);
    Prefix(s2, List(session), [CountRegistered] + rest, k, now);
    Prefix(s1, Store(session, limit, now, now), [List(session)] + ([CountRegistered] + rest), k, now);
    events := [Store(session, limit, now, now)] + ([List(session)] + ([CountRegistered] + rest));
    Prefix(s, Probe, events, k, now);
    events := [Probe] + events;
  }

  function Registered(s: Service, session: Session, limit: nat, now: int): Service {
    s.(active := Some(session), limiter := Idle(Limiter(0, now, limit)), listed := s.listed + multiset{session},
       registeredCount := s.registeredCount + 1)
  }

  /** A revocation that runs to its end, and then `rest`. */
  lemma Revoke(s: Service, rest: seq<Event>, k: nat, now: int) returns (events: seq<Event>)
    requires s.active.Some? && s.limiter.InFlight() == 0 && IsRun(Revoked(s), rest, k, now)
    ensures IsRun(s, events, k, now) && Final(s, events, k, now) == Final(Revoked(s), rest, k, now)
    ensures Allowed(s, events, k, now) == Allowed(Revoked(s), rest, k, now)
  {
    var session := s.active.value;
    var s1 := Next(s, Remove);
    var s2 := Next(s1, Unlist(session));
    var s3 := Next(s2, Mark);
    assert s2.removed == s.removed;
    assert Next(s3, CountRevoked) == Revoked(s);
    Prefix(s3, CountRevoked, rest, k, now);
    Prefix(s2, Mark, [CountRevoked] + rest, k, now);
    Prefix(s1, Unlist(session), [Mark] + ([CountRevoked] + rest), k, now);
    events := [Unlist(session)] + ([Mark] + ([CountRevoked] + rest));
    Prefix(s, Remove, events, k, now);
    events := [Remove] + events;
  }

  function Revoked(s: Service): Service
    requires s.active.Some?
  {
    s.(active := None, listed := s.listed[s.active.value := 0], revoked := true, revokedCount := s.revokedCount + 1)
  }

  /**
    Such a relay can be allowed after the revocation is complete: it passes the list, is overtaken by the revocation and
    by a new registration, and then finds the new identity.
   */
  lemma OvertakenIsAllowed(session: Session, limit: nat, now: int) returns (s: Service, events: seq<Event>)
    requires limit >= 1
    ensures s.revoked && s.Changing() == 0 && IsRun(s, events, 1, now) && Allowed(s, events, 1, now) == 1
    ensures exists before: seq<Event> :: IsRun(START, before, 1, now) && Final(START, before, 1, now) == s
  {
    var first := Registered(START, session, limit, now);
    var admitted := Next(first, Admit);
    s := Revoked(admitted);
    var before := Revoke(admitted, [], 1, now);
    Prefix(first, Admit, before, 1, now);
    before := Register(START, session, limit, now, [Admit] + before, 1);
    var again := Registered(s, session, limit, now);
    var inside := Next(again, Limit(Read(0, now)));
    ExpiredIsMinute(again.limiter.limiter, now);
    Prefix(inside, Limit(Turn(0, now)), [], 1, now);
    Prefix(again, Limit(Read(0, now)), [Limit(Turn(0, now))] + [], 1, now);
    events := Register(s, session, limit, now, [Limit(Read(0, now))] + ([Limit(Turn(0, now))] + []), 1);
  }

  // ---------------------------------------------------------------- the counters and the index

  /** How often a registration stores an identity over one that is there. */
  function Overwrites(s: Service, events: seq<Event>, k: nat, from: int): nat
    requires IsRun(s, events, k, from)
    decreases |events|
  {
    if events == [] then 0
    else
      (if events[0].Store? then s.Active() else 0)
      + Overwrites(Next(s, events[0]), events[1..], k, TimeOf(events[0], from))
  }

  /** Registrations stored, minus identities taken out, minus the one that is there. */
  function Balance(s: Service): int {
    (s.registeredCount + s.counting + |s.stored|) - (s.revokedCount + s.marked + s.cleaned + |s.removed|) - s.Active()
  }

  lemma EventBalance(s: Service, e: Event, k: nat)
    requires Enabled(s, e, k)
    ensures Balance(Next(s, e)) == Balance(s) + if e.Store? then s.Active() else 0
  {
  }

  lemma {:induction false} RunBalance(s: Service, events: seq<Event>, k: nat, from: int)
    requires IsRun(s, events, k, from)
    ensures Balance(Final(s, events, k, from)) == Balance(s) + Overwrites(s, events, k, from)
    decreases |events|
  {
    if events != [] {
      EventBalance(s, events[0], k);
      RunBalance(Next(s, events[0]), events[1..], k, TimeOf(events[0], from));
    }
  }

  /**
    In every interleaving, when no registration or revocation is in flight any more, registrations are revocations plus
    active identities if and only if no registration stored its identity over one that was there.
   */
  lemma CountersBalanceIff(events: seq<Event>, k: nat, from: int)
    requires IsRun(START, events, k, from) && Final(START, events, k, from).Changing() == 0
    ensures var s := Final(START, events, k, from);
            s.registeredCount == s.revokedCount + s.Active() <==> Overwrites(START, events, k, from) == 0
  {
    RunBalance(START, events, k, from);
  }

  /** What the index lists when it is exact. */
  function Own(s: Service): multiset<Session> {
    if s.active.Some? then multiset{s.active.value} else multiset{}
  }

  /** With at most one registration or revocation in flight, what is stored, listed and still to be done agree. */
  ghost predicate Orderly(s: Service) {
    && s.Changing() <= 1
    && (s.probing > 0 ==> s.active.None?)
    && (s.stored == multiset{} && s.removed == multiset{} ==> s.listed == Own(s))
    && (s.stored != multiset{} ==> s.active.Some? && s.stored == multiset{s.active.value} && s.listed == multiset{})
    && (s.removed != multiset{} ==> s.active.None? && s.listed == s.removed)
  }

  /** A registration or revocation starts only when no other one is in flight. */
  predicate OneAtATime(s: Service, e: Event) {
    e.Probe? || e.Remove? ==> s.Changing() == 0
  }

  lemma OnlyOne(m: multiset<Session>, x: Session)
    requires x in m && |m| <= 1
    ensures m == multiset{x} && |m| == 1 && m - multiset{x} == multiset{} && m[x := 0] == multiset{}
  {
    assert m == (m - multiset{x}) + multiset{x};
    assert |m - multiset{x}| == 0;
  }

  lemma RegisterKeepsOrder(s: Service, e: Event)
    requires Orderly(s) && Possible(s, e) && (e.Store? || e.List?)
    ensures Orderly(Next(s, e)) && (e.Store? ==> s.active.None?)
  {
    if e.List? {
      OnlyOne(s.stored, e.session);
    }
  }

  lemma RevokeKeepsOrder(s: Service, e: Event)
    requires Orderly(s) && Possible(s, e) && OneAtATime(s, e) && (e.Remove? || e.Unlist?)
    ensures Orderly(Next(s, e))
  {
    if e.Unlist? {
      OnlyOne(s.removed, e.session);
    }
  }

  lemma OrderlyNext(s: Service, e: Event)
    requires Orderly(s) && Possible(s, e) && OneAtATime(s, e)
    ensures Orderly(Next(s, e)) && (e.Store? ==> s.active.None?)
  {
    if e.Store? || e.List? {
      RegisterKeepsOrder(s, e);
    } else if e.Remove? || e.Unlist? {
      RevokeKeepsOrder(s, e);
    }
  }

  predicate Serial(s: Service, events: seq<Event>, k: nat, from: int)
    requires IsRun(s, events, k, from)
    decreases |events|
  {
    events == []
    || (OneAtATime(s, events[0]) && Serial(Next(s, events[0]), events[1..], k, TimeOf(events[0], from)))
  }

  lemma {:induction false} SerialKeeps(s: Service, events: seq<Event>, k: nat, from: int)
    requires IsRun(s, events, k, from) && Serial(s, events, k, from) && Orderly(s)
    ensures Orderly(Final(s, events, k, from)) && Overwrites(s, events, k, from) == 0
    decreases |events|
  {
    if events != [] {
      OrderlyNext(s, events[0]);
      SerialKeeps(Next(s, events[0]), events[1..], k, TimeOf(events[0], from));
    }
  }

  /**
    If registrations and revocations do not overlap each other, relays may: when none is in flight, exactly the session of
    the active identity lists it, once, and the counters balance.
   */
  lemma SerialIsExact(events: seq<Event>, k: nat, from: int)
    requires IsRun(START, events, k, from) && Serial(START, events, k, from)
    requires Final(START, events, k, from).Changing() == 0
    ensures var s := Final(START, events, k, from);
            s.listed == Own(s) && s.registeredCount == s.revokedCount + s.Active()
  {
    SerialKeeps(START, events, k, from);
    CountersBalanceIff(events, k, from);
  }

  // ---------------------------------------------------------------- registrations that overlap

  /** Everything a session lists or is about to list. */
  function Listing(s: Service): multiset<Session> {
    s.listed + s.stored
  }

  predicate NoRemoval(events: seq<Event>) {
    forall i :: 0 <= i < |events| ==> !events[i].Remove?
  }

  lemma ListingNext(s: Service, e: Event)
    requires Possible(s, e) && !e.Remove? && s.removed == multiset{}
    ensures Next(s, e).removed == multiset{}
    ensures if e.Store? then Next(s, e).active == Some(e.session) && Listing(Next(s, e)) == Listing(s) + multiset{e.session}
            else Next(s, e).active == s.active && Listing(Next(s, e)) == Listing(s)
  {
  }

  lemma {:induction false} ListingRun(s: Service, events: seq<Event>, k: nat, from: int)
    requires IsRun(s, events, k, from) && NoRemoval(events) && s.removed == multiset{}
    ensures var f := Final(s, events, k, from);
            && |Listing(f)| == |Listing(s)| + Stores(events)
            && (Stores(events) == 0 ==> f.active == s.active && Listing(f) == Listing(s))
            && (Stores(events) == 1 && Listing(s) == multiset{} ==> Listing(f) == Own(f))
    decreases |events|
  {
    if events != [] {
      assert !events[0].Remove?;
      ListingNext(s, events[0]);
      assert forall i :: 0 <= i < |events[1..]| ==> events[1..][i] == events[i + 1];
      ListingRun(Next(s, events[0]), events[1..], k, TimeOf(events[0], from));
    }
  }

  /**
    Registrations that overlap, in every interleaving without revocations: when none is in flight, the index lists the
    identity exactly once under its session, if and only if at most one of them has stored it.
   */
  lemma IndexExactIff(events: seq<Event>, k: nat, from: int)
    requires IsRun(START, events, k, from) && NoRemoval(events) && Final(START, events, k, from).Changing() == 0
    ensures Final(START, events, k, from).listed == Own(Final(START, events, k, from)) <==> Stores(events) <= 1
  {
    ListingRun(START, events, k, from);
    var f := Final(START, events, k, from);
    assert f.stored == multiset{};
    assert Listing(f) == f.listed;
  }

  /** A stored identity is listed and counted, and then `rest`. */
  lemma ListAndCount(s: Service, session: Session, rest: seq<Event>, k: nat, now: int) returns (events: seq<Event>)
    requires session in s.stored && IsRun(ListedOnce(s, session), rest, k, now)
    ensures IsRun(s, events, k, now) && Final(s, events, k, now) == Final(ListedOnce(s, session), rest, k, now)
  {
    var s1 := Next(s, List(session));
    assert Next(s1, CountRegistered) == ListedOnce(s, session);
    Prefix(s1, CountRegistered, rest, k, now);
    Prefix(s, List(session), [CountRegistered] + rest, k, now);
    events := [List(session)] + ([CountRegistered] + rest);
  }

  function ListedOnce(s: Service, session: Session): Service {
    s.(listed := s.listed + multiset{session}, stored := s.stored - multiset{session},
       registeredCount := s.registeredCount + 1)
  }

  /** Two registrations that both look before either stores: the identity is listed and counted twice. */
  lemma DoubleRegistration(session: Session, limit: nat, now: int) returns (events: seq<Event>)
    ensures IsRun(START, events, 1, now)
    ensures var s := Final(START, events, 1, now);
            s.Changing() == 0 && s.Active() == 1 && s.registeredCount == 2 && s.listed == multiset{session, session}
  {
    var store := Store(session, limit, now, now);
    var s1 := Next(START, Probe);
    var s2 := Next(s1, Probe);
    var s3 := Next(s2, store);
    var s4 := Next(s3, store);
    var s5 := ListedOnce(s4, session);
    assert s5.stored == multiset{session};
    events := ListAndCount(s5, session, [], 1, now);
    events := ListAndCount(s4, session, events, 1, now);
    Prefix(s3, store, events, 1, now);
    Prefix(s2, store, [store] + events, 1, now);
    Prefix(s1, Probe, [store] + ([store] + events), 1, now);
    Prefix(START, Probe, [Probe] + ([store] + ([store] + events)), 1, now);
    events := [Probe] + ([Probe] + ([store] + ([store] + events)));
  }
}
