/**
  Ephemeral relay authorization: registered identities, the session index, the revocation list and the counters, kept
  consistent by every call, and a revocation that no later call undoes.
 */
module RelayAuthorization {
  import opened Sets
  import opened Indexes
  import opened RateLimiting

  type Id = nat
  type Session = string

  datatype Identity = Identity(session: Session, sponsor: nat, targets: set<string>, maxPayload: nat, priority: nat,
                               expiresAt: int, limiter: Limiter, relays: nat, bytes: nat)
  {
    /** An empty target set means no restriction. */
    predicate CanRelayTo(target: string) { targets == {} || target in targets }
  }

  /** `signed` is the outcome of checking the token's signature against the service's key. */
  datatype Token = Token(id: Id, session: Session, sponsor: nat, expiresAt: int, signed: bool)

  datatype AuthError =
    | AlreadyExists | AuthFailed | InvalidSignature | NotFound | AccessDenied | PayloadTooLarge | RateLimited

  datatype AuthResult = Allowed | Denied(error: AuthError)

  /** What a relay call returns: whom the relay is charged to and how urgent it is, or why it is refused. */
  datatype Authorization = Permit(id: Id, sponsor: nat, priority: nat) | Refused(error: AuthError)

  datatype Registration = Issued(token: Token) | Rejected(error: AuthError)

  datatype Auth = Auth(identities: map<Id, Identity>, sessionIndex: map<Session, seq<Id>>, revoked: map<Id, int>,
                       registeredCount: nat, revokedCount: nat, relayCount: nat)

  const EMPTY := Auth(map[], map[], map[], 0, 0, 0)

  /** The requests of a relay call: the token, where and how much, and the clock as the call reads it. */
  datatype Relay = Relay(token: Token, target: string, payload: nat, verifyAt: int, checkAt: int, turn: Call)

  // ---------------------------------------------------------------- the calls on values

  function AfterRegister(s: Auth, id: Id, who: Identity): Auth {
    if id in s.identities then s
    else s.(identities := s.identities[id := who],
            sessionIndex := Pushed(s.sessionIndex, who.session, id),
            registeredCount := s.registeredCount + 1)
  }

  function AfterRevoke(s: Auth, id: Id, now: int): Auth {
    if id !in s.identities then s
    else s.(identities := s.identities - {id},
            sessionIndex := Dropped(s.sessionIndex, s.identities[id].session, id),
            revoked := s.revoked[id := now],
            revokedCount := s.revokedCount + 1)
  }

  /** Each revocation reads the clock for itself. */
  function AfterRevokeAll(s: Auth, ids: seq<Id>, now: Id -> int): Auth {
    if ids == [] then s else AfterRevoke(AfterRevokeAll(s, ids[..|ids| - 1], now), ids[|ids| - 1], now(ids[|ids| - 1]))
  }

  function AfterRevokeSession(s: Auth, session: Session, now: Id -> int): Auth {
    var t := AfterRevokeAll(s, Listed(s.sessionIndex, session), now);
    t.(sessionIndex := t.sessionIndex - {session})
  }

  /** The checks made before the rate limiter is asked, in order. */
  function Screened(s: Auth, r: Relay): AuthResult {
    if r.verifyAt >= r.token.expiresAt then Denied(AuthFailed)
    else if !r.token.signed then Denied(InvalidSignature)
    else if r.token.id in s.revoked then Denied(AuthFailed)
    else if r.token.id !in s.identities then Denied(NotFound)
    else
      var who := s.identities[r.token.id];
      if r.checkAt >= who.expiresAt then Denied(AuthFailed)
      else if !who.CanRelayTo(r.target) then Denied(AccessDenied)
      else if r.payload > who.maxPayload then Denied(PayloadTooLarge)
      else Allowed
  }

  function Decision(s: Auth, r: Relay): AuthResult {
    if Screened(s, r).Denied? then Screened(s, r)
    else if !Passes(s.identities[r.token.id].limiter, r.turn) then Denied(RateLimited)
    else Allowed
  }

  /** A request that reaches the rate limiter uses it up even when it is denied; only an allowed one is counted. */
  function AfterAuthorize(s: Auth, r: Relay): Auth {
    if Screened(s, r).Denied? then s
    else
      var who := s.identities[r.token.id];
      var next := who.(limiter := After(who.limiter, r.turn));
      if Decision(s, r).Allowed? then
        s.(identities := s.identities[r.token.id := next.(relays := who.relays + 1, bytes := who.bytes + r.payload)],
           relayCount := s.relayCount + 1)
      else s.(identities := s.identities[r.token.id := next])
  }

  function Answer(s: Auth, r: Relay): Authorization {
    if Decision(s, r).Allowed? then Permit(r.token.id, r.token.sponsor, s.identities[r.token.id].priority)
    else Refused(Decision(s, r).error)
  }

  // ---------------------------------------------------------------- what every call keeps

  ghost function Sessions(s: Auth): map<Id, Session> {
    map id | id in s.identities :: s.identities[id].session
  }

  /** Every session lists exactly its identities, once each; registrations are revocations plus active identities. */
  ghost predicate Invariant(s: Auth) {
    && Indexed(Sessions(s), s.sessionIndex)
    && s.registeredCount == s.revokedCount + |s.identities|
  }

  lemma RegisterKeeps(s: Auth, id: Id, who: Identity)
    requires Invariant(s)
    ensures Invariant(AfterRegister(s, id, who))
  {
    if id !in s.identities {
      PushIndexed(Sessions(s), s.sessionIndex, who.session, id);
      assert Sessions(AfterRegister(s, id, who)) == Sessions(s)[id := who.session];
    }
  }

  lemma RevokeKeeps(s: Auth, id: Id, now: int)
    requires Invariant(s)
    ensures Invariant(AfterRevoke(s, id, now))
  {
    if id in s.identities {
      DropIndexed(Sessions(s), s.sessionIndex, id);
      assert Sessions(AfterRevoke(s, id, now)) == Sessions(s) - {id};
      assert |s.identities| == |s.identities - {id}| + 1;
    }
  }

  /** A revoked identity is gone and on the list; nothing else is. */
  lemma RevokeEffect(s: Auth, id: Id, now: int)
    ensures id in s.identities ==> AfterRevoke(s, id, now).revoked == s.revoked[id := now]
    ensures id !in s.identities ==> AfterRevoke(s, id, now) == s
    ensures AfterRevoke(s, id, now).identities == s.identities - {id}
    ensures AfterRevoke(s, id, now).revoked.Keys == s.revoked.Keys + ({id} * s.identities.Keys)
  {
  }

  lemma {:induction false} RevokeAllKeeps(s: Auth, ids: seq<Id>, now: Id -> int)
    requires Invariant(s)
    ensures Invariant(AfterRevokeAll(s, ids, now))
  {
    if ids != [] {
      RevokeAllKeeps(s, ids[..|ids| - 1], now);
      RevokeKeeps(AfterRevokeAll(s, ids[..|ids| - 1], now), ids[|ids| - 1], now(ids[|ids| - 1]));
    }
  }

  lemma {:induction false} RevokeAllEffect(s: Auth, ids: seq<Id>, now: Id -> int)
    ensures AfterRevokeAll(s, ids, now).identities == s.identities - Members(ids)
    ensures AfterRevokeAll(s, ids, now).revoked.Keys == s.revoked.Keys + (Members(ids) * s.identities.Keys)
  {
    if ids != [] {
      var front, last := ids[..|ids| - 1], ids[|ids| - 1];
      assert ids == front + [last];
      RevokeAllEffect(s, front, now);
      RevokeEffect(AfterRevokeAll(s, front, now), last, now(last));
      assert Members(ids) == Members(front) + {last};
    }
  }

  /** Each identity that existed is on the list with the time of its own revocation; the times of others stay. */
  lemma {:induction false} RevokeAllTimes(s: Auth, ids: seq<Id>, now: Id -> int, id: Id)
    ensures var t := AfterRevokeAll(s, ids, now);
            if id in ids && id in s.identities then id in t.revoked && t.revoked[id] == now(id)
            else (id in t.revoked <==> id in s.revoked) && (id in s.revoked ==> t.revoked[id] == s.revoked[id])
  {
    if ids != [] {
      var front, last := ids[..|ids| - 1], ids[|ids| - 1];
      assert ids == front + [last];
      RevokeAllTimes(s, front, now, id);
      RevokeAllEffect(s, front, now);
      RevokeEffect(AfterRevokeAll(s, front, now), last, now(last));
    }
  }

  lemma SessionMembers(s: Auth, session: Session, id: Id)
    requires Invariant(s)
    ensures id in Members(Listed(s.sessionIndex, session)) <==> id in s.identities && s.identities[id].session == session
  {
    assert ListsExactly(Sessions(s), s.sessionIndex, session, id);
  }

  /** Revoking a session removes exactly its identities, puts each on the revocation list and forgets the session. */
  lemma RevokeSessionEffect(s: Auth, session: Session, now: Id -> int)
    requires Invariant(s)
    ensures var t := AfterRevokeSession(s, session, now);
            && session !in t.sessionIndex
            && (forall id :: id in t.identities <==> id in s.identities && s.identities[id].session != session)
            && (forall id :: id in t.identities ==> t.identities[id] == s.identities[id])
            && (forall id :: id in s.identities && s.identities[id].session == session ==> id in t.revoked)
            && s.revoked.Keys <= t.revoked.Keys
  {
    RevokeAllEffect(s, Listed(s.sessionIndex, session), now);
    forall id
      ensures id in Members(Listed(s.sessionIndex, session)) <==> id in s.identities && s.identities[id].session == session
    {
      SessionMembers(s, session, id);
    }
  }

  lemma RevokeSessionKeeps(s: Auth, session: Session, now: Id -> int)
    requires Invariant(s)
    ensures Invariant(AfterRevokeSession(s, session, now))
  {
    var u := AfterRevokeAll(s, Listed(s.sessionIndex, session), now);
    var t := AfterRevokeSession(s, session, now);
    RevokeAllKeeps(s, Listed(s.sessionIndex, session), now);
    RevokeSessionEffect(s, session, now);
    assert Sessions(t) == Sessions(u);
    assert forall id :: id in Sessions(u) ==> Sessions(u)[id] != session;
    ForgetIndexed(Sessions(u), u.sessionIndex, session);
  }

  lemma AuthorizeKeeps(s: Auth, r: Relay)
    requires Invariant(s)
    ensures Invariant(AfterAuthorize(s, r))
  {
    assert Sessions(AfterAuthorize(s, r)) == Sessions(s);
    assert AfterAuthorize(s, r).identities.Keys == s.identities.Keys;
    assert |AfterAuthorize(s, r).identities| == |AfterAuthorize(s, r).identities.Keys|;
  }

  // ---------------------------------------------------------------- runs

  datatype Step =
    | Register(id: Id, who: Identity)
    | Revoke(id: Id, now: int)
    | RevokeSession(session: Session, clock: Id -> int)
    | CleanupExpired(order: seq<Id>, clock: Id -> int)
    | Authorize(relay: Relay)

  /** `ids` are the identities whose time is up, in some order. */
  ghost predicate ListsExpired(s: Auth, ids: seq<Id>, now: int) {
    forall id :: id in ids <==> id in s.identities && s.identities[id].expiresAt <= now
  }

  function Next(s: Auth, step: Step): Auth {
    match step
    case Register(id, who) => AfterRegister(s, id, who)
    case Revoke(id, now) => AfterRevoke(s, id, now)
    case RevokeSession(session, now) => AfterRevokeSession(s, session, now)
    case CleanupExpired(order, now) => AfterRevokeAll(s, order, now)
    case Authorize(relay) => AfterAuthorize(s, relay)
  }

  function Run(s: Auth, steps: seq<Step>): Auth {
    if steps == [] then s else Next(Run(s, steps[..|steps| - 1]), steps[|steps| - 1])
  }

  lemma StepKeeps(s: Auth, step: Step)
    requires Invariant(s)
    ensures Invariant(Next(s, step))
    ensures s.revoked.Keys <= Next(s, step).revoked.Keys
  {
    match step
    case Register(id, who) => RegisterKeeps(s, id, who);
    case Revoke(id, now) => RevokeKeeps(s, id, now);
    case RevokeSession(session, now) =>
      RevokeSessionKeeps(s, session, now);
      RevokeSessionEffect(s, session, now);
    case CleanupExpired(order, now) =>
      RevokeAllKeeps(s, order, now);
      RevokeAllEffect(s, order, now);
    case Authorize(relay) => AuthorizeKeeps(s, relay);
  }

  lemma {:induction false} RunKeeps(s: Auth, steps: seq<Step>)
    requires Invariant(s)
    ensures Invariant(Run(s, steps))
    ensures s.revoked.Keys <= Run(s, steps).revoked.Keys
  {
    if steps != [] {
      RunKeeps(s, steps[..|steps| - 1]);
      StepKeeps(Run(s, steps[..|steps| - 1]), steps[|steps| - 1]);
    }
  }

  /** After every run each session lists exactly its identities and the counters agree. */
  lemma RunConsistent(steps: seq<Step>)
    ensures Invariant(Run(EMPTY, steps))
  {
    assert Sessions(EMPTY) == map[];
    RunKeeps(EMPTY, steps);
  }

  /**
    Once an identity has been revoked, on its own, with its session or because its time was up, no relay request with its
    id is allowed after any further run, even if the id is registered again.
   */
  lemma RevokedForever(steps: seq<Step>, id: Id, later: seq<Step>, r: Relay)
    requires id in Run(EMPTY, steps).revoked && r.token.id == id
    ensures Decision(Run(Run(EMPTY, steps), later), r).Denied?
  {
    RunConsistent(steps);
    RunKeeps(Run(EMPTY, steps), later);
    assert id in Run(EMPTY, steps).revoked.Keys;
  }

  /** The terms an identity was registered with. */
  predicate SameTerms(a: Identity, b: Identity) {
    && a.session == b.session && a.sponsor == b.sponsor && a.targets == b.targets && a.maxPayload == b.maxPayload
    && a.priority == b.priority && a.expiresAt == b.expiresAt
  }

  predicate RegisteredAt(steps: seq<Step>, i: nat, id: Id, who: Identity) {
    i < |steps| && steps[i].Register? && steps[i].id == id && SameTerms(who, steps[i].who)
  }

  lemma StepKeepsTerms(s: Auth, step: Step, id: Id)
    requires Invariant(s) && id in Next(s, step).identities
    ensures if id in s.identities then SameTerms(Next(s, step).identities[id], s.identities[id])
            else step.Register? && step.id == id && Next(s, step).identities[id] == step.who
  {
    match step
    case Register(_, _) =>
    case Revoke(other, now) => RevokeEffect(s, other, now);
    case RevokeSession(session, clock) => RevokeSessionEffect(s, session, clock);
    case CleanupExpired(order, clock) => RevokeAllEffect(s, order, clock);
    case Authorize(relay) =>
  }

  lemma {:induction false} ActiveWasRegistered(steps: seq<Step>, id: Id) returns (i: nat)
    requires id in Run(EMPTY, steps).identities
    ensures RegisteredAt(steps, i, id, Run(EMPTY, steps).identities[id])
  {
    var front, last := steps[..|steps| - 1], steps[|steps| - 1];
    RunConsistent(front);
    StepKeepsTerms(Run(EMPTY, front), last, id);
    if id in Run(EMPTY, front).identities {
      i := ActiveWasRegistered(front, id);
    } else {
      i := |steps| - 1;
    }
  }

  /**
    In every run a relay is allowed only on the terms of an earlier registration of its id: the token is signed and not
    expired, the registration has not expired, it admits the target and the payload, and the id is not revoked.
   */
  lemma AllowedOnRegisteredTerms(steps: seq<Step>, r: Relay) returns (i: nat)
    requires Decision(Run(EMPTY, steps), r).Allowed?
    ensures i < |steps| && steps[i].Register? && steps[i].id == r.token.id
    ensures r.token.signed && r.verifyAt < r.token.expiresAt && r.token.id !in Run(EMPTY, steps).revoked
    ensures var who := steps[i].who;
            r.checkAt < who.expiresAt && who.CanRelayTo(r.target) && r.payload <= who.maxPayload
    ensures Answer(Run(EMPTY, steps), r) == Permit(r.token.id, r.token.sponsor, steps[i].who.priority)
  {
    i := ActiveWasRegistered(steps, r.token.id);
  }

  function AllowedIn(s: Auth, steps: seq<Step>): nat {
    if steps == [] then 0
    else
      var front, last := steps[..|steps| - 1], steps[|steps| - 1];
      AllowedIn(s, front) + if last.Authorize? && Decision(Run(s, front), last.relay).Allowed? then 1 else 0
  }

  lemma {:induction false} RevokeAllRelayCount(s: Auth, ids: seq<Id>, now: Id -> int)
    ensures AfterRevokeAll(s, ids, now).relayCount == s.relayCount
  {
    if ids != [] {
      RevokeAllRelayCount(s, ids[..|ids| - 1], now);
    }
  }

  /** The relay counter is the number of requests allowed since the start. */
  lemma {:induction false} RelayCountExact(s: Auth, steps: seq<Step>)
    ensures Run(s, steps).relayCount == s.relayCount + AllowedIn(s, steps)
  {
    if steps != [] {
      var before, last := Run(s, steps[..|steps| - 1]), steps[|steps| - 1];
      RelayCountExact(s, steps[..|steps| - 1]);
      if last.RevokeSession? {
        RevokeAllRelayCount(before, Listed(before.sessionIndex, last.session), last.clock);
      } else if last.CleanupExpired? {
        RevokeAllRelayCount(before, last.order, last.clock);
      }
    }
  }

  /** Registrations that are not refused. */
  function RegisteredIn(s: Auth, steps: seq<Step>): nat {
    if steps == [] then 0
    else
      var front, last := steps[..|steps| - 1], steps[|steps| - 1];
      RegisteredIn(s, front) + if last.Register? && last.id !in Run(s, front).identities then 1 else 0
  }

  lemma {:induction false} RevokeAllRegistered(s: Auth, ids: seq<Id>, now: Id -> int)
    ensures AfterRevokeAll(s, ids, now).registeredCount == s.registeredCount
  {
    if ids != [] {
      RevokeAllRegistered(s, ids[..|ids| - 1], now);
    }
  }

  /** The registration counter is their number, so with the balance the revocation counter is the identities removed. */
  lemma {:induction false} RegisteredCountExact(s: Auth, steps: seq<Step>)
    ensures Run(s, steps).registeredCount == s.registeredCount + RegisteredIn(s, steps)
  {
    if steps != [] {
      var before, last := Run(s, steps[..|steps| - 1]), steps[|steps| - 1];
      RegisteredCountExact(s, steps[..|steps| - 1]);
      if last.RevokeSession? {
        RevokeAllRegistered(before, Listed(before.sessionIndex, last.session), last.clock);
      } else if last.CleanupExpired? {
        RevokeAllRegistered(before, last.order, last.clock);
      }
    }
  }

  // ---------------------------------------------------------------- the service

  class EphemeralRelayAuth {
    var identities: map<Id, Identity>
    var sessionIndex: map<Session, seq<Id>>
    var revoked: map<Id, int>
    var registeredCount: nat
    var revokedCount: nat
    var relayCount: nat

    ghost function State(): Auth
      reads this
    {
      Auth(identities, sessionIndex, revoked, registeredCount, revokedCount, relayCount)
    }

    constructor ()
      ensures State() == EMPTY
    {
      identities, sessionIndex, revoked := map[], map[], map[];
      registeredCount, revokedCount, relayCount := 0, 0, 0;
    }

    /** The token carries its own expiry, taken from a clock reading of its own. */
    method RegisterIdentity(id: Id, session: Session, sponsor: nat, targets: set<string>, maxPayload: nat, priority: nat,
                            rateLimit: nat, ttl: int, now: int, windowStart: int, signAt: int) returns (r: Registration)
      modifies this
      ensures r == if id in old(identities) then Rejected(AlreadyExists)
                   else Issued(Token(id, session, sponsor, signAt + ttl, true))
      ensures State() == AfterRegister(old(State()), id,
                           Identity(session, sponsor, targets, maxPayload, priority, now + ttl, Limiter(0, windowStart, rateLimit), 0, 0))
    {
      if id in identities {
        return Rejected(AlreadyExists);
      }
      var limiter := Limiter(0, windowStart, rateLimit);
      var who := Identity(session, sponsor, targets, maxPayload, priority, now + ttl, limiter, 0, 0);
      identities := identities[id := who];
      sessionIndex := Pushed(sessionIndex, session, id);
      registeredCount := registeredCount + 1;
      return Issued(Token(id, session, sponsor, signAt + ttl, true));
    }

    method AuthorizeRelay(relay: Relay) returns (r: Authorization)
      modifies this
      ensures State() == AfterAuthorize(old(State()), relay)
      ensures r == Answer(old(State()), relay)
    {
      var token := relay.token;
      if relay.verifyAt >= token.expiresAt {
        return Refused(AuthFailed);
      }
      if !token.signed {
        return Refused(InvalidSignature);
      }
      if token.id in revoked {
        return Refused(AuthFailed);
      }
      if token.id !in identities {
        return Refused(NotFound);
      }
      var who := identities[token.id];
      if relay.checkAt >= who.expiresAt {
        return Refused(AuthFailed);
      }
      if !who.CanRelayTo(relay.target) {
        return Refused(AccessDenied);
      }
      if relay.payload > who.maxPayload {
        return Refused(PayloadTooLarge);
      }
      var pass := Passes(who.limiter, relay.turn);
      identities := identities[token.id := who.(limiter := After(who.limiter, relay.turn))];
      if !pass {
        return Refused(RateLimited);
      }
      who := identities[token.id];
      identities := identities[token.id := who.(relays := who.relays + 1, bytes := who.bytes + relay.payload)];
      relayCount := relayCount + 1;
      return Permit(token.id, token.sponsor, who.priority);
    }

    method RevokeIdentity(id: Id, now: int) returns (r: AuthResult)
      modifies this
      ensures r == if id in old(identities) then Allowed else Denied(NotFound)
      ensures State() == AfterRevoke(old(State()), id, now)
    {
      if id !in identities {
        return Denied(NotFound);
      }
      var who := identities[id];
      identities := identities - {id};
      sessionIndex := Dropped(sessionIndex, who.session, id);
      revoked := revoked[id := now];
      revokedCount := revokedCount + 1;
      return Allowed;
    }

    method RevokeWholeSession(session: Session, now: Id -> int) returns (ids: seq<Id>)
      requires Invariant(State())
      modifies this
      ensures ids == Listed(old(sessionIndex), session)
      ensures State() == AfterRevokeSession(old(State()), session, now)
      ensures Invariant(State()) && forall id :: id in identities ==> identities[id].session != session
    {
      RevokeSessionKeeps(State(), session, now);
      RevokeSessionEffect(State(), session, now);
      ids := Listed(sessionIndex, session);
      RevokeEach(ids, now);
      sessionIndex := sessionIndex - {session};
    }

    /** The identities whose time is up, in the unspecified order in which the table is visited. */
    method CollectExpired(now: int) returns (expired: seq<Id>)
      ensures ListsExpired(State(), expired, now) && Distinct(expired)
    {
      expired := [];
      var rest := identities.Keys;
      while rest != {}
        invariant rest <= identities.Keys && Distinct(expired)
        invariant forall id :: id in expired <==> id in identities && id !in rest && identities[id].expiresAt <= now
        decreases rest
      {
        var id :| id in rest;
        if identities[id].expiresAt <= now {
          expired := expired + [id];
        }
        rest := rest - {id};
      }
    }

    method RevokeEach(ids: seq<Id>, now: Id -> int)
      modifies this
      ensures State() == AfterRevokeAll(old(State()), ids, now)
    {
      for i := 0 to |ids|
        invariant State() == AfterRevokeAll(old(State()), ids[..i], now)
      {
        assert ids[..i + 1][..i] == ids[..i];
        var _ := RevokeIdentity(ids[i], now(ids[i]));
      }
      assert ids[..|ids|] == ids;
    }

    /** Exactly the identities whose time is up are revoked. */
    method CleanupExpiredIdentities(now: int, revokeAt: Id -> int) returns (expired: seq<Id>)
      requires Invariant(State())
      modifies this
      ensures ListsExpired(old(State()), expired, now) && Distinct(expired)
      ensures State() == AfterRevokeAll(old(State()), expired, revokeAt) && Invariant(State())
      ensures forall id :: id in identities <==> id in old(identities) && old(identities)[id].expiresAt > now
    {
      expired := CollectExpired(now);
      RevokeAllKeeps(State(), expired, revokeAt);
      RevokeAllEffect(State(), expired, revokeAt);
      RevokeEach(expired, revokeAt);
    }
  }
}
