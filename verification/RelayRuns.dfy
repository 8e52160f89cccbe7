/** The rate limit as a guarantee of the whole service: registrations, revocations and relays together. */
module RelayRuns {
  import opened RateLimiting
  import opened RelayAuthorization

  /** The clock does not run backwards from one relay call to the next, and calls do not overlap. */
  predicate ClockInOrder(from: int, steps: seq<RelayAuthorization.Step>)
    decreases |steps|
  {
    steps == []
    || (if steps[0].Authorize? then
          var c := steps[0].relay.turn;
          from <= c.read <= c.reset <= c.turn && ClockInOrder(c.turn, steps[1..])
        else ClockInOrder(from, steps[1..]))
  }

  /** How many relays of one identity are allowed with their turn in [t, t + 60s). */
  function AllowedSpan(s: Auth, steps: seq<RelayAuthorization.Step>, id: Id, t: int): nat
    decreases |steps|
  {
    if steps == [] then 0
    else
      (if steps[0].Authorize? && steps[0].relay.token.id == id && Decision(s, steps[0].relay).Allowed?
          && t <= steps[0].relay.turn.turn < t + MINUTE then 1 else 0)
      + AllowedSpan(RelayAuthorization.Next(s, steps[0]), steps[1..], id, t)
  }

  /** The calls of one identity that reach its rate limiter. */
  function Turns(s: Auth, steps: seq<RelayAuthorization.Step>, id: Id): seq<Call>
    decreases |steps|
  {
    if steps == [] then []
    else
      (if steps[0].Authorize? && steps[0].relay.token.id == id && Screened(s, steps[0].relay).Allowed?
       then [steps[0].relay.turn] else [])
      + Turns(RelayAuthorization.Next(s, steps[0]), steps[1..], id)
  }

  /** A revoked identity never reaches the limiter again. */
  lemma {:induction false} RevokedIsSilent(s: Auth, steps: seq<RelayAuthorization.Step>, id: Id, t: int)
    requires Invariant(s) && id in s.revoked
    ensures AllowedSpan(s, steps, id, t) == 0 && Turns(s, steps, id) == []
    decreases |steps|
  {
    if steps != [] {
      RelayAuthorization.StepKeeps(s, steps[0]);
      assert id in RelayAuthorization.Next(s, steps[0]).revoked.Keys;
      RevokedIsSilent(RelayAuthorization.Next(s, steps[0]), steps[1..], id, t);
    }
  }

  /** What one step does to a registered identity: a screened relay moves its limiter, a revocation ends it. */
  lemma StepOnIdentity(s: Auth, step: RelayAuthorization.Step, id: Id)
    requires Invariant(s) && id in s.identities
    ensures var t := RelayAuthorization.Next(s, step);
            if id !in t.identities then id in t.revoked
            else t.identities[id].limiter
                 == if step.Authorize? && step.relay.token.id == id && Screened(s, step.relay).Allowed?
                    then After(s.identities[id].limiter, step.relay.turn) else s.identities[id].limiter
  {
    match step
    case Register(_, _) =>
    case Revoke(other, now) => RevokeEffect(s, other, now);
    case RevokeSession(session, now) => RevokeSessionEffect(s, session, now);
    case CleanupExpired(order, now) => RevokeAllEffect(s, order, now);
    case Authorize(relay) =>
  }

  /** While registered and not revoked, what the service allows is what the identity's limiter lets pass. */
  lemma {:induction false} AllowedIsPassed(s: Auth, steps: seq<RelayAuthorization.Step>, id: Id, t: int)
    requires Invariant(s) && id in s.identities && id !in s.revoked
    ensures AllowedSpan(s, steps, id, t) == PassedIn(s.identities[id].limiter, Turns(s, steps, id), t)
    decreases |steps|
  {
    if steps != [] {
      var step, rest := steps[0], steps[1..];
      var next := RelayAuthorization.Next(s, step);
      RelayAuthorization.StepKeeps(s, step);
      StepOnIdentity(s, step, id);
      NotRevokedBySide(s, step, id);
      var reached := step.Authorize? && step.relay.token.id == id && Screened(s, step.relay).Allowed?;
      if id in next.revoked {
        RevokedIsSilent(next, rest, id, t);
        assert Turns(s, steps, id) == [];
      } else {
        AllowedIsPassed(next, rest, id, t);
        if reached {
          assert Turns(s, steps, id) == [step.relay.turn] + Turns(next, rest, id);
          assert Turns(s, steps, id)[1..] == Turns(next, rest, id);
        } else {
          assert Turns(s, steps, id) == Turns(next, rest, id);
        }
      }
    }
  }

  /** A step that lets the identity reach its limiter does not revoke anyone. */
  lemma NotRevokedBySide(s: Auth, step: RelayAuthorization.Step, id: Id)
    requires id !in s.revoked
    ensures step.Authorize? || step.Register? ==> id !in RelayAuthorization.Next(s, step).revoked
  {
  }

  lemma InOrderEarlier(from: int, later: int, calls: seq<Call>)
    requires InOrder(later, calls) && from <= later
    ensures InOrder(from, calls)
  {
  }

  lemma {:induction false} TurnsInOrder(s: Auth, steps: seq<RelayAuthorization.Step>, id: Id, from: int)
    requires ClockInOrder(from, steps)
    ensures InOrder(from, Turns(s, steps, id))
    decreases |steps|
  {
    if steps != [] {
      var step, rest, next := steps[0], steps[1..], RelayAuthorization.Next(s, steps[0]);
      var after := if step.Authorize? then step.relay.turn.turn else from;
      TurnsInOrder(next, rest, id, after);
      var calls := Turns(next, rest, id);
      if step.Authorize? && step.relay.token.id == id && Screened(s, step.relay).Allowed? {
        assert ([step.relay.turn] + calls)[1..] == calls;
      } else {
        InOrderEarlier(from, after, calls);
        assert Turns(s, steps, id) == calls;
      }
    }
  }

  predicate RegisteredWithin(steps: seq<RelayAuthorization.Step>, id: Id, limit: nat) {
    forall i :: 0 <= i < |steps| && steps[i].Register? && steps[i].id == id ==> steps[i].who.limiter.limit <= limit
  }

  lemma {:induction false} UnregisteredBound(s: Auth, steps: seq<RelayAuthorization.Step>, id: Id, limit: nat, t: int, from: int)
    requires Invariant(s) && id !in s.identities
    requires ClockInOrder(from, steps) && RegisteredWithin(steps, id, limit)
    ensures AllowedSpan(s, steps, id, t) <= 2 * limit
    decreases |steps|
  {
    if steps != [] {
      var step, rest, next := steps[0], steps[1..], RelayAuthorization.Next(s, steps[0]);
      RelayAuthorization.StepKeeps(s, step);
      var after := if step.Authorize? then step.relay.turn.turn else from;
      assert RegisteredWithin(rest, id, limit) by {
        assert forall i :: 0 <= i < |rest| ==> rest[i] == steps[i + 1];
      }
      if id in next.identities {
        OnlyRegisterAdds(s, step, id);
        assert steps[0].who.limiter.limit <= limit;
        if id in next.revoked {
          RevokedIsSilent(next, rest, id, t);
        } else {
          AllowedIsPassed(next, rest, id, t);
          TurnsInOrder(next, rest, id, after);
          AtMostTwiceTheLimit(next.identities[id].limiter, Turns(next, rest, id), t, after);
        }
      } else {
        UnregisteredBound(next, rest, id, limit, t, after);
      }
    }
  }

  lemma OnlyRegisterAdds(s: Auth, step: RelayAuthorization.Step, id: Id)
    requires Invariant(s) && id !in s.identities && id in RelayAuthorization.Next(s, step).identities
    ensures step.Register? && step.id == id
    ensures RelayAuthorization.Next(s, step).identities[id] == step.who
  {
    match step
    case Register(_, _) =>
    case Revoke(other, now) => RevokeEffect(s, other, now);
    case RevokeSession(session, now) => RevokeSessionEffect(s, session, now);
    case CleanupExpired(order, now) => RevokeAllEffect(s, order, now);
    case Authorize(relay) =>
  }

  /**
    Over every run from the empty service, with any registrations, re-registrations, revocations and clean-ups in
    between, an identity is allowed at most twice its limit of relays in any half-open span of 60 seconds.
   */
  lemma RelaysWithinLimit(steps: seq<RelayAuthorization.Step>, id: Id, limit: nat, t: int, from: int)
    requires ClockInOrder(from, steps) && RegisteredWithin(steps, id, limit)
    ensures AllowedSpan(EMPTY, steps, id, t) <= 2 * limit
  {
    RunConsistent([]);
    UnregisteredBound(EMPTY, steps, id, limit, t, from);
  }

  // ---------------------------------------------------------------- the answer on the terms of a registration

  lemma {:induction false} RunFromFirst(s: Auth, steps: seq<RelayAuthorization.Step>)
    requires steps != []
    ensures Run(s, steps) == Run(RelayAuthorization.Next(s, steps[0]), steps[1..])
  {
    if |steps| == 1 {
      assert steps[..0] == [] && steps[1..] == [];
    } else {
      var front := steps[..|steps| - 1];
      RunFromFirst(s, front);
      assert front[1..] == steps[1..][..|steps[1..]| - 1];
    }
  }

  /** How many relays of one identity are allowed, and with how many bytes. */
  function AllowedBytes(s: Auth, steps: seq<RelayAuthorization.Step>, id: Id): (nat, nat)
    decreases |steps|
  {
    if steps == [] then (0, 0)
    else
      var (relays, bytes) := AllowedBytes(RelayAuthorization.Next(s, steps[0]), steps[1..], id);
      if steps[0].Authorize? && steps[0].relay.token.id == id && Decision(s, steps[0].relay).Allowed?
      then (relays + 1, bytes + steps[0].relay.payload) else (relays, bytes)
  }

  /** What one step leaves of a registered identity that it does not revoke. */
  lemma StepOnKept(s: Auth, step: RelayAuthorization.Step, id: Id)
    requires Invariant(s) && id in s.identities && id !in RelayAuthorization.Next(s, step).revoked
    ensures var t := RelayAuthorization.Next(s, step);
            && id in t.identities && SameTerms(t.identities[id], s.identities[id])
            && (var allowed := step.Authorize? && step.relay.token.id == id && Decision(s, step.relay).Allowed?;
                && t.identities[id].relays == s.identities[id].relays + (if allowed then 1 else 0)
                && t.identities[id].bytes == s.identities[id].bytes + (if allowed then step.relay.payload else 0))
  {
    StepOnIdentity(s, step, id);
    StepKeepsTerms(s, step, id);
    match step
    case Register(_, _) =>
    case Revoke(other, now) => RevokeEffect(s, other, now);
    case RevokeSession(session, clock) => RevokeSessionEffect(s, session, clock);
    case CleanupExpired(order, clock) => RevokeAllEffect(s, order, clock);
    case Authorize(relay) =>
  }

  /**
    An identity that is not on the revocation list after a run is still there, on its terms, with its limiter moved by
    exactly its own calls and with its own relays and bytes counted.
   */
  lemma {:induction false} KeptIdentity(s: Auth, steps: seq<RelayAuthorization.Step>, id: Id)
    requires Invariant(s) && id in s.identities && id !in Run(s, steps).revoked
    ensures var t := Run(s, steps);
            && id in t.identities && SameTerms(t.identities[id], s.identities[id])
            && t.identities[id].limiter == AfterAll(s.identities[id].limiter, Turns(s, steps, id))
            && t.identities[id].relays == s.identities[id].relays + AllowedBytes(s, steps, id).0
            && t.identities[id].bytes == s.identities[id].bytes + AllowedBytes(s, steps, id).1
    decreases |steps|
  {
    if steps != [] {
      var step, rest := steps[0], steps[1..];
      var next := RelayAuthorization.Next(s, step);
      RunFromFirst(s, steps);
      RelayAuthorization.StepKeeps(s, step);
      RelayAuthorization.RunKeeps(next, rest);
      assert id !in next.revoked.Keys;
      StepOnKept(s, step, id);
      StepOnIdentity(s, step, id);
      KeptIdentity(next, rest, id);
      TurnsFirst(s, steps, id);
    }
  }

  lemma TurnsFirst(s: Auth, steps: seq<RelayAuthorization.Step>, id: Id)
    requires steps != []
    ensures var step, later := steps[0], Turns(RelayAuthorization.Next(s, steps[0]), steps[1..], id);
            if step.Authorize? && step.relay.token.id == id && Screened(s, step.relay).Allowed?
            then Turns(s, steps, id) != [] && Turns(s, steps, id)[0] == step.relay.turn && Turns(s, steps, id)[1..] == later
            else Turns(s, steps, id) == later
  {
  }

  /** The limiter of the registration lets no further call pass. */
  predicate WindowFull(l: Limiter, calls: seq<Call>, c: Call) {
    (if c.read - AfterAll(l, calls).windowStart >= MINUTE then 0 else PassedSinceRestart(l, calls, 0)) >= l.limit
  }

  /**
    The answer to a relay in any run in which its id was registered and is not revoked, in full: what the first term of
    the token or of the registration that it fails gives, and otherwise a permit with the registration's priority.
   */
  lemma AnswerOnTerms(before: seq<RelayAuthorization.Step>, id: Id, who: Identity, later: seq<RelayAuthorization.Step>, r: Relay)
    requires id !in Run(EMPTY, before).identities && who.limiter.requests == 0 && r.token.id == id
    requires id !in Run(RelayAuthorization.Next(Run(EMPTY, before), Register(id, who)), later).revoked
    ensures var s := RelayAuthorization.Next(Run(EMPTY, before), Register(id, who));
            Answer(Run(s, later), r)
            == if r.verifyAt >= r.token.expiresAt then Refused(AuthFailed)
               else if !r.token.signed then Refused(InvalidSignature)
               else if r.checkAt >= who.expiresAt then Refused(AuthFailed)
               else if who.targets != {} && r.target !in who.targets then Refused(AccessDenied)
               else if r.payload > who.maxPayload then Refused(PayloadTooLarge)
               else if WindowFull(who.limiter, Turns(s, later, id), r.turn) then Refused(RateLimited)
               else Permit(id, r.token.sponsor, who.priority)
  {
    var s := RelayAuthorization.Next(Run(EMPTY, before), Register(id, who));
    RunConsistent(before);
    RelayAuthorization.StepKeeps(Run(EMPTY, before), Register(id, who));
    KeptIdentity(s, later, id);
    PassesIff(who.limiter, Turns(s, later, id), r.turn);
    CountsPassed(who.limiter, Turns(s, later, id), 0);
  }

  /** The answer for a revoked id, and for one that no step has registered. */
  lemma AnswerOtherwise(steps: seq<RelayAuthorization.Step>, r: Relay)
    requires r.verifyAt < r.token.expiresAt && r.token.signed
    ensures r.token.id in Run(EMPTY, steps).revoked ==> Answer(Run(EMPTY, steps), r) == Refused(AuthFailed)
    ensures r.token.id !in Run(EMPTY, steps).revoked
            && (forall i :: 0 <= i < |steps| && steps[i].Register? ==> steps[i].id != r.token.id)
            ==> Answer(Run(EMPTY, steps), r) == Refused(NotFound)
  {
    if r.token.id in Run(EMPTY, steps).identities {
      var i := ActiveWasRegistered(steps, r.token.id);
    }
  }
}
