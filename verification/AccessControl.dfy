/**
  Access control lists: conditional grants, the highest level an accessor is granted, and the budget of uses that
  check-then-record rounds spend.
 */
module AccessControl {
  import opened Sets

  const U64_MAX: nat := 0xffff_ffff_ffff_ffff

  type Key = nat
  type Digest = nat

  datatype Level = List | Read | Write | Admin | Owner {
    function Rank(): nat {
      match this
      case List => 0
      case Read => 1
      case Write => 2
      case Admin => 3
      case Owner => 4
    }
  }

  datatype Conditions = Conditions(expiresAt: Option<int>, maxUses: Option<nat>, currentUses: nat,
                                   networkCidr: Option<string>, passwordHash: Option<Digest>)

  datatype Grant =
    | IdentityGrant(key: Key, level: Level, conditions: Option<Conditions>)
    | LinkGrant(secretHash: Digest, level: Level, conditions: Option<Conditions>)
    | EmailGrant(email: string, level: Level, conditions: Option<Conditions>)

  datatype Accessor =
    | Identity(key: Key)
    | Link(secret: string, password: Option<string>)
    | Email(email: string)

  /** The circumstances of a request, with the hash function the service uses. */
  datatype Context = Context(now: int, network: Option<string>, password: Option<string>, hash: string -> Digest)

  // ---------------------------------------------------------------- conditions

  function BeforeSlash(cidr: string): string {
    if cidr == "" || cidr[0] == '/' then "" else [cidr[0]] + BeforeSlash(cidr[1..])
  }

  function TrimDotZero(s: string): string {
    if |s| >= 2 && s[|s| - 2..] == ".0" then TrimDotZero(s[..|s| - 2]) else s
  }

  /** The source's simplified match: the address starts with the network's digits. */
  predicate NetworkMatches(addr: string, cidr: string) {
    TrimDotZero(BeforeSlash(cidr)) <= addr
  }

  function Zeros(k: nat): string {
    if k == 0 then "" else Zeros(k - 1) + ".0"
  }

  lemma {:induction false} TrimsZeros(t: string, k: nat)
    requires !(|t| >= 2 && t[|t| - 2..] == ".0")
    ensures TrimDotZero(t + Zeros(k)) == t
  {
    if k == 0 {
      assert t + Zeros(0) == t;
    } else {
      var s := t + Zeros(k);
      assert s == (t + Zeros(k - 1)) + ".0";
      assert s[|s| - 2..] == ".0" && s[..|s| - 2] == t + Zeros(k - 1);
      TrimsZeros(t, k - 1);
    }
  }

  lemma {:induction false} CutsAtSlash(p: string, rest: string)
    requires '/' !in p && (rest == "" || rest[0] == '/')
    ensures BeforeSlash(p + rest) == p
  {
    if p == "" {
      assert p + rest == rest;
    } else {
      assert (p + rest)[1..] == p[1..] + rest;
      CutsAtSlash(p[1..], rest);
      assert [p[0]] + p[1..] == p;
    }
  }

  /** A network is its digits, any number of trailing zeros, and a suffix from the slash on; an address starts with the digits. */
  lemma NetworkMatchesIff(addr: string, digits: string, zeros: nat, suffix: string)
    requires '/' !in digits && !(|digits| >= 2 && digits[|digits| - 2..] == ".0")
    requires suffix == "" || suffix[0] == '/'
    ensures NetworkMatches(addr, digits + Zeros(zeros) + suffix) <==> digits <= addr
  {
    NoSlashInZeros(zeros);
    CutsAtSlash(digits + Zeros(zeros), suffix);
    TrimsZeros(digits, zeros);
  }

  lemma {:induction false} NoSlashInZeros(k: nat)
    ensures '/' !in Zeros(k)
  {
    if k > 0 {
      NoSlashInZeros(k - 1);
    }
  }

  predicate IsSatisfied(c: Conditions, x: Context) {
    && (c.expiresAt.Some? ==> x.now < c.expiresAt.value)
    && (c.maxUses.Some? ==> c.currentUses < c.maxUses.value)
    && (c.networkCidr.Some? ==> x.network.Some? && NetworkMatches(x.network.value, c.networkCidr.value))
    && (c.passwordHash.Some? ==> x.password.Some? && x.hash(x.password.value) == c.passwordHash.value)
  }

  /** Without restrictions a grant always holds, and each restriction set on it narrows it by exactly its own test. */
  lemma ConditionsCompose(c: Conditions, x: Context, at: int, uses: nat, cidr: string, password: string)
    ensures IsSatisfied(Conditions(None, None, c.currentUses, None, None), x)
    ensures IsSatisfied(c.(expiresAt := Some(at)), x) <==> x.now < at && IsSatisfied(c.(expiresAt := None), x)
    ensures IsSatisfied(c.(maxUses := Some(uses)), x) <==> c.currentUses < uses && IsSatisfied(c.(maxUses := None), x)
    ensures IsSatisfied(c.(networkCidr := Some(cidr)), x)
            <==> x.network.Some? && NetworkMatches(x.network.value, cidr) && IsSatisfied(c.(networkCidr := None), x)
    ensures IsSatisfied(c.(passwordHash := Some(x.hash(password))), x)
            <==> x.password.Some? && x.hash(x.password.value) == x.hash(password) && IsSatisfied(c.(passwordHash := None), x)
  {
  }

  predicate Satisfied(g: Grant, x: Context) {
    g.conditions.None? || IsSatisfied(g.conditions.value, x)
  }

  function RecordUse(c: Conditions): Conditions {
    c.(currentUses := if c.currentUses < U64_MAX then c.currentUses + 1 else c.currentUses)
  }

  predicate Matches(a: Accessor, g: Grant, hash: string -> Digest) {
    match (a, g)
    case (Identity(key), IdentityGrant(k, _, _)) => key == k
    case (Link(secret, _), LinkGrant(h, _, _)) => hash(secret) == h
    case (Email(email), EmailGrant(e, _, _)) => email == e
    case _ => false
  }

  /** A link may carry its own password, which goes before the general one when access is checked. */
  function CheckedWith(a: Accessor, x: Context): Context {
    if a.Link? && a.password.Some? then x.(password := a.password) else x
  }

  /** The grant counts for the accessor when access is checked. */
  predicate Grants(g: Grant, a: Accessor, x: Context) {
    Matches(a, g, x.hash) && Satisfied(g, CheckedWith(a, x))
  }

  /** The grant is charged for the accessor when a use is recorded: a link's own password is not looked at. */
  predicate Chargeable(g: Grant, a: Accessor, x: Context) {
    Matches(a, g, x.hash) && Satisfied(g, x)
  }

  // ---------------------------------------------------------------- the level

  /** The highest level among the grants that count, if there is one. */
  ghost predicate IsHighest(grants: seq<Grant>, a: Accessor, x: Context, r: Option<Level>) {
    && (r.None? <==> forall i :: 0 <= i < |grants| ==> !Grants(grants[i], a, x))
    && (r.Some? ==>
          && (exists i :: 0 <= i < |grants| && Grants(grants[i], a, x) && grants[i].level == r.value)
          && (forall i :: 0 <= i < |grants| && Grants(grants[i], a, x) ==> grants[i].level.Rank() <= r.value.Rank()))
  }

  /** Access is given exactly when some grant that counts has at least the required level. */
  ghost predicate HasAccess(grants: seq<Grant>, a: Accessor, required: Level, x: Context) {
    exists i :: 0 <= i < |grants| && Grants(grants[i], a, x) && required.Rank() <= grants[i].level.Rank()
  }

  lemma HighestDecides(grants: seq<Grant>, a: Accessor, required: Level, x: Context, r: Option<Level>)
    requires IsHighest(grants, a, x, r)
    ensures HasAccess(grants, a, required, x) <==> r.Some? && required.Rank() <= r.value.Rank()
  {
  }

  /** Levels include all lower ones: List, Read, Write, Admin, Owner. */
  lemma LevelOrder(a: Level, b: Level)
    ensures a.Rank() <= b.Rank() <==>
              a == b || a == List || b == Owner || (a == Read && b != List) || (a == Write && b == Admin)
  {
  }

  /** A new grant gives its level and all lower ones to exactly the accessor it names, while its conditions hold. */
  lemma GrantGives(grants: seq<Grant>, g: Grant, b: Accessor, required: Level, x: Context)
    ensures HasAccess(grants + [g], b, required, x) <==>
              || HasAccess(grants, b, required, x)
              || (&& required.Rank() <= g.level.Rank()
                  && (match b
                      case Identity(key) => g.IdentityGrant? && g.key == key && Satisfied(g, x)
                      case Email(email) => g.EmailGrant? && g.email == email && Satisfied(g, x)
                      case Link(secret, password) =>
                        && g.LinkGrant? && g.secretHash == x.hash(secret)
                        && Satisfied(g, if password.Some? then x.(password := password) else x)))
  {
    var more := grants + [g];
    if HasAccess(grants, b, required, x) {
      var i :| 0 <= i < |grants| && Grants(grants[i], b, x) && required.Rank() <= grants[i].level.Rank();
      assert more[i] == grants[i];
    }
    assert more[|grants|] == g;
  }

  // ---------------------------------------------------------------- revoking

  datatype Target = ToIdentity(key: Key) | ToLink(secretHash: Digest) | ToEmail(email: string)

  predicate Aimed(t: Target, g: Grant) {
    match (t, g)
    case (ToIdentity(key), IdentityGrant(k, _, _)) => key == k
    case (ToLink(h), LinkGrant(k, _, _)) => h == k
    case (ToEmail(e), EmailGrant(f, _, _)) => e == f
    case _ => false
  }

  function Retained(grants: seq<Grant>, t: Target): (r: seq<Grant>)
    ensures |r| <= |grants|
  {
    if grants == [] then [] else
      var front, last := Retained(grants[..|grants| - 1], t), grants[|grants| - 1];
      if Aimed(t, last) then front else front + [last]
  }

  lemma {:induction false} RetainedExactly(grants: seq<Grant>, t: Target, g: Grant)
    ensures g in Retained(grants, t) <==> g in grants && !Aimed(t, g)
  {
    if grants != [] {
      var front, last := grants[..|grants| - 1], grants[|grants| - 1];
      assert grants == front + [last];
      RetainedExactly(front, t, g);
    }
  }

  /** The grants that stay keep their order, and how often each of them occurs. */
  lemma {:induction false} RetainedConcat(a: seq<Grant>, b: seq<Grant>, t: Target)
    ensures Retained(a + b, t) == Retained(a, t) + Retained(b, t)
    ensures |b| == 1 ==> Retained(b, t) == if Aimed(t, b[0]) then [] else b
  {
    if b == [] {
      assert a + b == a;
    } else {
      var front := b[..|b| - 1];
      assert (a + b)[..|a + b| - 1] == a + front;
      RetainedConcat(a, front, t);
    }
  }

  predicate AimedAt(t: Target, a: Accessor, hash: string -> Digest) {
    match (t, a)
    case (ToIdentity(key), Identity(k)) => key == k
    case (ToLink(h), Link(secret, _)) => h == hash(secret)
    case (ToEmail(e), Email(f)) => e == f
    case _ => false
  }

  /** Revoking takes all access from the accessor it is aimed at, and none from any other. */
  lemma RevokeIsExact(grants: seq<Grant>, t: Target, a: Accessor, required: Level, x: Context)
    ensures HasAccess(Retained(grants, t), a, required, x)
            <==> !AimedAt(t, a, x.hash) && HasAccess(grants, a, required, x)
  {
    var kept := Retained(grants, t);
    forall g | Matches(a, g, x.hash) ensures Aimed(t, g) <==> AimedAt(t, a, x.hash) {
    }
    if HasAccess(kept, a, required, x) {
      var i :| 0 <= i < |kept| && Grants(kept[i], a, x) && required.Rank() <= kept[i].level.Rank();
      RetainedExactly(grants, t, kept[i]);
      var j :| 0 <= j < |grants| && grants[j] == kept[i];
    }
    if !AimedAt(t, a, x.hash) && HasAccess(grants, a, required, x) {
      var i :| 0 <= i < |grants| && Grants(grants[i], a, x) && required.Rank() <= grants[i].level.Rank();
      RetainedExactly(grants, t, grants[i]);
      var j :| 0 <= j < |kept| && kept[j] == grants[i];
    }
  }

  // ---------------------------------------------------------------- recording a use

  function Charged(g: Grant): Grant {
    if g.conditions.None? then g else g.(conditions := Some(RecordUse(g.conditions.value)))
  }

  /** The first grant that can be charged is charged. */
  function Recorded(grants: seq<Grant>, a: Accessor, x: Context): seq<Grant> {
    if grants == [] then []
    else if Chargeable(grants[0], a, x) then [Charged(grants[0])] + grants[1..]
    else [grants[0]] + Recorded(grants[1..], a, x)
  }

  lemma {:induction false} RecordedAt(grants: seq<Grant>, i: nat, a: Accessor, x: Context)
    requires i <= |grants| && forall j :: 0 <= j < i ==> !Chargeable(grants[j], a, x)
    requires i < |grants| ==> Chargeable(grants[i], a, x)
    ensures Recorded(grants, a, x) == if i < |grants| then grants[i := Charged(grants[i])] else grants
  {
    if i > 0 {
      RecordedAt(grants[1..], i - 1, a, x);
    }
  }

  /** A charge changes the number of uses and nothing else, so it never makes a grant hold where it did not before. */
  lemma ChargedNarrows(g: Grant, b: Accessor, y: Context)
    ensures Charged(g).level == g.level
    ensures Grants(Charged(g), b, y) ==> Grants(g, b, y)
    ensures g.conditions.None? || !LastUse(g) ==> (Grants(Charged(g), b, y) <==> Grants(g, b, y))
  {
  }

  /** The charge about to be made uses the grant up. */
  predicate LastUse(g: Grant) {
    g.conditions.Some? && g.conditions.value.maxUses.Some? && g.conditions.value.currentUses + 1 >= g.conditions.value.maxUses.value
  }

  /** The first grant that can be charged, if there is one. */
  lemma {:induction false} FirstChargeable(grants: seq<Grant>, a: Accessor, x: Context) returns (i: nat)
    ensures i <= |grants| && forall j :: 0 <= j < i ==> !Chargeable(grants[j], a, x)
    ensures i < |grants| ==> Chargeable(grants[i], a, x)
  {
    i := 0;
    while i < |grants| && !Chargeable(grants[i], a, x)
      invariant i <= |grants| && forall j :: 0 <= j < i ==> !Chargeable(grants[j], a, x)
    {
      i := i + 1;
    }
  }

  /** Recording a use for anyone gives no one access that they did not have. */
  lemma RecordNeverWidens(grants: seq<Grant>, a: Accessor, x: Context, b: Accessor, required: Level, y: Context)
    ensures HasAccess(Recorded(grants, a, x), b, required, y) ==> HasAccess(grants, b, required, y)
  {
    var i := FirstChargeable(grants, a, x);
    RecordedAt(grants, i, a, x);
    var next := Recorded(grants, a, x);
    if HasAccess(next, b, required, y) {
      var j :| 0 <= j < |next| && Grants(next[j], b, y) && required.Rank() <= next[j].level.Rank();
      ChargedNarrows(grants[j], b, y);
    }
  }

  /** And it takes no access from anyone, unless it is the last use of a grant. */
  lemma RecordKeepsAccess(grants: seq<Grant>, i: nat, a: Accessor, x: Context, b: Accessor, required: Level, y: Context)
    requires i < |grants| && Chargeable(grants[i], a, x) && forall j :: 0 <= j < i ==> !Chargeable(grants[j], a, x)
    requires !LastUse(grants[i])
    ensures HasAccess(Recorded(grants, a, x), b, required, y) <==> HasAccess(grants, b, required, y)
  {
    RecordedAt(grants, i, a, x);
    RecordNeverWidens(grants, a, x, b, required, y);
    var next := Recorded(grants, a, x);
    if HasAccess(grants, b, required, y) {
      var j :| 0 <= j < |grants| && Grants(grants[j], b, y) && required.Rank() <= grants[j].level.Rank();
      ChargedNarrows(grants[j], b, y);
      assert Grants(next[j], b, y);
    }
  }

  /** The grant has expired or is used up. */
  predicate Spent(g: Grant, now: int) {
    g.conditions.Some?
    && var c := g.conditions.value;
       (c.expiresAt.Some? && c.expiresAt.value <= now) || (c.maxUses.Some? && c.maxUses.value <= c.currentUses <= U64_MAX)
  }

  /** It gives no access and is charged no more, at any later time, and charging does not renew it. */
  lemma SpentForever(g: Grant, a: Accessor, now: int, x: Context)
    requires Spent(g, now)
    ensures now <= x.now ==> !Grants(g, a, x) && !Chargeable(g, a, x)
    ensures Spent(Charged(g), now)
  {
  }

  // ---------------------------------------------------------------- the budget

  predicate LimitedGrant(g: Grant) {
    g.conditions.Some? && g.conditions.value.maxUses.Some? && g.conditions.value.maxUses.value <= U64_MAX
  }

  /** Every grant that matches the accessor is limited to a number of uses. */
  predicate Limited(grants: seq<Grant>, a: Accessor, hash: string -> Digest) {
    forall i :: 0 <= i < |grants| && Matches(a, grants[i], hash) ==> LimitedGrant(grants[i])
  }

  function UsesLeft(g: Grant): nat {
    if g.conditions.Some? && g.conditions.value.maxUses.Some?
       && g.conditions.value.currentUses < g.conditions.value.maxUses.value
    then g.conditions.value.maxUses.value - g.conditions.value.currentUses
    else 0
  }

  /** The uses left over all grants that match the accessor. */
  function Budget(grants: seq<Grant>, a: Accessor, hash: string -> Digest): nat {
    if grants == [] then 0
    else (if Matches(a, grants[0], hash) then UsesLeft(grants[0]) else 0) + Budget(grants[1..], a, hash)
  }

  ghost predicate SomeChargeable(grants: seq<Grant>, a: Accessor, x: Context) {
    exists i :: 0 <= i < |grants| && Chargeable(grants[i], a, x)
  }

  lemma ChargedKeeps(g: Grant, a: Accessor, x: Context)
    ensures Matches(a, Charged(g), x.hash) <==> Matches(a, g, x.hash)
    ensures LimitedGrant(Charged(g)) <==> LimitedGrant(g)
    ensures Chargeable(g, a, x) && LimitedGrant(g) ==> UsesLeft(Charged(g)) == UsesLeft(g) - 1 && UsesLeft(g) > 0
  {
  }

  /** Recording spends exactly one use of the accessor's budget, if and only if some matching grant can be charged. */
  lemma {:induction false} RecordSpends(grants: seq<Grant>, a: Accessor, x: Context)
    requires Limited(grants, a, x.hash)
    ensures Limited(Recorded(grants, a, x), a, x.hash)
    ensures Budget(grants, a, x.hash)
            == Budget(Recorded(grants, a, x), a, x.hash) + if SomeChargeable(grants, a, x) then 1 else 0
  {
    if grants != [] {
      var next := Recorded(grants, a, x);
      ChargedKeeps(grants[0], a, x);
      if Chargeable(grants[0], a, x) {
        assert SomeChargeable(grants, a, x);
        assert next[1..] == grants[1..];
      } else {
        RecordSpends(grants[1..], a, x);
        assert next[1..] == Recorded(grants[1..], a, x);
        assert SomeChargeable(grants, a, x) <==> SomeChargeable(grants[1..], a, x) by {
          if i :| 0 <= i < |grants| && Chargeable(grants[i], a, x) {
            assert grants[1..][i - 1] == grants[i];
          }
          if i :| 0 <= i < |grants[1..]| && Chargeable(grants[1..][i], a, x) {
            assert grants[i + 1] == grants[1..][i];
          }
        }
      }
    }
  }

  /** An accessor without a password of its own that is let in can always be charged. */
  lemma AccessIsChargeable(grants: seq<Grant>, a: Accessor, required: Level, x: Context)
    requires HasAccess(grants, a, required, x) && CheckedWith(a, x) == x
    ensures SomeChargeable(grants, a, x)
  {
  }

  /** Two accessors that match different grants: charging one leaves the other's budget alone. */
  predicate Separate(a: Accessor, b: Accessor, hash: string -> Digest) {
    match (a, b)
    case (Identity(k), Identity(l)) => k != l
    case (Link(s, _), Link(t, _)) => hash(s) != hash(t)
    case (Email(e), Email(f)) => e != f
    case _ => true
  }

  lemma {:induction false} RecordOther(grants: seq<Grant>, a: Accessor, b: Accessor, x: Context)
    requires Separate(a, b, x.hash) && Limited(grants, a, x.hash)
    ensures Limited(Recorded(grants, b, x), a, x.hash)
    ensures Budget(Recorded(grants, b, x), a, x.hash) == Budget(grants, a, x.hash)
  {
    if grants != [] {
      var next := Recorded(grants, b, x);
      if Chargeable(grants[0], b, x) {
        assert next[1..] == grants[1..];
      } else {
        RecordOther(grants[1..], a, b, x);
        assert next[1..] == Recorded(grants[1..], b, x);
      }
    }
  }

  lemma {:induction false} RetainedBudget(grants: seq<Grant>, t: Target, a: Accessor, hash: string -> Digest)
    requires Limited(grants, a, hash)
    ensures Limited(Retained(grants, t), a, hash)
    ensures Budget(Retained(grants, t), a, hash) <= Budget(grants, a, hash)
  {
    if grants != [] {
      var front, last := grants[..|grants| - 1], grants[|grants| - 1];
      assert grants == front + [last];
      RetainedBudget(front, t, a, hash);
      BudgetSnoc(front, last, a, hash);
      BudgetSnoc(Retained(front, t), last, a, hash);
    }
  }

  lemma {:induction false} BudgetSnoc(grants: seq<Grant>, g: Grant, a: Accessor, hash: string -> Digest)
    ensures Budget(grants + [g], a, hash) == Budget(grants, a, hash) + if Matches(a, g, hash) then UsesLeft(g) else 0
  {
    if grants == [] {
      assert grants + [g] == [g];
    } else {
      assert (grants + [g])[1..] == grants[1..] + [g];
      BudgetSnoc(grants[1..], g, a, hash);
    }
  }

  // ---------------------------------------------------------------- runs

  /** A round checks access and, if it is given, records a use in the same circumstances. */
  datatype Event = Round(who: Accessor, required: Level, x: Context) | Revoke(t: Target) | Add(grant: Grant)

  ghost function After(grants: seq<Grant>, e: Event): seq<Grant> {
    match e
    case Round(b, required, x) => if HasAccess(grants, b, required, x) then Recorded(grants, b, x) else grants
    case Revoke(t) => Retained(grants, t)
    case Add(g) => grants + [g]
  }

  ghost function Final(grants: seq<Grant>, events: seq<Event>): seq<Grant>
    decreases |events|
  {
    if events == [] then grants else Final(After(grants, events[0]), events[1..])
  }

  /** A round of the accessor, or of another link with the same secret, in which access is given. */
  ghost predicate Success(grants: seq<Grant>, e: Event, a: Accessor, hash: string -> Digest) {
    e.Round? && !Separate(a, e.who, hash) && HasAccess(grants, e.who, e.required, e.x)
  }

  ghost function Successes(grants: seq<Grant>, events: seq<Event>, a: Accessor, hash: string -> Digest): nat
    decreases |events|
  {
    if events == [] then 0
    else
      (if Success(grants, events[0], a, hash) then 1 else 0) + Successes(After(grants, events[0]), events[1..], a, hash)
  }

  /** Those for which no grant could be charged. */
  ghost function Unpaid(grants: seq<Grant>, events: seq<Event>, a: Accessor, hash: string -> Digest): nat
    decreases |events|
  {
    if events == [] then 0
    else
      (if Success(grants, events[0], a, hash) && !SomeChargeable(grants, events[0].who, events[0].x) then 1 else 0)
      + Unpaid(After(grants, events[0]), events[1..], a, hash)
  }

  /** The event uses the given hash function, and gives the accessor no unlimited grant. */
  ghost predicate Fits(e: Event, a: Accessor, hash: string -> Digest) {
    && (e.Round? ==> e.x.hash == hash)
    && (e.Add? && Matches(a, e.grant, hash) ==> LimitedGrant(e.grant))
  }

  /** The uses a new grant brings. */
  function Gained(e: Event, a: Accessor, hash: string -> Digest): nat {
    if e.Add? && Matches(a, e.grant, hash) then UsesLeft(e.grant) else 0
  }

  function GainedIn(events: seq<Event>, a: Accessor, hash: string -> Digest): nat {
    if events == [] then 0 else Gained(events[0], a, hash) + GainedIn(events[1..], a, hash)
  }

  /** Accessors that are not separate match the same grants, so they share one budget. */
  lemma {:induction false} SharedBudget(grants: seq<Grant>, a: Accessor, b: Accessor, hash: string -> Digest)
    requires !Separate(a, b, hash)
    ensures Limited(grants, a, hash) <==> Limited(grants, b, hash)
    ensures Budget(grants, a, hash) == Budget(grants, b, hash)
  {
    assert forall g :: Matches(a, g, hash) <==> Matches(b, g, hash);
    if grants != [] {
      SharedBudget(grants[1..], a, b, hash);
    }
  }

  lemma RoundSpends(grants: seq<Grant>, e: Event, a: Accessor, hash: string -> Digest)
    requires Limited(grants, a, hash) && Success(grants, e, a, hash) && e.x.hash == hash
    ensures Limited(After(grants, e), a, hash)
    ensures Budget(After(grants, e), a, hash) + (if SomeChargeable(grants, e.who, e.x) then 1 else 0)
            == Budget(grants, a, hash)
  {
    SharedBudget(grants, a, e.who, hash);
    RecordSpends(grants, e.who, e.x);
    SharedBudget(After(grants, e), a, e.who, hash);
  }

  lemma AddGains(grants: seq<Grant>, g: Grant, a: Accessor, hash: string -> Digest)
    requires Limited(grants, a, hash) && (Matches(a, g, hash) ==> LimitedGrant(g))
    ensures Limited(grants + [g], a, hash)
    ensures Budget(grants + [g], a, hash) == Budget(grants, a, hash) + Gained(Add(g), a, hash)
  {
    BudgetSnoc(grants, g, a, hash);
  }

  lemma EventSpends(grants: seq<Grant>, e: Event, a: Accessor, hash: string -> Digest)
    requires Limited(grants, a, hash) && Fits(e, a, hash)
    ensures Limited(After(grants, e), a, hash)
    ensures var spent := if Success(grants, e, a, hash) && SomeChargeable(grants, e.who, e.x) then 1 else 0;
            && Budget(After(grants, e), a, hash) + spent <= Budget(grants, a, hash) + Gained(e, a, hash)
            && (!e.Revoke? ==> Budget(After(grants, e), a, hash) + spent == Budget(grants, a, hash) + Gained(e, a, hash))
  {
    match e
    case Revoke(t) => RetainedBudget(grants, t, a, hash);
    case Add(g) => AddGains(grants, g, a, hash);
    case Round(b, required, x) =>
      if Success(grants, e, a, hash) {
        RoundSpends(grants, e, a, hash);
      } else if HasAccess(grants, b, required, x) {
        RecordOther(grants, a, b, x);
      }
  }

  /**
    If every grant that matches the accessor is limited, every successful round that is not unpaid uses up one use: over
    any run, with anyone's rounds, new grants and revocations in between, paid successes and remaining uses never exceed
    the uses granted, and without revocations they are exactly the uses granted.
   */
  lemma {:induction false} BudgetIsSpent(grants: seq<Grant>, events: seq<Event>, a: Accessor, hash: string -> Digest)
    requires Limited(grants, a, hash) && forall i :: 0 <= i < |events| ==> Fits(events[i], a, hash)
    ensures Successes(grants, events, a, hash) + Budget(Final(grants, events), a, hash)
            <= Budget(grants, a, hash) + GainedIn(events, a, hash) + Unpaid(grants, events, a, hash)
    ensures (forall i :: 0 <= i < |events| ==> !events[i].Revoke?) ==>
              Successes(grants, events, a, hash) + Budget(Final(grants, events), a, hash)
              == Budget(grants, a, hash) + GainedIn(events, a, hash) + Unpaid(grants, events, a, hash)
    decreases |events|
  {
    if events != [] {
      EventSpends(grants, events[0], a, hash);
      assert forall i :: 0 <= i < |events[1..]| ==> events[1..][i] == events[i + 1];
      BudgetIsSpent(After(grants, events[0]), events[1..], a, hash);
    }
  }

  /** No round of an accessor without a password of its own is unpaid. */
  lemma {:induction false} NoneUnpaid(grants: seq<Grant>, events: seq<Event>, a: Accessor, hash: string -> Digest)
    requires forall i :: 0 <= i < |events| && events[i].Round? && !Separate(a, events[i].who, hash) ==>
               !(events[i].who.Link? && events[i].who.password.Some?)
    ensures Unpaid(grants, events, a, hash) == 0
    decreases |events|
  {
    if events != [] {
      var e := events[0];
      if Success(grants, e, a, hash) {
        AccessIsChargeable(grants, e.who, e.required, e.x);
      }
      assert forall i :: 0 <= i < |events[1..]| ==> events[1..][i] == events[i + 1];
      NoneUnpaid(After(grants, e), events[1..], a, hash);
    }
  }

  /** All grants that match the accessor are spent. */
  predicate AllSpent(grants: seq<Grant>, a: Accessor, hash: string -> Digest, now: int) {
    forall i :: 0 <= i < |grants| && Matches(a, grants[i], hash) ==> Spent(grants[i], now)
  }

  lemma {:induction false} RecordedSpent(grants: seq<Grant>, b: Accessor, x: Context, a: Accessor, hash: string -> Digest, now: int)
    requires AllSpent(grants, a, hash, now) && x.hash == hash
    ensures AllSpent(Recorded(grants, b, x), a, hash, now)
  {
    if grants != [] {
      var next := Recorded(grants, b, x);
      ChargedKeeps(grants[0], a, x);
      if Chargeable(grants[0], b, x) {
        assert next[1..] == grants[1..];
        if Matches(a, grants[0], hash) {
          SpentForever(grants[0], a, now, x);
        }
      } else {
        RecordedSpent(grants[1..], b, x, a, hash, now);
        assert next[1..] == Recorded(grants[1..], b, x);
      }
      assert forall i :: 0 < i < |next| ==> next[i] == next[1..][i - 1];
    }
  }

  lemma RetainedSpent(grants: seq<Grant>, t: Target, a: Accessor, hash: string -> Digest, now: int)
    requires AllSpent(grants, a, hash, now)
    ensures AllSpent(Retained(grants, t), a, hash, now)
  {
    var kept := Retained(grants, t);
    forall i | 0 <= i < |kept| && Matches(a, kept[i], hash) ensures Spent(kept[i], now) {
      RetainedExactly(grants, t, kept[i]);
      var j :| 0 <= j < |grants| && grants[j] == kept[i];
    }
  }

  /** The event is not earlier than `now`, uses the hash function, and gives the accessor no new grant. */
  ghost predicate NothingNew(e: Event, a: Accessor, hash: string -> Digest, now: int) {
    && (e.Round? ==> e.x.hash == hash && now <= e.x.now)
    && (e.Add? ==> !Matches(a, e.grant, hash))
  }

  /** Once all its grants are spent, an accessor is never let in again, whatever others do, unless it is given a new one. */
  lemma {:induction false} SpentStaysOut(grants: seq<Grant>, events: seq<Event>, a: Accessor, hash: string -> Digest, now: int)
    requires AllSpent(grants, a, hash, now) && forall i :: 0 <= i < |events| ==> NothingNew(events[i], a, hash, now)
    ensures Successes(grants, events, a, hash) == 0
    decreases |events|
  {
    if events != [] {
      var e := events[0];
      assert NothingNew(e, a, hash, now);
      NoSuccess(grants, e, a, hash, now);
      match e {
        case Round(b, _, x) => RecordedSpent(grants, b, x, a, hash, now);
        case Revoke(t) => RetainedSpent(grants, t, a, hash, now);
        case Add(g) =>
      }
      assert forall i :: 0 <= i < |events[1..]| ==> events[1..][i] == events[i + 1];
      SpentStaysOut(After(grants, e), events[1..], a, hash, now);
    }
  }

  lemma NoSuccess(grants: seq<Grant>, e: Event, a: Accessor, hash: string -> Digest, now: int)
    requires AllSpent(grants, a, hash, now) && NothingNew(e, a, hash, now)
    ensures !Success(grants, e, a, hash)
  {
    if Success(grants, e, a, hash) {
      var i :| 0 <= i < |grants| && Grants(grants[i], e.who, e.x) && e.required.Rank() <= grants[i].level.Rank();
      assert Matches(a, grants[i], hash);
      SpentForever(grants[i], e.who, now, e.x);
    }
  }

  /** The grants given in a run, in order. */
  function GivenIn(events: seq<Event>): seq<Grant> {
    if events == [] then [] else (if events[0].Add? then [events[0].grant] else []) + GivenIn(events[1..])
  }

  lemma AppendGives(grants: seq<Grant>, more: seq<Grant>, b: Accessor, required: Level, y: Context)
    ensures HasAccess(grants + more, b, required, y)
            <==> HasAccess(grants, b, required, y) || HasAccess(more, b, required, y)
  {
    var all := grants + more;
    if HasAccess(grants, b, required, y) {
      var i :| 0 <= i < |grants| && Grants(grants[i], b, y) && required.Rank() <= grants[i].level.Rank();
      assert all[i] == grants[i];
    }
    if HasAccess(more, b, required, y) {
      var i :| 0 <= i < |more| && Grants(more[i], b, y) && required.Rank() <= more[i].level.Rank();
      assert all[|grants| + i] == more[i];
    }
  }

  lemma EventNeverWidens(grants: seq<Grant>, e: Event, b: Accessor, required: Level, y: Context)
    ensures HasAccess(After(grants, e), b, required, y)
            ==> HasAccess(grants + (if e.Add? then [e.grant] else []), b, required, y)
  {
    if !e.Add? {
      assert grants + [] == grants;
    }
    match e
    case Round(a, _, x) => RecordNeverWidens(grants, a, x, b, required, y);
    case Revoke(t) => RevokeIsExact(grants, t, b, required, y);
    case Add(g) =>
  }

  /** Over any run of rounds, revocations and new grants, access comes only from the grants given before or in the run. */
  lemma {:induction false} RunNeverWidens(grants: seq<Grant>, events: seq<Event>, b: Accessor, required: Level, y: Context)
    ensures HasAccess(Final(grants, events), b, required, y) ==> HasAccess(grants + GivenIn(events), b, required, y)
    decreases |events|
  {
    if events == [] {
      assert grants + GivenIn(events) == grants;
    } else {
      var e, rest := events[0], events[1..];
      var first := if e.Add? then [e.grant] else [];
      assert grants + GivenIn(events) == (grants + first) + GivenIn(rest);
      RunNeverWidens(After(grants, e), rest, b, required, y);
      EventNeverWidens(grants, e, b, required, y);
      AppendGives(After(grants, e), GivenIn(rest), b, required, y);
      AppendGives(grants + first, GivenIn(rest), b, required, y);
    }
  }

  /** A link with its own password can be let in without being charged, as often as it likes. */
  lemma LinkPasswordExample(hash: string -> Digest)
    ensures var grants := [LinkGrant(hash("link"), Read, Some(Conditions(None, Some(1), 0, None, Some(hash("pw")))))];
            var a := Link("link", Some("pw"));
            var x := Context(0, None, None, hash);
            && Limited(grants, a, hash)
            && HasAccess(grants, a, Read, x)
            && Recorded(grants, a, x) == grants
  {
    var grants := [LinkGrant(hash("link"), Read, Some(Conditions(None, Some(1), 0, None, Some(hash("pw")))))];
    var a := Link("link", Some("pw"));
    var x := Context(0, None, None, hash);
    assert Grants(grants[0], a, x);
  }

  // ---------------------------------------------------------------- the list

  class AccessControlList {
    var grants: seq<Grant>

    constructor ()
      ensures grants == []
    {
      grants := [];
    }

    method AddGrant(g: Grant)
      modifies this
      ensures grants == After(old(grants), Add(g))
    {
      grants := grants + [g];
    }

    /** Revoke all grants for one identity, link or email; the number removed. */
    method RevokeTarget(t: Target) returns (removed: nat)
      modifies this
      ensures grants == Retained(old(grants), t) && removed == |old(grants)| - |grants|
    {
      var before := |grants|;
      var kept := [];
      for i := 0 to |grants|
        invariant grants == old(grants)
        invariant kept == Retained(grants[..i], t)
      {
        assert grants[..i + 1][..i] == grants[..i];
        if !Aimed(t, grants[i]) {
          kept := kept + [grants[i]];
        }
      }
      assert grants[..|grants|] == grants;
      grants := kept;
      removed := before - |grants|;
    }

    method GetAccessLevel(a: Accessor, x: Context) returns (r: Option<Level>)
      ensures IsHighest(grants, a, x, r)
    {
      r := None;
      for i := 0 to |grants|
        invariant IsHighest(grants[..i], a, x, r)
      {
        var g := grants[i];
        HighestStep(grants[..i], g, a, x, r);
        assert grants[..i + 1] == grants[..i] + [g];
        if !Matches(a, g, x.hash) {
          continue;
        }
        if g.LinkGrant? {
          var password := if a.Link? && a.password.Some? then a.password else x.password;
          if !Satisfied(g, x.(password := password)) {
            continue;
          }
        } else if !Satisfied(g, x) {
          continue;
        }
        r := Some(if r.None? || r.value.Rank() < g.level.Rank() then g.level else r.value);
      }
      assert grants[..|grants|] == grants;
    }

    method CheckAccess(a: Accessor, required: Level, x: Context) returns (ok: bool)
      ensures ok <==> HasAccess(grants, a, required, x)
    {
      var level := GetAccessLevel(a, x);
      HighestDecides(grants, a, required, x, level);
      ok := level.Some? && required.Rank() <= level.value.Rank();
    }

    method RecordAccess(a: Accessor, x: Context)
      modifies this
      ensures grants == Recorded(old(grants), a, x)
    {
      for i := 0 to |grants|
        invariant grants == old(grants)
        invariant forall j :: 0 <= j < i ==> !Chargeable(grants[j], a, x)
      {
        if Matches(a, grants[i], x.hash) && Satisfied(grants[i], x) {
          RecordedAt(grants, i, a, x);
          grants := grants[i := Charged(grants[i])];
          return;
        }
      }
      RecordedAt(grants, |grants|, a, x);
    }
  }

  lemma HighestStep(grants: seq<Grant>, g: Grant, a: Accessor, x: Context, r: Option<Level>)
    requires IsHighest(grants, a, x, r)
    ensures IsHighest(grants + [g], a, x,
              if !Grants(g, a, x) then r
              else Some(if r.None? || r.value.Rank() < g.level.Rank() then g.level else r.value))
  {
    var all := grants + [g];
    assert all[|grants|] == g;
    assert forall i :: 0 <= i < |grants| ==> all[i] == grants[i];
    if r.Some? {
      var i :| 0 <= i < |grants| && Grants(grants[i], a, x) && grants[i].level == r.value;
      assert all[i] == grants[i];
    }
  }
}
