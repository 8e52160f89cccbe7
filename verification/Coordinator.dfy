/**
  The hub coordinator: registrations, disconnects and heartbeats that give up the state lock while they wait for the
  Hub, in every interleaving of their locked sections.
 */
module Coordination {
  import opened Sets

  datatype Connection = Disconnected | Connecting | Connected | Failed

  /** What the Hub sends back to a request: a register response with an address, or something unexpected. */
  datatype Reply = Address(ip: nat) | Unexpected

  /** A registration that has begun: the key and version it set, and whether it has finished. */
  datatype Registration = Registration(key: nat, expected: nat, reply: Option<Reply>, finished: bool)

  /** The shared state, and the history of registrations in the order they began. */
  datatype State = State(connection: Connection, virtualIp: Option<nat>, publicKey: nat, lastHeartbeat: Option<nat>,
                         version: nat, begun: seq<Registration>)

  const INITIAL := State(Disconnected, None, 0, None, 0, [])

  /** The locked sections, and the arrival of a reply. */
  datatype Step =
    | Begin(key: nat)                 // first section of register
    | HubReplies(r: nat, reply: Reply)
    | Finish(r: nat, now: nat)        // second section of register
    | Acknowledge(now: nat)           // second section of heartbeat
    | Disconnect                      // second section of disconnect

  predicate Enabled(s: State, step: Step) {
    match step
    case Begin(_) => true
    case HubReplies(r, _) => r < |s.begun| && s.begun[r].reply == None
    case Finish(r, _) => r < |s.begun| && s.begun[r].reply.Some? && !s.begun[r].finished
    case Acknowledge(_) => true
    case Disconnect => true
  }

  /** The optimistic lock: has the version moved since registration `r` began? */
  predicate Undisturbed(s: State, r: nat)
    requires r < |s.begun|
  {
    s.version == s.begun[r].expected
  }

  function Next(s: State, step: Step): State
    requires Enabled(s, step)
  {
    match step
    case Begin(key) =>
      s.(connection := Connecting, publicKey := key, version := s.version + 1,
         begun := s.begun + [Registration(key, s.version + 1, None, false)])
    case HubReplies(r, reply) => s.(begun := s.begun[r := s.begun[r].(reply := Some(reply))])
    case Finish(r, now) =>
      var t := s.(begun := s.begun[r := s.begun[r].(finished := true)]);
      if !Undisturbed(s, r) then t
      else (match s.begun[r].reply.value
            case Address(ip) =>
              t.(virtualIp := Some(ip), connection := Connected, lastHeartbeat := Some(now), version := s.version + 1)
            case Unexpected => t.(connection := Failed, version := s.version + 1))
    case Acknowledge(now) => s.(lastHeartbeat := Some(now))
    case Disconnect => s.(connection := Disconnected, virtualIp := None, lastHeartbeat := None)
  }

  /** The result `register` returns from its second section: the address, if the registration took effect. */
  function Outcome(s: State, r: nat): Option<nat>
    requires r < |s.begun| && s.begun[r].reply.Some?
  {
    if Undisturbed(s, r) && s.begun[r].reply.value.Address? then Some(s.begun[r].reply.value.ip) else None
  }

  ghost predicate Earlier(s: State, i: int, j: int) {
    0 <= i < j < |s.begun| ==> s.begun[i].expected < s.begun[j].expected
  }

  ghost predicate Invariant(s: State) {
    && (forall i, j :: Earlier(s, i, j))
    && (s.begun == [] ==> s.connection == Disconnected)
    && (s.begun != [] ==>
          var latest := s.begun[|s.begun| - 1];
          && s.publicKey == latest.key
          && latest.expected <= s.version
          && (latest.finished <==> latest.expected < s.version)
          && (s.connection == Connected ==>
                latest.finished && latest.reply.Some? && latest.reply.value.Address?
                && s.virtualIp == Some(latest.reply.value.ip)))
    && (s.virtualIp.Some? ==> s.begun != [])
  }

  lemma StepKeeps(s: State, step: Step)
    requires Invariant(s) && Enabled(s, step)
    ensures Invariant(Next(s, step))
  {
    var t := Next(s, step);
    forall i, j ensures Earlier(t, i, j) {
      assert Earlier(s, i, j);
      assert Earlier(s, i, |s.begun| - 1);
    }
    if step.Finish? {
      assert Earlier(s, step.r, |s.begun| - 1);
    }
  }

  /** A registration finds its version undisturbed exactly when no other registration has begun since. */
  lemma UndisturbedIff(s: State, r: nat)
    requires Invariant(s) && r < |s.begun| && !s.begun[r].finished
    ensures Undisturbed(s, r) <==> r == |s.begun| - 1
  {
    assert Earlier(s, r, |s.begun| - 1);
  }

  // ---------------------------------------------------------------- runs

  ghost predicate IsRun(s: State, steps: seq<Step>)
    decreases |steps|
  {
    steps == [] || (Enabled(s, steps[0]) && IsRun(Next(s, steps[0]), steps[1..]))
  }

  ghost function Final(s: State, steps: seq<Step>): State
    requires IsRun(s, steps)
    decreases |steps|
  {
    if steps == [] then s else Final(Next(s, steps[0]), steps[1..])
  }

  lemma {:induction false} RunKeeps(s: State, steps: seq<Step>)
    requires Invariant(s) && IsRun(s, steps)
    ensures Invariant(Final(s, steps))
    decreases |steps|
  {
    if steps != [] {
      StepKeeps(s, steps[0]);
      RunKeeps(Next(s, steps[0]), steps[1..]);
    }
  }

  /**
    In every interleaving, a connected coordinator has the address the Hub sent to the registration that began last, and
    that registration's key.
   */
  lemma ConnectedIsLatest(steps: seq<Step>)
    requires IsRun(INITIAL, steps)
    ensures var s := Final(INITIAL, steps);
            s.connection == Connected ==>
              && s.begun != []
              && s.begun[|s.begun| - 1].reply.Some? && s.begun[|s.begun| - 1].reply.value.Address?
              && s.virtualIp == Some(s.begun[|s.begun| - 1].reply.value.ip)
              && s.publicKey == s.begun[|s.begun| - 1].key
  {
    RunKeeps(INITIAL, steps);
  }

  /**
    In every interleaving, a registration whose answer is ready takes effect if and only if no other registration has
    begun since and the Hub sent an address; one that is overtaken changes nothing but its own record.
   */
  lemma OvertakenNeverCommits(steps: seq<Step>, r: nat, now: nat)
    requires IsRun(INITIAL, steps) && Enabled(Final(INITIAL, steps), Finish(r, now))
    ensures var s := Final(INITIAL, steps);
            && (Outcome(s, r).Some? <==> r == |s.begun| - 1 && s.begun[r].reply.value.Address?)
            && (r < |s.begun| - 1 ==> Next(s, Finish(r, now)).(begun := s.begun) == s)
            && (Outcome(s, r).Some? ==> Next(s, Finish(r, now)).connection == Connected
                                        && Next(s, Finish(r, now)).virtualIp == Outcome(s, r))
  {
    RunKeeps(INITIAL, steps);
    UndisturbedIff(Final(INITIAL, steps), r);
  }

  // ---------------------------------------------------------------- what each section leaves, until the next one

  /** The second section of the registration that began last, which is the one that takes effect. */
  predicate Effective(s: State, step: Step) {
    step.Finish? && step.r == |s.begun| - 1
  }

  predicate BringsAddress(s: State, step: Step) {
    Effective(s, step) && s.begun[step.r].reply.Some? && s.begun[step.r].reply.value.Address?
  }

  /** The sections that change one field. */
  datatype Field = TheConnection | TheAddress | TheHeartbeat

  predicate Changes(s: State, step: Step, f: Field) {
    match f
    case TheConnection => step.Begin? || step.Disconnect? || Effective(s, step)
    case TheAddress => step.Disconnect? || BringsAddress(s, step)
    case TheHeartbeat => step.Acknowledge? || step.Disconnect? || BringsAddress(s, step)
  }

  predicate Same(s: State, t: State, f: Field) {
    match f
    case TheConnection => s.connection == t.connection
    case TheAddress => s.virtualIp == t.virtualIp
    case TheHeartbeat => s.lastHeartbeat == t.lastHeartbeat
  }

  /** No step of the run changes the field. */
  ghost predicate Leaves(s: State, steps: seq<Step>, f: Field)
    requires IsRun(s, steps)
    decreases |steps|
  {
    steps == [] || (!Changes(s, steps[0], f) && Leaves(Next(s, steps[0]), steps[1..], f))
  }

  lemma StepLeaves(s: State, step: Step, f: Field)
    requires Invariant(s) && Enabled(s, step) && !Changes(s, step, f)
    ensures Same(s, Next(s, step), f)
  {
    if step.Finish? {
      UndisturbedIff(s, step.r);
    }
  }

  lemma {:induction false} RunLeaves(s: State, steps: seq<Step>, f: Field)
    requires Invariant(s) && IsRun(s, steps) && Leaves(s, steps, f)
    ensures Same(s, Final(s, steps), f)
    decreases |steps|
  {
    if steps != [] {
      StepLeaves(s, steps[0], f);
      StepKeeps(s, steps[0]);
      RunLeaves(Next(s, steps[0]), steps[1..], f);
    }
  }

  /** The run goes through state `s` and the given step, and then through `later`. */
  ghost predicate Passes(steps: seq<Step>, s: State, step: Step, later: seq<Step>) {
    && IsRun(INITIAL, steps) && s == Final(INITIAL, steps)
    && Enabled(s, step) && IsRun(Next(s, step), later)
  }

  /**
    In every interleaving each field has the value set by the latest section that sets it: a registration that begins
    sets connecting; the end of the latest one sets connected, its address and the time, or failed; an acknowledged
    heartbeat sets the time; a disconnect sets disconnected, no address and no heartbeat.
   */
  lemma LatestSectionDecides(steps: seq<Step>, s: State, step: Step, later: seq<Step>)
    requires Passes(steps, s, step, later)
    ensures var t := Final(Next(s, step), later);
            Leaves(Next(s, step), later, TheConnection) ==>
              && (step.Begin? ==> t.connection == Connecting)
              && (Effective(s, step) ==> t.connection == if s.begun[step.r].reply.value.Address? then Connected else Failed)
              && (step.Disconnect? ==> t.connection == Disconnected)
    ensures var t := Final(Next(s, step), later);
            Leaves(Next(s, step), later, TheAddress) ==>
              && (BringsAddress(s, step) ==> t.virtualIp == Some(s.begun[step.r].reply.value.ip))
              && (step.Disconnect? ==> t.virtualIp == None)
    ensures var t := Final(Next(s, step), later);
            Leaves(Next(s, step), later, TheHeartbeat) ==>
              && (step.Acknowledge? || BringsAddress(s, step) ==> t.lastHeartbeat == Some(step.now))
              && (step.Disconnect? ==> t.lastHeartbeat == None)
  {
    RunKeeps(INITIAL, steps);
    StepKeeps(s, step);
    if step.Finish? {
      UndisturbedIff(s, step.r);
    }
    if Leaves(Next(s, step), later, TheConnection) {
      RunLeaves(Next(s, step), later, TheConnection);
    }
    if Leaves(Next(s, step), later, TheAddress) {
      RunLeaves(Next(s, step), later, TheAddress);
    }
    if Leaves(Next(s, step), later, TheHeartbeat) {
      RunLeaves(Next(s, step), later, TheHeartbeat);
    }
  }

  /** No registration takes effect with an address. */
  ghost predicate NoneConnects(s: State, steps: seq<Step>)
    requires IsRun(s, steps)
    decreases |steps|
  {
    steps == [] || (!BringsAddress(s, steps[0]) && NoneConnects(Next(s, steps[0]), steps[1..]))
  }

  lemma {:induction false} StaysApart(s: State, steps: seq<Step>)
    requires Invariant(s) && IsRun(s, steps) && NoneConnects(s, steps) && s.connection != Connected && s.virtualIp == None
    ensures Final(s, steps).connection != Connected && Final(s, steps).virtualIp == None
    decreases |steps|
  {
    if steps != [] {
      if steps[0].Finish? {
        UndisturbedIff(s, steps[0].r);
      }
      StepKeeps(s, steps[0]);
      StaysApart(Next(s, steps[0]), steps[1..]);
    }
  }

  /** After a disconnect the coordinator is not connected and has no address until a registration takes effect. */
  lemma DisconnectedUntilRegistered(steps: seq<Step>, s: State, later: seq<Step>)
    requires Passes(steps, s, Disconnect, later) && NoneConnects(Next(s, Disconnect), later)
    ensures var t := Final(Next(s, Disconnect), later);
            t.connection != Connected && t.virtualIp == None
  {
    RunKeeps(INITIAL, steps);
    StepKeeps(s, Disconnect);
    StaysApart(Next(s, Disconnect), later);
  }

  /** A disconnect does not move the version, so a registration does not notice one that completes while it waits. */
  lemma DisconnectGoesUnnoticed(key: nat, ip: nat, now: nat)
    ensures var steps := [Begin(key), HubReplies(0, Address(ip)), Disconnect, Finish(0, now)];
            && IsRun(INITIAL, steps)
            && Final(INITIAL, steps).connection == Connected
            && Final(INITIAL, steps).virtualIp == Some(ip)
  {
    var steps := [Begin(key), HubReplies(0, Address(ip)), Disconnect, Finish(0, now)];
    assert steps == [Begin(key)] + ([HubReplies(0, Address(ip))] + ([Disconnect] + ([Finish(0, now)] + [])));
    var s1 := Next(INITIAL, Begin(key));
    var s2 := Next(s1, HubReplies(0, Address(ip)));
    var s3 := Next(s2, Disconnect);
    RunCons(s3, Finish(0, now), []);
    RunCons(s2, Disconnect, [Finish(0, now)] + []);
    RunCons(s1, HubReplies(0, Address(ip)), [Disconnect] + ([Finish(0, now)] + []));
    RunCons(INITIAL, Begin(key), [HubReplies(0, Address(ip))] + ([Disconnect] + ([Finish(0, now)] + [])));
  }

  lemma RunCons(s: State, step: Step, rest: seq<Step>)
    requires Enabled(s, step) && IsRun(Next(s, step), rest)
    ensures IsRun(s, [step] + rest) && Final(s, [step] + rest) == Final(Next(s, step), rest)
  {
  }

  // ---------------------------------------------------------------- the locked sections

  /** The coordinator's shared fields; each method is one section under the write lock, and runs interleave freely. */
  class HubCoordinator {
    var connection: Connection
    var virtualIp: Option<nat>
    var publicKey: nat
    var lastHeartbeat: Option<nat>
    var version: nat
    /** The registrations begun so far, as the model records them. */
    ghost var begun: seq<Registration>

    ghost function Current(): State
      reads this
    {
      State(connection, virtualIp, publicKey, lastHeartbeat, version, begun)
    }

    constructor ()
      ensures Current() == INITIAL && Invariant(Current())
    {
      connection, virtualIp, publicKey, lastHeartbeat, version := Disconnected, None, 0, None, 0;
      begun := [];
    }

    method BeginRegister(key: nat) returns (expected: nat)
      requires Invariant(Current())
      modifies this
      ensures Current() == Next(old(Current()), Begin(key)) && Invariant(Current())
      ensures expected == version == begun[|begun| - 1].expected
    {
      StepKeeps(Current(), Begin(key));
      connection := Connecting;
      publicKey := key;
      version := version + 1;
      begun := begun + [Registration(key, version, None, false)];
      expected := version;
    }

    /** `r` names the registration this section belongs to, which remembers `expected` and has its `reply`. */
    method FinishRegister(ghost r: nat, expected: nat, reply: Reply, now: nat) returns (result: Option<nat>)
      requires Invariant(Current()) && Enabled(Current(), Finish(r, now))
      requires expected == begun[r].expected && begun[r].reply == Some(reply)
      modifies this
      ensures Current() == Next(old(Current()), Finish(r, now)) && Invariant(Current())
      ensures result == Outcome(old(Current()), r)
    {
      StepKeeps(Current(), Finish(r, now));
      begun := begun[r := begun[r].(finished := true)];
      match reply {
        case Address(ip) =>
          if version != expected {
            return None;
          }
          virtualIp := Some(ip);
          connection := Connected;
          lastHeartbeat := Some(now);
          version := version + 1;
          return Some(ip);
        case Unexpected =>
          if version == expected {
            connection := Failed;
            version := version + 1;
          }
          return None;
      }
    }

    method AcknowledgeHeartbeat(now: nat)
      requires Invariant(Current())
      modifies this
      ensures Current() == Next(old(Current()), Acknowledge(now)) && Invariant(Current())
    {
      StepKeeps(Current(), Acknowledge(now));
      lastHeartbeat := Some(now);
    }

    method AcknowledgeDisconnect()
      requires Invariant(Current())
      modifies this
      ensures Current() == Next(old(Current()), Disconnect) && Invariant(Current())
    {
      StepKeeps(Current(), Disconnect);
      connection := Disconnected;
      virtualIp := None;
      lastHeartbeat := None;
    }
  }
}
