/**
  The fixed-window rate limiter of relay requests: calls one after the other, and calls interleaved at their atomic
  steps, both against the clock. Times are in nanoseconds.
 */
module RateLimiting {
  import opened Sets

  const SECOND: nat := 1_000_000_000
  const MINUTE: nat := 60 * SECOND

  datatype Limiter = Limiter(requests: nat, windowStart: int, limit: nat) {
    /** How many more calls may pass before the next reset. */
    function Left(): nat { if requests < limit then limit - requests else 0 }
  }

  // ---------------------------------------------------------------- calls that do not overlap

  /** One call: when it reads the window, when it would restart it, and when it takes its turn. */
  datatype Call = Call(read: int, reset: int, turn: int)

  predicate Expired(l: Limiter, read: int) {
    read >= l.windowStart && (read - l.windowStart) / SECOND >= 60
  }

  function Restarted(l: Limiter, c: Call): Limiter {
    if Expired(l, c.read) then l.(requests := 0, windowStart := c.reset) else l
  }

  /** The limiter after the call; the call passes when it finds a count below the limit. */
  function After(l: Limiter, c: Call): Limiter {
    var m := Restarted(l, c);
    m.(requests := m.requests + 1)
  }

  predicate Passes(l: Limiter, c: Call) {
    Restarted(l, c).requests < l.limit
  }

  /** The clock does not run backwards, inside a call and from one call to the next. */
  predicate InOrder(from: int, calls: seq<Call>)
    decreases |calls|
  {
    calls == []
    || (from <= calls[0].read <= calls[0].reset <= calls[0].turn && InOrder(calls[0].turn, calls[1..]))
  }

  /** How many of the calls pass with their turn in [t, t + 60s). */
  function PassedIn(l: Limiter, calls: seq<Call>, t: int): nat
    decreases |calls|
  {
    if calls == [] then 0
    else
      (if Passes(l, calls[0]) && t <= calls[0].turn < t + MINUTE then 1 else 0)
      + PassedIn(After(l, calls[0]), calls[1..], t)
  }

  lemma ExpiredIsMinute(l: Limiter, read: int)
    ensures Expired(l, read) <==> read - l.windowStart >= MINUTE
  {
  }

  function AfterAll(l: Limiter, calls: seq<Call>): Limiter
    decreases |calls|
  {
    if calls == [] then l else AfterAll(After(l, calls[0]), calls[1..])
  }

  /** How many of the calls have passed since the latest restart of the window, with `passed` of them before. */
  function PassedSinceRestart(l: Limiter, calls: seq<Call>, passed: nat): nat
    decreases |calls|
  {
    if calls == [] then passed
    else
      var c := calls[0];
      PassedSinceRestart(After(l, c), calls[1..],
                         (if c.read - l.windowStart >= MINUTE then 0 else passed) + if Passes(l, c) then 1 else 0)
  }

  lemma {:induction false} CountsPassed(l: Limiter, calls: seq<Call>, passed: nat)
    requires passed == if l.requests < l.limit then l.requests else l.limit
    ensures var m := AfterAll(l, calls);
            m.limit == l.limit
            && PassedSinceRestart(l, calls, passed) == if m.requests < m.limit then m.requests else m.limit
    decreases |calls|
  {
    if calls != [] {
      ExpiredIsMinute(l, calls[0].read);
      CountsPassed(After(l, calls[0]), calls[1..],
                   (if calls[0].read - l.windowStart >= MINUTE then 0 else passed) + if Passes(l, calls[0]) then 1 else 0);
    }
  }

  /** A call is let through exactly when fewer than the limit have passed since the window it finds running started. */
  lemma PassesIff(l: Limiter, calls: seq<Call>, c: Call)
    requires l.requests == 0
    ensures Passes(AfterAll(l, calls), c) <==>
              (if c.read - AfterAll(l, calls).windowStart >= MINUTE then 0 else PassedSinceRestart(l, calls, 0)) < l.limit
  {
    CountsPassed(l, calls, 0);
    ExpiredIsMinute(AfterAll(l, calls), c.read);
  }

  /** After the span nothing counts any more. */
  lemma {:induction false} NoneAfter(l: Limiter, calls: seq<Call>, t: int, from: int)
    requires InOrder(from, calls) && from >= t + MINUTE
    ensures PassedIn(l, calls, t) == 0
    decreases |calls|
  {
    if calls != [] {
      NoneAfter(After(l, calls[0]), calls[1..], t, calls[0].turn);
    }
  }

  /** If the window started inside the span, the next reset comes after the span. */
  lemma {:induction false} OneWindow(l: Limiter, calls: seq<Call>, t: int, from: int)
    requires InOrder(from, calls) && t <= l.windowStart
    ensures PassedIn(l, calls, t) <= l.Left()
    decreases |calls|
  {
    if calls != [] {
      ExpiredIsMinute(l, calls[0].read);
      if Expired(l, calls[0].read) {
        NoneAfter(After(l, calls[0]), calls[1..], t, calls[0].turn);
      } else {
        OneWindow(After(l, calls[0]), calls[1..], t, calls[0].turn);
      }
    }
  }

  /** From the start of the span on, at most one reset matters. */
  lemma {:induction false} TwoWindows(l: Limiter, calls: seq<Call>, t: int, from: int)
    requires InOrder(from, calls) && t <= from
    ensures PassedIn(l, calls, t) <= l.Left() + l.limit
    decreases |calls|
  {
    if calls != [] {
      if Expired(l, calls[0].read) {
        OneWindow(After(l, calls[0]), calls[1..], t, calls[0].turn);
      } else {
        TwoWindows(After(l, calls[0]), calls[1..], t, calls[0].turn);
      }
    }
  }

  /** When calls do not overlap, at most twice the limit pass in any half-open span of 60 seconds. */
  lemma {:induction false} AtMostTwiceTheLimit(l: Limiter, calls: seq<Call>, t: int, from: int)
    requires InOrder(from, calls)
    ensures PassedIn(l, calls, t) <= 2 * l.limit
    decreases |calls|
  {
    if calls != [] {
      var next := After(l, calls[0]);
      if calls[0].turn < t {
        AtMostTwiceTheLimit(next, calls[1..], t, calls[0].turn);
      } else {
        TwoWindows(next, calls[1..], t, calls[0].turn);
      }
    }
  }

  /** Twice the limit is reached: one call just before the window turns over, one just after. */
  lemma TwiceTheLimitExample()
    ensures var l := Limiter(0, 0, 1);
            var calls := [Call(MINUTE - 1, MINUTE - 1, MINUTE - 1), Call(MINUTE, MINUTE, MINUTE)];
            InOrder(0, calls) && PassedIn(l, calls, MINUTE - 1) == 2
  {
    var l := Limiter(0, 0, 1);
    var first, second := Call(MINUTE - 1, MINUTE - 1, MINUTE - 1), Call(MINUTE, MINUTE, MINUTE);
    assert [first, second][1..] == [second] && [second][1..] == [];
    ExpiredIsMinute(l, first.read);
    ExpiredIsMinute(After(l, first), second.read);
    assert PassedIn(After(l, first), [second], MINUTE - 1) == 1;
    assert InOrder(first.turn, [second]);
  }

  class RelayRateLimiter {
    var requests: nat
    var windowStart: int
    const limit: nat

    ghost function State(): Limiter
      reads this
    {
      Limiter(requests, windowStart, limit)
    }

    constructor (limit: nat, now: int)
      ensures State() == Limiter(0, now, limit)
    {
      this.limit := limit;
      requests, windowStart := 0, now;
    }

    /** `read` and `reset` are the two clock readings the call makes; the second is used only on a restart. */
    method CheckRateLimit(read: int, reset: int) returns (ok: bool)
      modifies this
      ensures forall turn :: State() == After(old(State()), Call(read, reset, turn))
      ensures forall turn :: ok <==> Passes(old(State()), Call(read, reset, turn))
    {
      var elapsed := if read >= windowStart then read - windowStart else 0;
      if elapsed / SECOND >= 60 {
        requests := 0;
        windowStart := reset;
      }
      var current := requests;
      requests := requests + 1;
      ok := current < limit;
    }
  }

  // ---------------------------------------------------------------- calls interleaved at their atomic steps

  /**
    Calls in flight: `due` have found the window over, `writer` holds the lock on the window and has cleared the count,
    `ready` have only their turn left.
   */
  datatype Shared = Shared(limiter: Limiter, due: set<nat>, writer: Option<nat>, ready: set<nat>) {
    function InFlight(): nat { |due| + (if writer.Some? then 1 else 0) + |ready| }

    predicate Running(c: nat) { c in due || writer == Some(c) || c in ready }
  }

  function Idle(l: Limiter): Shared {
    Shared(l, {}, None, {})
  }

  datatype Step =
    | Read(call: nat, now: int)    // window_start.read() and elapsed(), under the read lock
    | Clear(call: nat, now: int)   // window_start.write(), then requests.store(0) with the lock held
    | Restart(call: nat, now: int) // *window_start = now, and the lock is released
    | Turn(call: nat, now: int)    // requests.fetch_add(1)

  /** `k` bounds the calls in flight. */
  predicate Enabled(s: Shared, step: Step, k: nat) {
    match step
    case Read(c, _) => s.writer.None? && !s.Running(c) && s.InFlight() < k
    case Clear(c, _) => s.writer.None? && c in s.due
    case Restart(c, _) => s.writer == Some(c)
    case Turn(c, _) => c in s.ready
  }

  function Next(s: Shared, step: Step): Shared {
    match step
    case Read(c, now) => if Expired(s.limiter, now) then s.(due := s.due + {c}) else s.(ready := s.ready + {c})
    case Clear(c, _) => s.(limiter := s.limiter.(requests := 0), due := s.due - {c}, writer := Some(c))
    case Restart(c, now) => s.(limiter := s.limiter.(windowStart := now), writer := None, ready := s.ready + {c})
    case Turn(c, _) => s.(limiter := s.limiter.(requests := s.limiter.requests + 1), ready := s.ready - {c})
  }

  /** Every step is enabled in the state before it, and the clock does not run backwards. */
  predicate IsRun(s: Shared, steps: seq<Step>, k: nat, from: int)
    decreases |steps|
  {
    steps == []
    || (from <= steps[0].now && Enabled(s, steps[0], k) && IsRun(Next(s, steps[0]), steps[1..], k, steps[0].now))
  }

  function Final(s: Shared, steps: seq<Step>): Shared
    decreases |steps|
  {
    if steps == [] then s else Final(Next(s, steps[0]), steps[1..])
  }

  predicate TurnPasses(s: Shared, step: Step) {
    step.Turn? && s.limiter.requests < s.limiter.limit
  }

  /** How many turns pass. */
  function PassedTurns(s: Shared, steps: seq<Step>): nat
    decreases |steps|
  {
    if steps == [] then 0
    else (if TurnPasses(s, steps[0]) then 1 else 0) + PassedTurns(Next(s, steps[0]), steps[1..])
  }

  /** How many of them in [t, t + 60s). */
  function PassedWithin(s: Shared, steps: seq<Step>, t: int): nat
    decreases |steps|
  {
    if steps == [] then 0
    else
      (if TurnPasses(s, steps[0]) && t <= steps[0].now < t + MINUTE then 1 else 0)
      + PassedWithin(Next(s, steps[0]), steps[1..], t)
  }

  /** The steps of one call that nothing interrupts. */
  function StepsOf(l: Limiter, call: Call, c: nat): seq<Step> {
    if Expired(l, call.read) then [Read(c, call.read), Clear(c, call.reset), Restart(c, call.reset), Turn(c, call.turn)]
    else [Read(c, call.read), Turn(c, call.turn)]
  }

  /** Calls that do not overlap are the special case of one call in flight. */
  lemma CallIsRun(l: Limiter, call: Call, c: nat, t: int)
    requires call.read <= call.reset <= call.turn
    ensures IsRun(Idle(l), StepsOf(l, call, c), 1, call.read)
    ensures Final(Idle(l), StepsOf(l, call, c)) == Idle(After(l, call))
    ensures PassedWithin(Idle(l), StepsOf(l, call, c), t) == PassedIn(l, [call], t)
  {
    var s := Idle(l);
    var done := Idle(After(l, call));
    var first, last := Read(c, call.read), Turn(c, call.turn);
    assert [call][1..] == [] && PassedIn(After(l, call), [], t) == 0;
    assert IsRun(done, [], 1, call.turn) && Final(done, []) == done && PassedWithin(done, [], t) == 0;
    if Expired(l, call.read) {
      var clear, restart := Clear(c, call.reset), Restart(c, call.reset);
      var s1 := Next(s, first);
      var s2 := Next(s1, clear);
      var s3 := Next(s2, restart);
      assert s1.due == {c} && s2.due == {} && s3.ready == {c} && Next(s3, last) == done;
      Prepend(s3, last, [], 1, t);
      Prepend(s2, restart, [last], 1, t);
      Prepend(s1, clear, [restart] + [last], 1, t);
      Prepend(s, first, [clear] + ([restart] + [last]), 1, t);
      assert StepsOf(l, call, c) == [first] + ([clear] + ([restart] + [last]));
    } else {
      var s1 := Next(s, first);
      assert s1.ready == {c} && Next(s1, last) == done;
      Prepend(s1, last, [], 1, t);
      Prepend(s, first, [last], 1, t);
      assert StepsOf(l, call, c) == [first] + [last];
    }
  }

  lemma Prepend(s: Shared, step: Step, rest: seq<Step>, k: nat, t: int)
    requires Enabled(s, step, k) && IsRun(Next(s, step), rest, k, step.now)
    ensures IsRun(s, [step] + rest, k, step.now)
    ensures Final(s, [step] + rest) == Final(Next(s, step), rest)
    ensures PassedWithin(s, [step] + rest, t)
            == (if TurnPasses(s, step) && t <= step.now < t + MINUTE then 1 else 0) + PassedWithin(Next(s, step), rest, t)
  {
    assert ([step] + rest)[1..] == rest;
    if rest == [] {
      assert [step] + rest == [step];
    }
  }

  predicate NoReset(steps: seq<Step>) {
    forall i :: 0 <= i < |steps| ==> !steps[i].Clear?
  }

  function CountTurns(steps: seq<Step>): nat {
    if steps == [] then 0 else (if steps[0].Turn? then 1 else 0) + CountTurns(steps[1..])
  }

  /**
    In every interleaving, whatever the calls in flight have read before, the turns that pass between two consecutive
    resets are exactly as many as are taken, up to what the limit has left: never more than the limit.
   */
  lemma {:induction false} AtMostLimitBetweenResets(s: Shared, steps: seq<Step>)
    requires NoReset(steps)
    ensures PassedTurns(s, steps) == if CountTurns(steps) < s.limiter.Left() then CountTurns(steps) else s.limiter.Left()
    ensures PassedTurns(s, steps) <= s.limiter.limit
    decreases |steps|
  {
    if steps != [] {
      assert !steps[0].Clear?;
      AtMostLimitBetweenResets(Next(s, steps[0]), steps[1..]);
    }
  }

  function Resets(steps: seq<Step>): nat {
    if steps == [] then 0 else (if steps[0].Clear? then 1 else 0) + Resets(steps[1..])
  }

  /** So any interleaving lets through at most one limit for each reset, beyond what was left at its start. */
  lemma {:induction false} AtMostLimitPerReset(s: Shared, steps: seq<Step>)
    ensures PassedTurns(s, steps) <= s.limiter.Left() + Resets(steps) * s.limiter.limit
    decreases |steps|
  {
    if steps != [] {
      var next, rest := Next(s, steps[0]), steps[1..];
      AtMostLimitPerReset(next, rest);
      assert (1 + Resets(rest)) * s.limiter.limit == s.limiter.limit + Resets(rest) * s.limiter.limit;
    }
  }

  // ---------------------------------------------------------------- the bound under concurrency

  lemma {:induction false} NothingAfter(s: Shared, steps: seq<Step>, k: nat, t: int, from: int)
    requires IsRun(s, steps, k, from) && from >= t + MINUTE
    ensures PassedWithin(s, steps, t) == 0
    decreases |steps|
  {
    if steps != [] {
      NothingAfter(Next(s, steps[0]), steps[1..], k, t, steps[0].now);
    }
  }

  /**
    How many resets can still come in the span: once the window has started inside it, or is about to, only those of calls
    that are due; before that, those of all calls that can be in flight.
   */
  function ResetsLeft(s: Shared, t: int, k: nat): nat {
    if s.limiter.windowStart < t && s.writer.None? then k else |s.due|
  }

  function Times(n: nat, limit: nat): nat {
    if n == 0 then 0 else limit + Times(n - 1, limit)
  }

  lemma {:induction false} TimesIsProduct(n: nat, limit: nat)
    ensures Times(n, limit) == n * limit
  {
    if n > 0 {
      TimesIsProduct(n - 1, limit);
      assert n * limit == limit + (n - 1) * limit;
    }
  }

  /** What can still pass in the span. */
  function Budget(s: Shared, t: int, k: nat): nat {
    s.limiter.Left() + Times(ResetsLeft(s, t, k), s.limiter.limit)
  }

  lemma StepInFlight(s: Shared, step: Step, k: nat)
    requires Enabled(s, step, k) && s.InFlight() <= k
    ensures Next(s, step).InFlight() <= k
  {
  }

  /** One step inside the span pays for the turn it lets pass. */
  lemma StepPays(s: Shared, step: Step, k: nat, t: int)
    requires Enabled(s, step, k) && s.InFlight() <= k && t <= step.now < t + MINUTE
    ensures var n := Next(s, step);
            n.limiter.limit == s.limiter.limit && (if TurnPasses(s, step) then 1 else 0) + Budget(n, t, k) <= Budget(s, t, k)
  {
    var n := Next(s, step);
    if step.Clear? {
      assert |n.due| == |s.due| - 1;
      Scale(ResetsLeft(n, t, k), ResetsLeft(s, t, k), s.limiter.limit);
    } else if step.Read? {
      ExpiredIsMinute(s.limiter, step.now);
      assert ResetsLeft(n, t, k) == ResetsLeft(s, t, k);
    } else {
      assert ResetsLeft(n, t, k) == ResetsLeft(s, t, k);
    }
  }

  lemma Scale(a: nat, b: nat, limit: nat)
    requires a + 1 <= b
    ensures limit + Times(a, limit) <= Times(b, limit)
    decreases b
  {
    if a + 1 < b {
      Scale(a, b - 1, limit);
    }
  }

  lemma {:induction false} FromSpanStart(s: Shared, steps: seq<Step>, k: nat, t: int, from: int)
    requires IsRun(s, steps, k, from) && t <= from && s.InFlight() <= k
    ensures PassedWithin(s, steps, t) <= Budget(s, t, k)
    decreases |steps|
  {
    if steps != [] {
      var next := Next(s, steps[0]);
      if steps[0].now >= t + MINUTE {
        NothingAfter(next, steps[1..], k, t, steps[0].now);
      } else {
        StepInFlight(s, steps[0], k);
        StepPays(s, steps[0], k, t);
        FromSpanStart(next, steps[1..], k, t, steps[0].now);
      }
    }
  }

  /**
    In every interleaving with at most `k` calls in flight, at most `k + 1` limits pass in any half-open span of 60
    seconds: every call that reads the old window may clear the count once more.
   */
  lemma {:induction false} AtMostPerSpan(s: Shared, steps: seq<Step>, k: nat, t: int, from: int)
    requires IsRun(s, steps, k, from) && s.InFlight() <= k
    ensures PassedWithin(s, steps, t) <= (k + 1) * s.limiter.limit
    decreases |steps|
  {
    if steps != [] {
      if steps[0].now < t {
        StepInFlight(s, steps[0], k);
        AtMostPerSpan(Next(s, steps[0]), steps[1..], k, t, steps[0].now);
      } else {
        FromSpanStart(s, steps, k, t, t);
        Scale(ResetsLeft(s, t, k), k + 1, s.limiter.limit);
        TimesIsProduct(k + 1, s.limiter.limit);
      }
    }
  }

  // ---------------------------------------------------------------- the bound is attained

  function Counted(s: Shared, n: nat): Shared {
    s.(limiter := s.limiter.(requests := s.limiter.requests + n))
  }

  /** One call that reads a running window and passes, and then `rest`. */
  lemma Pass(s: Shared, c: nat, now: int, k: nat, t: int, rest: seq<Step>) returns (steps: seq<Step>)
    requires s.writer.None? && !s.Running(c) && s.InFlight() < k && t <= now < t + MINUTE
    requires now < s.limiter.windowStart + MINUTE && s.limiter.requests < s.limiter.limit
    requires IsRun(Counted(s, 1), rest, k, now)
    ensures IsRun(s, steps, k, now) && PassedWithin(s, steps, t) == 1 + PassedWithin(Counted(s, 1), rest, t)
  {
    ExpiredIsMinute(s.limiter, now);
    var s1 := Next(s, Read(c, now));
    assert Next(s1, Turn(c, now)) == Counted(s, 1);
    Prepend(s1, Turn(c, now), rest, k, t);
    Prepend(s, Read(c, now), [Turn(c, now)] + rest, k, t);
    steps := [Read(c, now)] + ([Turn(c, now)] + rest);
  }

  /** `n` such calls one after the other, all at the same time, and then `rest`. */
  lemma {:induction false} Burst(s: Shared, n: nat, c: nat, now: int, k: nat, t: int, rest: seq<Step>) returns (steps: seq<Step>)
    requires s.writer.None? && !s.Running(c) && s.InFlight() < k && t <= now < t + MINUTE
    requires now < s.limiter.windowStart + MINUTE && s.limiter.requests + n <= s.limiter.limit
    requires IsRun(Counted(s, n), rest, k, now)
    ensures IsRun(s, steps, k, now) && PassedWithin(s, steps, t) == n + PassedWithin(Counted(s, n), rest, t)
    decreases n
  {
    if n == 0 {
      assert Counted(s, 0) == s;
      return rest;
    }
    assert Counted(Counted(s, 1), n - 1) == Counted(s, n);
    var more := Burst(Counted(s, 1), n - 1, c, now, k, t, rest);
    steps := Pass(s, c, now, k, t, more);
  }

  /** The first `j` calls are due and nothing else is in flight. */
  ghost predicate AllDue(s: Shared, j: nat) {
    s.writer.None? && s.ready == {} && |s.due| == j && forall c: nat :: c in s.due <==> c < j
  }

  /** The limiter after a due call has restarted the window and taken its turn. */
  function Reopened(s: Shared, c: nat, now: int): Shared {
    s.(limiter := s.limiter.(requests := 1, windowStart := now), due := s.due - {c})
  }

  lemma Reopen(s: Shared, c: nat, now: int, k: nat, t: int, rest: seq<Step>) returns (steps: seq<Step>)
    requires s.writer.None? && c in s.due && c !in s.ready && s.limiter.limit >= 1 && t <= now < t + MINUTE
    requires IsRun(Reopened(s, c, now), rest, k, now)
    ensures IsRun(s, steps, k, now) && PassedWithin(s, steps, t) == 1 + PassedWithin(Reopened(s, c, now), rest, t)
  {
    var s1 := Next(s, Clear(c, now));
    var s2 := Next(s1, Restart(c, now));
    assert Next(s2, Turn(c, now)) == Reopened(s, c, now);
    Prepend(s2, Turn(c, now), rest, k, t);
    Prepend(s1, Restart(c, now), [Turn(c, now)] + rest, k, t);
    Prepend(s, Clear(c, now), [Restart(c, now)] + ([Turn(c, now)] + rest), k, t);
    steps := [Clear(c, now)] + ([Restart(c, now)] + ([Turn(c, now)] + rest));
  }

  /** From its own turn on a full limit of calls passes, one at a time. */
  lemma Wave(s: Shared, c: nat, now: int, k: nat, t: int, rest: seq<Step>) returns (steps: seq<Step>)
    requires s.writer.None? && c in s.due && c !in s.ready && s.limiter.limit >= 1 && t <= now < t + MINUTE
    requires s.InFlight() <= k && IsRun(Counted(Reopened(s, c, now), s.limiter.limit - 1), rest, k, now)
    ensures IsRun(s, steps, k, now)
    ensures PassedWithin(s, steps, t)
            == s.limiter.limit + PassedWithin(Counted(Reopened(s, c, now), s.limiter.limit - 1), rest, t)
  {
    var burst := Burst(Reopened(s, c, now), s.limiter.limit - 1, c, now, k, t, rest);
    steps := Reopen(s, c, now, k, t, burst);
  }

  lemma OneLessDue(s: Shared, j: nat, now: int)
    requires AllDue(s, j) && j > 0 && s.limiter.limit >= 1
    ensures AllDue(Counted(Reopened(s, j - 1, now), s.limiter.limit - 1), j - 1)
  {
  }

  /** Each due call in turn clears the count, so every one of them lets a full limit pass. */
  lemma {:induction false} Waves(s: Shared, j: nat, k: nat, t: int, now: int) returns (steps: seq<Step>)
    requires AllDue(s, j) && j <= k && s.limiter.limit >= 1 && t <= now < t + MINUTE
    ensures IsRun(s, steps, k, now) && PassedWithin(s, steps, t) == Times(j, s.limiter.limit)
    decreases j
  {
    if j == 0 {
      return [];
    }
    OneLessDue(s, j, now);
    var rest := Waves(Counted(Reopened(s, j - 1, now), s.limiter.limit - 1), j - 1, k, t, now);
    steps := Wave(s, j - 1, now, k, t, rest);
  }

  /** Calls read the old window until `k` of them are due. */
  lemma {:induction false} Gather(s: Shared, j: nat, k: nat, t: int, now: int) returns (steps: seq<Step>)
    requires AllDue(s, j) && j <= k && now >= s.limiter.windowStart + MINUTE && s.limiter.limit >= 1 && t <= now < t + MINUTE
    ensures IsRun(s, steps, k, now) && PassedWithin(s, steps, t) == Times(k, s.limiter.limit)
    decreases k - j
  {
    if j == k {
      steps := Waves(s, j, k, t, now);
    } else {
      ExpiredIsMinute(s.limiter, now);
      var rest := Gather(Next(s, Read(j, now)), j + 1, k, t, now);
      Prepend(s, Read(j, now), rest, k, t);
      steps := [Read(j, now)] + rest;
    }
  }

  lemma StartsEarlier(s: Shared, steps: seq<Step>, k: nat, from: int, earlier: int)
    requires IsRun(s, steps, k, from) && earlier <= from
    ensures IsRun(s, steps, k, earlier)
  {
  }

  /** A full limit just before the window is over, and one more for each of `k` calls that then read it together. */
  lemma Crowd(l: Limiter, k: nat) returns (steps: seq<Step>)
    requires l.requests == 0 && l.limit >= 1 && k >= 1
    ensures IsRun(Idle(l), steps, k, l.windowStart)
    ensures PassedWithin(Idle(l), steps, l.windowStart + MINUTE - 1) == l.limit + Times(k, l.limit)
  {
    var over := l.windowStart + MINUTE;
    var full := Counted(Idle(l), l.limit);
    assert AllDue(full, 0);
    var rest := Gather(full, 0, k, over - 1, over);
    StartsEarlier(full, rest, k, over, over - 1);
    steps := Burst(Idle(l), l.limit, 0, over - 1, k, over - 1, rest);
    StartsEarlier(Idle(l), steps, k, over - 1, l.windowStart);
  }

  /** For every limit and every number of calls in flight some interleaving from a new limiter reaches the bound. */
  lemma SpanBoundAttained(limit: nat, k: nat, start: int) returns (steps: seq<Step>)
    requires limit >= 1 && k >= 1
    ensures IsRun(Idle(Limiter(0, start, limit)), steps, k, start)
    ensures PassedWithin(Idle(Limiter(0, start, limit)), steps, start + MINUTE - 1) == (k + 1) * limit
  {
    steps := Crowd(Limiter(0, start, limit), k);
    TimesIsProduct(k + 1, limit);
  }
}
