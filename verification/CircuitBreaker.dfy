/** The circuit breaker, alone, under overlapping calls, and through an outage. */
module CircuitBreaker {
  import opened RealArithmetic
  import opened Wrappers
  import opened Sequences

  datatype CircuitState = Closed | Open | HalfOpen

  datatype Config = Config(failureThreshold: int, resetTimeout: real)

  /** The breaker's mutable fields. */
  datatype Fields = Fields(state: CircuitState, failures: int, openedAt: Option<real>)

  const INITIAL := Fields(Closed, 0, None)

  /** The fields after `_allow`, or `None` when the call is rejected. */
  function Allow(c: Config, f: Fields, now: real): Option<Fields>
    requires f.state.Open? ==> f.openedAt.Some?
  {
    if !f.state.Open? then Some(f)
    else if now - f.openedAt.value >= c.resetTimeout then Some(f.(state := HalfOpen))
    else None
  }

  function OnFailure(c: Config, f: Fields, now: real): Fields {
    var failures := f.failures + 1;
    if f.state.HalfOpen? || failures >= c.failureThreshold then Fields(Open, failures, Some(now))
    else f.(failures := failures)
  }

  /** How a call that was let through ends. */
  datatype Ending = Succeeds | FailsAt(time: real) | Excluded

  function OnEnding(c: Config, f: Fields, ending: Ending): Fields {
    match ending
    case Succeeds => INITIAL
    case FailsAt(time) => OnFailure(c, f, time)
    case Excluded => f
  }

  class CircuitBreaker {
    const config: Config
    var state: CircuitState
    var failures: int
    var openedAt: Option<real>

    constructor (config: Config)
      ensures this.config == config && Model() == INITIAL
    {
      this.config := config;
      state, failures, openedAt := Closed, 0, None;
    }

    function Model(): Fields
      reads this
    {
      Fields(state, failures, openedAt)
    }

    /** The assertion `_allow` relies on: an open breaker knows when it opened. */
    ghost predicate Valid()
      reads this
    {
      state.Open? ==> openedAt.Some?
    }

    method AllowCall(now: real) returns (admitted: bool)
      requires Valid()
      modifies `state
      ensures Valid()
      ensures admitted == Allow(config, old(Model()), now).Some?
      ensures Model() == if admitted then Allow(config, old(Model()), now).value else old(Model())
    {
      if state.Open? {
        assert openedAt.Some?;
        if now - openedAt.value >= config.resetTimeout {
          state := HalfOpen;
        } else {
          return false;
        }
      }
      return true;
    }

    method OnSuccess()
      modifies this
      ensures Valid() && Model() == OnEnding(config, old(Model()), Succeeds)
    {
      failures := 0;
      state := Closed;
      openedAt := None;
    }

    method OnFailureAt(now: real)
      requires Valid()
      modifies this
      ensures Valid() && Model() == OnEnding(config, old(Model()), FailsAt(now))
    {
      failures := failures + 1;
      if state.HalfOpen? || failures >= config.failureThreshold {
        state := Open;
        openedAt := Some(now);
      }
    }

    /** What the end of a call that was let through does. */
    method Finish(ending: Ending)
      requires Valid()
      modifies this
      ensures Valid() && Model() == OnEnding(config, old(Model()), ending)
    {
      match ending
      case Succeeds => OnSuccess();
      case FailsAt(time) => OnFailureAt(time);
      case Excluded =>
    }

    /** One whole call, with nothing overlapping it. */
    method Call(now: real, ending: Ending) returns (ran: bool)
      requires Valid()
      modifies this
      ensures Valid()
      ensures ran == Allow(config, old(Model()), now).Some?
      ensures Model() == if ran then OnEnding(config, Allow(config, old(Model()), now).value, ending) else old(Model())
    {
      ran := AllowCall(now);
      if ran {
        Finish(ending);
      }
    }
  }

  // ---------------------------------------------------------------------------
  // Overlapping calls

  /** The breaker and the number of calls let through and not yet ended. */
  datatype Sys = Sys(fields: Fields, running: nat)

  datatype Step = Begin(now: real) | End(ending: Ending)

  function Next(c: Config, s: Sys, step: Step): Option<Sys>
    requires OpenHasTime(s.fields)
  {
    match step
    case Begin(now) =>
      var allowed := Allow(c, s.fields, now);
      Some(if allowed.Some? then Sys(allowed.value, s.running + 1) else s)
    case End(ending) =>
      if s.running == 0 then None else Some(Sys(OnEnding(c, s.fields, ending), s.running - 1))
  }

  predicate OpenHasTime(f: Fields) {
    f.state.Open? ==> f.openedAt.Some?
  }

  /** The full invariant: the counter and the opening time say the same as the state. */
  predicate Consistent(c: Config, f: Fields) {
    && 0 <= f.failures
    && (f.state.Closed? <==> f.failures < c.failureThreshold)
    && (f.state.Closed? <==> f.openedAt.None?)
  }

  /** The system after some steps; `None` if a call ends that is not running. */
  function Run(c: Config, steps: seq<Step>): (r: Option<Sys>)
    ensures r.Some? ==> OpenHasTime(r.value.fields)
  {
    if steps == [] then Some(Sys(INITIAL, 0))
    else
      match Run(c, DropLast(steps))
      case None => None
      case Some(s) => Next(c, s, Last(steps))
  }

  /**
   * With a threshold of at least one, and only then, every interleaving of overlapping calls, late
   * successes, late failures and excluded errors included, keeps counter, state and time consistent.
   */
  lemma {:induction false} AlwaysConsistentIff(c: Config)
    ensures (forall steps :: Run(c, steps).Some? ==> Consistent(c, Run(c, steps).value.fields))
            <==> c.failureThreshold >= 1
  {
    assert Run(c, []) == Some(Sys(INITIAL, 0));
    if c.failureThreshold < 1 {
      assert !Consistent(c, Run(c, []).value.fields);
    }
    if c.failureThreshold >= 1 {
      forall steps | Run(c, steps).Some?
        ensures Consistent(c, Run(c, steps).value.fields)
      {
        RunIsConsistent(c, steps);
      }
    }
  }

  lemma {:induction false} RunIsConsistent(c: Config, steps: seq<Step>)
    requires c.failureThreshold >= 1 && Run(c, steps).Some?
    ensures Consistent(c, Run(c, steps).value.fields)
    decreases |steps|
  {
    if steps != [] {
      RunIsConsistent(c, DropLast(steps));
    }
  }

  function Repeat(step: Step, n: nat): seq<Step> {
    if n == 0 then [] else Repeat(step, n - 1) + [step]
  }

  function RunFrom(c: Config, s: Sys, steps: seq<Step>): (r: Option<Sys>)
    requires OpenHasTime(s.fields)
    ensures r.Some? ==> OpenHasTime(r.value.fields)
  {
    if steps == [] then Some(s)
    else
      match RunFrom(c, s, DropLast(steps))
      case None => None
      case Some(t) => Next(c, t, Last(steps))
  }

  /** A breaker that is not open, half-open included, lets any number of overlapping calls through at once. */
  lemma {:induction false} OverlappingCallsAllRun(c: Config, s: Sys, now: real, n: nat)
    requires !s.fields.state.Open?
    ensures RunFrom(c, s, Repeat(Begin(now), n)) == Some(s.(running := s.running + n))
  {
    if n > 0 {
      OverlappingCallsAllRun(c, s, now, n - 1);
      assert DropLast(Repeat(Begin(now), n)) == Repeat(Begin(now), n - 1);
    }
  }

  // ---------------------------------------------------------------------------
  // What opens and closes the breaker

  /** A call that begins at `begin` and, if let through, ends as `ending` says. */
  datatype Attempted = Attempted(begin: real, ending: Ending)

  /** The calls one after another. */
  function InSequence(calls: seq<Attempted>): seq<Step> {
    if calls == [] then [] else InSequence(DropLast(calls)) + [Begin(Last(calls).begin)] + [End(Last(calls).ending)]
  }

  /** The failures since the last success; excluded endings count for nothing. */
  function Streak(calls: seq<Attempted>): nat {
    if calls == [] then 0
    else
      match Last(calls).ending
      case Succeeds => 0
      case FailsAt(_) => Streak(DropLast(calls)) + 1
      case Excluded => Streak(DropLast(calls))
  }

  /** No streak of failures, up to any call but the last, reaches the threshold. */
  predicate BelowThreshold(c: Config, calls: seq<Attempted>) {
    calls == [] || (BelowThreshold(c, DropLast(calls)) && Streak(DropLast(calls)) < c.failureThreshold)
  }

  lemma RunTwo(c: Config, steps: seq<Step>, s: Sys, first: Step, second: Step)
    requires Run(c, steps) == Some(s) && OpenHasTime(s.fields)
    requires Next(c, s, first).Some? && OpenHasTime(Next(c, s, first).value.fields)
    ensures Run(c, steps + [first] + [second]) == Next(c, Next(c, s, first).value, second)
  {
    assert DropLast(steps + [first]) == steps;
    assert DropLast(steps + [first] + [second]) == steps + [first];
  }

  /**
   * Calls in sequence from the start: the breaker stays closed and counts the failures in a row, and it
   * opens, at the time of that failure, exactly when they reach the threshold. Failures before a success
   * are forgotten and excluded errors are not counted.
   */
  lemma {:induction false} OpensAtStreak(c: Config, calls: seq<Attempted>)
    requires c.failureThreshold >= 1 && BelowThreshold(c, calls)
    ensures Streak(calls) < c.failureThreshold ==>
              Run(c, InSequence(calls)) == Some(Sys(Fields(Closed, Streak(calls), None), 0))
    ensures Streak(calls) >= c.failureThreshold ==>
              && calls != [] && Last(calls).ending.FailsAt? && Streak(calls) == c.failureThreshold
              && Run(c, InSequence(calls))
                 == Some(Sys(Fields(Open, c.failureThreshold, Some(Last(calls).ending.time)), 0))
    decreases |calls|
  {
    if calls != [] {
      var front, call := DropLast(calls), Last(calls);
      OpensAtStreak(c, front);
      RunTwo(c, InSequence(front), Run(c, InSequence(front)).value, Begin(call.begin), End(call.ending));
    }
  }

  /** In any interleaving, a call that ends well leaves the breaker closed, with no failure and no opening time. */
  lemma {:induction false} SuccessForgets(c: Config, steps: seq<Step>)
    requires Run(c, steps).Some? && steps != [] && Last(steps) == End(Succeeds)
    ensures Run(c, steps).value.fields == Fields(Closed, 0, None)
  {
  }

  /** In any interleaving, an excluded error changes neither state nor count. */
  lemma {:induction false} ExcludedIsNeutral(c: Config, steps: seq<Step>)
    requires Run(c, steps).Some? && steps != [] && Last(steps) == End(Excluded)
    ensures Run(c, DropLast(steps)).Some?
    ensures Run(c, steps).value.fields == Run(c, DropLast(steps)).value.fields
  {
  }

  /**
   * An open breaker before its reset timeout lets nothing through and stays as it is; at it or later one
   * call decides: success closes, failure opens again at its own time, an excluded error leaves it half open.
   */
  lemma {:induction false} TrialDecides(c: Config, steps: seq<Step>, s: Sys, openedAt: real, trial: Attempted)
    requires c.failureThreshold >= 1 && Run(c, steps) == Some(s)
    requires s.fields.state.Open? && s.fields.openedAt == Some(openedAt)
    ensures trial.begin - openedAt < c.resetTimeout ==> Run(c, steps + [Begin(trial.begin)]) == Some(s)
    ensures trial.begin - openedAt >= c.resetTimeout ==>
              var after := Run(c, steps + [Begin(trial.begin)] + [End(trial.ending)]);
              && after.Some? && after.value.running == s.running
              && match trial.ending
                 case Succeeds => after.value.fields == Fields(Closed, 0, None)
                 case FailsAt(time) => after.value.fields.state.Open? && after.value.fields.openedAt == Some(time)
                 case Excluded => after.value.fields == s.fields.(state := HalfOpen)
  {
    assert DropLast(steps + [Begin(trial.begin)]) == steps;
    RunTwo(c, steps, s, Begin(trial.begin), End(trial.ending));
  }

  /** With a threshold of two, a failure, a success and a failure leave the breaker closed. */
  lemma NotTwoInARow(reset: real, t: real)
    ensures var calls := [Attempted(t, FailsAt(t)), Attempted(t, Succeeds), Attempted(t, FailsAt(t))];
            Run(Config(2, reset), InSequence(calls)) == Some(Sys(Fields(Closed, 1, None), 0))
  {
    var one := [Attempted(t, FailsAt(t))];
    var two := one + [Attempted(t, Succeeds)];
    var three := two + [Attempted(t, FailsAt(t))];
    assert DropLast(three) == two && DropLast(two) == one && DropLast(one) == [];
    var c := Config(2, reset);
    assert Streak([]) == 0 && Streak(one) == 1 && Streak(two) == 0 && Streak(three) == 1;
    assert BelowThreshold(c, []) && BelowThreshold(c, one) && BelowThreshold(c, two);
    OpensAtStreak(c, three);
    assert three == [Attempted(t, FailsAt(t)), Attempted(t, Succeeds), Attempted(t, FailsAt(t))];
  }

  // ---------------------------------------------------------------------------
  // An outage: one call after another, all failing

  /** A call that begins at `begin` and, if let through, fails at `end`. */
  datatype Failing = Failing(begin: real, end: real)

  /** Breaker, calls actually run, when the breaker first opened, and the clock. */
  datatype Outage = Outage(fields: Fields, executions: nat, firstOpened: Option<real>, clock: real)

  function AfterCall(c: Config, o: Outage, call: Failing): Outage
    requires OpenHasTime(o.fields)
  {
    match Allow(c, o.fields, call.begin)
    case None => o.(clock := call.begin)
    case Some(f) =>
      var f' := OnFailure(c, f, call.end);
      Outage(f', o.executions + 1, if o.firstOpened.None? then f'.openedAt else o.firstOpened, call.end)
  }

  function Through(c: Config, start: real, calls: seq<Failing>): (o: Outage)
    ensures OpenHasTime(o.fields)
  {
    if calls == [] then Outage(INITIAL, 0, None, start)
    else AfterCall(c, Through(c, start, DropLast(calls)), Last(calls))
  }

  /** The calls follow one another in time. */
  predicate Sequential(start: real, calls: seq<Failing>) {
    calls == [] ||
    (&& Sequential(start, DropLast(calls))
     && (if |calls| == 1 then start else calls[|calls| - 2].end) <= Last(calls).begin <= Last(calls).end)
  }

  predicate OutageInv(c: Config, o: Outage) {
    && o.fields.failures == o.executions
    && Consistent(c, o.fields)
    && !o.fields.state.HalfOpen?
    && (o.firstOpened.None? <==> o.fields.openedAt.None?)
    && (o.firstOpened.Some? ==> Paced(c, o, o.fields.openedAt.value) && o.fields.openedAt.value <= o.clock)
  }

  /** Each run beyond the threshold took one reset timeout of the time up to `now`. */
  predicate Paced(c: Config, o: Outage, now: real)
    requires o.firstOpened.Some?
  {
    (o.executions - c.failureThreshold) as real * c.resetTimeout <= now - o.firstOpened.value
  }

  lemma {:induction false} OutageStep(c: Config, o: Outage, call: Failing)
    requires c.failureThreshold >= 1 && c.resetTimeout > 0.0
    requires OutageInv(c, o) && o.clock <= call.begin <= call.end
    ensures var after := AfterCall(c, o, call);
            && OutageInv(c, after)
            && after.clock <= call.end
            && (o.firstOpened.Some? ==> after.firstOpened == o.firstOpened && Paced(c, after, call.begin))
            && (o.firstOpened.None? && after.firstOpened.Some? ==> after.executions == c.failureThreshold)
  {
    OneMoreReset(o.executions - c.failureThreshold, c.resetTimeout);
  }

  lemma OneMoreReset(k: int, width: real)
    ensures (k + 1) as real * width == k as real * width + width
  {
  }

  lemma {:induction false} OutageHolds(c: Config, start: real, calls: seq<Failing>)
    requires c.failureThreshold >= 1 && c.resetTimeout > 0.0 && Sequential(start, calls)
    ensures var o := Through(c, start, calls);
            && OutageInv(c, o)
            && o.clock <= (if calls == [] then start else Last(calls).end)
            && (o.firstOpened.Some? ==> o.executions == c.failureThreshold || Paced(c, o, Last(calls).begin))
    decreases |calls|
  {
    if calls != [] {
      OutageHolds(c, start, DropLast(calls));
      OutageStep(c, Through(c, start, DropLast(calls)), Last(calls));
    }
  }

  /**
   * The load bound: through an outage, with calls one after another, the function runs fewer times
   * than the threshold before the breaker opens, and from then on at most once per elapsed reset
   * timeout more than the threshold.
   */
  lemma {:induction false} OutageLoadBound(c: Config, start: real, calls: seq<Failing>, now: real)
    requires c.failureThreshold >= 1 && c.resetTimeout > 0.0 && Sequential(start, calls)
    requires calls != [] ==> Last(calls).begin <= now
    ensures var o := Through(c, start, calls);
            if o.firstOpened.None? then o.executions < c.failureThreshold
            else o.firstOpened.value <= now ==>
                   o.executions <= c.failureThreshold + ((now - o.firstOpened.value) / c.resetTimeout).Floor
  {
    OutageHolds(c, start, calls);
    var o := Through(c, start, calls);
    if o.firstOpened.Some? && o.firstOpened.value <= now {
      FloorOfQuotient(o.executions - c.failureThreshold, now - o.firstOpened.value, c.resetTimeout);
    }
  }

  /** Calls that fail at once: up to the threshold together, then one per reset timeout. */
  function Eager(c: Config, start: real, n: nat): (calls: seq<Failing>)
    ensures |calls| == n
    ensures n > 0 ==> Last(calls) == Failing(EagerTime(c, start, n), EagerTime(c, start, n))
  {
    if n == 0 then []
    else Eager(c, start, n - 1) + [Failing(EagerTime(c, start, n), EagerTime(c, start, n))]
  }

  function EagerTime(c: Config, start: real, n: nat): real {
    if n == 0 || n <= c.failureThreshold then start else EagerTime(c, start, n - 1) + c.resetTimeout
  }

  /** Where the breaker stands after `n` eager calls. */
  predicate AfterEager(c: Config, start: real, n: nat, o: Outage) {
    && o.executions == n && o.fields.failures == n
    && if n < c.failureThreshold then o.firstOpened.None? && o.fields == Fields(Closed, n, None)
       else && o.firstOpened == Some(start) && o.fields == Fields(Open, n, Some(EagerTime(c, start, n)))
            && EagerTime(c, start, n) - start == (n - c.failureThreshold) as real * c.resetTimeout
  }

  lemma {:induction false} EagerStep(c: Config, start: real, n: nat, o: Outage)
    requires c.failureThreshold >= 1 && c.resetTimeout > 0.0 && n >= 1 && AfterEager(c, start, n - 1, o)
    ensures OpenHasTime(o.fields)
    ensures AfterEager(c, start, n, AfterCall(c, o, Failing(EagerTime(c, start, n), EagerTime(c, start, n))))
  {
    OneMoreReset(n - 1 - c.failureThreshold, c.resetTimeout);
  }

  lemma {:induction false} EagerIsSequential(c: Config, start: real, n: nat)
    requires c.resetTimeout > 0.0
    ensures Sequential(start, Eager(c, start, n))
  {
    if n > 0 {
      EagerIsSequential(c, start, n - 1);
      var front, calls := Eager(c, start, n - 1), Eager(c, start, n);
      assert DropLast(calls) == front;
      assert n > 1 ==> calls[n - 2] == front[n - 2] == Last(front);
      assert EagerTime(c, start, n - 1) <= EagerTime(c, start, n);
    }
  }

  /** The bound is attained: `n` runs need no more than one reset timeout each beyond the threshold. */
  lemma {:induction false} OutageLoadBoundIsTight(c: Config, start: real, n: nat)
    requires c.failureThreshold >= 1 && c.resetTimeout > 0.0
    ensures Sequential(start, Eager(c, start, n)) && AfterEager(c, start, n, Through(c, start, Eager(c, start, n)))
  {
    EagerIsSequential(c, start, n);
    if n > 0 {
      OutageLoadBoundIsTight(c, start, n - 1);
      assert DropLast(Eager(c, start, n)) == Eager(c, start, n - 1);
      EagerStep(c, start, n, Through(c, start, Eager(c, start, n - 1)));
    }
  }

  // ---------------------------------------------------------------------------
  // An outage with overlapping calls

  /**
   * Breaker and running calls, calls let through so far, when the breaker first opened, the clock, and
   * how often the breaker became half open.
   */
  datatype Crowd = Crowd(sys: Sys, executions: nat, firstOpened: Option<real>, clock: real, trials: nat)

  function TimeOf(step: Step): Option<real> {
    match step
    case Begin(now) => Some(now)
    case End(FailsAt(time)) => Some(time)
    case End(_) => None
  }

  /**
   * One call begins or fails, not before the clock, with never more than `m` running; `None` if a call
   * ends otherwise, or ends that is not running.
   */
  function CrowdNext(c: Config, m: nat, o: Crowd, step: Step): (next: Option<Crowd>)
    requires OpenHasTime(o.sys.fields)
    ensures next.Some? ==> OpenHasTime(next.value.sys.fields)
  {
    var time := TimeOf(step);
    if time.None? || time.value < o.clock then None
    else
      match Next(c, o.sys, step)
      case None => None
      case Some(sys) =>
        if sys.running > m then None
        else
          Some(Crowd(sys,
                     if sys.running > o.sys.running then o.executions + 1 else o.executions,
                     if o.firstOpened.None? && sys.fields.state.Open? then sys.fields.openedAt else o.firstOpened,
                     time.value,
                     if o.sys.fields.state.Open? && sys.fields.state.HalfOpen? then o.trials + 1 else o.trials))
  }

  function CrowdAfter(c: Config, m: nat, start: real, steps: seq<Step>): (o: Option<Crowd>)
    ensures o.Some? ==> OpenHasTime(o.value.sys.fields)
  {
    if steps == [] then Some(Crowd(Sys(INITIAL, 0), 0, None, start, 0))
    else
      match CrowdAfter(c, m, start, DropLast(steps))
      case None => None
      case Some(o) => CrowdNext(c, m, o, Last(steps))
  }

  /** The calls let through before the breaker first opened, and `m` for each time it was half open. */
  function Allowance(c: Config, m: nat, trials: int): int {
    c.failureThreshold + m - 1 + m * trials
  }

  predicate CrowdInv(c: Config, m: nat, o: Crowd) {
    && Consistent(c, o.sys.fields) && o.sys.running <= m
    && (o.firstOpened.None? <==> o.sys.fields.state.Closed?)
    && match o.sys.fields.state
       case Closed => o.executions == o.sys.fields.failures + o.sys.running && o.trials == 0
       case Open =>
         && o.executions <= Allowance(c, m, o.trials)
         && o.sys.fields.openedAt.value <= o.clock
         && TrialsTook(c, o, o.sys.fields.openedAt.value)
       case HalfOpen =>
         && o.trials >= 1 && o.executions <= Allowance(c, m, o.trials - 1) + o.sys.running
         && TrialsTook(c, o, o.clock)
  }

  /** Each time the breaker became half open, a reset timeout had passed. */
  predicate TrialsTook(c: Config, o: Crowd, now: real)
    requires o.firstOpened.Some?
  {
    o.trials as real * c.resetTimeout <= now - o.firstOpened.value
  }

  lemma OneMoreTrial(m: nat, trials: nat, width: real)
    ensures m * (trials + 1) == m * trials + m
    ensures (trials + 1) as real * width == trials as real * width + width
  {
  }

  lemma {:induction false} CrowdBegin(c: Config, m: nat, o: Crowd, now: real, next: Crowd)
    requires c.failureThreshold >= 1 && c.resetTimeout > 0.0 && m >= 1
    requires CrowdInv(c, m, o) && CrowdNext(c, m, o, Begin(now)) == Some(next)
    ensures CrowdInv(c, m, next)
  {
    OneMoreTrial(m, o.trials, c.resetTimeout);
  }

  lemma {:induction false} CrowdEnd(c: Config, m: nat, o: Crowd, ending: Ending, next: Crowd)
    requires c.failureThreshold >= 1 && c.resetTimeout > 0.0 && m >= 1
    requires CrowdInv(c, m, o) && CrowdNext(c, m, o, End(ending)) == Some(next)
    ensures CrowdInv(c, m, next)
  {
    if o.trials >= 1 {
      OneMoreTrial(m, o.trials - 1, c.resetTimeout);
    }
  }

  lemma {:induction false} CrowdStep(c: Config, m: nat, o: Crowd, step: Step, next: Crowd)
    requires c.failureThreshold >= 1 && c.resetTimeout > 0.0 && m >= 1
    requires CrowdInv(c, m, o) && CrowdNext(c, m, o, step) == Some(next)
    ensures CrowdInv(c, m, next)
  {
    match step
    case Begin(now) => CrowdBegin(c, m, o, now, next);
    case End(ending) => CrowdEnd(c, m, o, ending, next);
  }

  /** What the invariant says of the calls let through and of the time they took. */
  lemma CrowdBounded(c: Config, m: nat, o: Crowd)
    requires c.resetTimeout > 0.0 && CrowdInv(c, m, o)
    ensures o.firstOpened.None? ==> o.executions <= c.failureThreshold + m - 1
    ensures o.firstOpened.Some? ==> o.executions <= Allowance(c, m, o.trials) && TrialsTook(c, o, o.clock)
    ensures o.firstOpened.Some? ==> o.firstOpened.value <= o.clock
  {
    if o.firstOpened.Some? {
      MulNonNegative(o.trials as real, c.resetTimeout);
      if o.trials >= 1 {
        OneMoreTrial(m, o.trials - 1, c.resetTimeout);
      }
    }
  }

  lemma {:induction false} CrowdHolds(c: Config, m: nat, start: real, steps: seq<Step>)
    requires c.failureThreshold >= 1 && c.resetTimeout > 0.0 && m >= 1
    requires CrowdAfter(c, m, start, steps).Some?
    ensures CrowdInv(c, m, CrowdAfter(c, m, start, steps).value)
    decreases |steps|
  {
    if steps != [] {
      CrowdHolds(c, m, start, DropLast(steps));
      CrowdStep(c, m, CrowdAfter(c, m, start, DropLast(steps)).value, Last(steps),
                CrowdAfter(c, m, start, steps).value);
    }
  }

  lemma AllowanceGrows(c: Config, m: nat, a: nat, b: nat)
    requires a <= b
    ensures Allowance(c, m, a) <= Allowance(c, m, b)
  {
    var d := b - a;
    assert m * b == m * a + m * d;
  }

  lemma WithinAllowance(c: Config, m: nat, executions: nat, trials: nat, elapsed: real)
    requires c.resetTimeout > 0.0 && trials as real * c.resetTimeout <= elapsed
    requires executions <= Allowance(c, m, trials)
    ensures (elapsed / c.resetTimeout).Floor >= 0
    ensures executions <= Allowance(c, m, (elapsed / c.resetTimeout).Floor)
  {
    FloorOfQuotient(trials, elapsed, c.resetTimeout);
    AllowanceGrows(c, m, trials, (elapsed / c.resetTimeout).Floor);
  }

  /**
   * The load bound when calls overlap: through an outage with never more than `m` calls at once, the
   * function runs at most as often as the threshold and `m - 1` more, and from the first opening on `m`
   * times more per elapsed reset timeout.
   */
  lemma {:induction false} OverlappingOutageBound(c: Config, m: nat, start: real, steps: seq<Step>)
    requires c.failureThreshold >= 1 && c.resetTimeout > 0.0 && m >= 1
    requires CrowdAfter(c, m, start, steps).Some?
    ensures var o := CrowdAfter(c, m, start, steps).value;
            if o.firstOpened.None? then o.executions <= c.failureThreshold + m - 1
            else && o.firstOpened.value <= o.clock
                 && o.executions <= Allowance(c, m, ((o.clock - o.firstOpened.value) / c.resetTimeout).Floor)
  {
    CrowdHolds(c, m, start, steps);
    var o := CrowdAfter(c, m, start, steps).value;
    CrowdBounded(c, m, o);
    if o.firstOpened.Some? {
      WithinAllowance(c, m, o.executions, o.trials, o.clock - o.firstOpened.value);
    }
  }

  // ---------------------------------------------------------------------------
  // The bound for overlapping calls is attained

  function Begins(now: real, n: nat): seq<Step> {
    if n == 0 then [] else Begins(now, n - 1) + [Begin(now)]
  }

  function Fails(now: real, n: nat): seq<Step> {
    if n == 0 then [] else Fails(now, n - 1) + [End(FailsAt(now))]
  }

  /** `n` calls, one after another, that fail at once. */
  function Singles(now: real, n: nat): seq<Step> {
    if n == 0 then [] else Singles(now, n - 1) + [Begin(now)] + [End(FailsAt(now))]
  }

  /** One call short of the threshold, and `m` more at once; then `m` at once per reset timeout, `k` times. */
  function Bursts(c: Config, m: nat, start: real, k: nat): seq<Step>
    requires c.failureThreshold >= 1
  {
    if k == 0 then Singles(start, c.failureThreshold - 1) + Begins(start, m) + Fails(start, m)
    else Bursts(c, m, start, k - 1) + Begins(BurstTime(c, start, k), m) + Fails(BurstTime(c, start, k), m)
  }

  function BurstTime(c: Config, start: real, k: nat): real {
    if k == 0 then start else BurstTime(c, start, k - 1) + c.resetTimeout
  }

  lemma CrowdOneMore(c: Config, m: nat, start: real, steps: seq<Step>, step: Step, o: Crowd)
    requires CrowdAfter(c, m, start, steps) == Some(o)
    ensures CrowdAfter(c, m, start, steps + [step]) == CrowdNext(c, m, o, step)
  {
    assert DropLast(steps + [step]) == steps;
  }

  lemma OneSingle(c: Config, m: nat, o: Crowd, n: nat)
    requires m >= 1 && n + 1 < c.failureThreshold && o.sys == Sys(Fields(Closed, n, None), 0)
    ensures CrowdNext(c, m, o, Begin(o.clock))
         == Some(o.(sys := o.sys.(running := 1), executions := o.executions + 1))
    ensures CrowdNext(c, m, o.(sys := o.sys.(running := 1), executions := o.executions + 1), End(FailsAt(o.clock)))
         == Some(o.(sys := Sys(Fields(Closed, n + 1, None), 0), executions := o.executions + 1))
  {
  }

  lemma {:induction false} SinglesFail(c: Config, m: nat, start: real, n: nat)
    requires c.failureThreshold >= 1 && m >= 1 && n < c.failureThreshold
    ensures CrowdAfter(c, m, start, Singles(start, n))
         == Some(Crowd(Sys(Fields(Closed, n, None), 0), n, None, start, 0))
  {
    if n > 0 {
      SinglesFail(c, m, start, n - 1);
      var before := Singles(start, n - 1);
      var o := CrowdAfter(c, m, start, before).value;
      CrowdOneMore(c, m, start, before, Begin(start), o);
      OneSingle(c, m, o, n - 1);
      var begun := o.(sys := o.sys.(running := 1), executions := o.executions + 1);
      CrowdOneMore(c, m, start, before + [Begin(start)], End(FailsAt(start)), begun);
    }
  }

  /** After `n` calls that begin together, the breaker letting them through. */
  function Begun(o: Crowd, now: real, n: nat): Crowd {
    var f := o.sys.fields;
    Crowd(Sys(if f.state.Open? then f.(state := HalfOpen) else f, o.sys.running + n), o.executions + n,
          o.firstOpened, now, if f.state.Open? then o.trials + 1 else o.trials)
  }

  /** After `n` of the running calls fail together, each failure enough to open the breaker. */
  function Failed(o: Crowd, now: real, n: nat): Crowd
    requires n <= o.sys.running
  {
    Crowd(Sys(Fields(Open, o.sys.fields.failures + n, Some(now)), o.sys.running - n), o.executions,
          if o.firstOpened.None? then Some(now) else o.firstOpened, now, o.trials)
  }

  /** The breaker, if open, is ready for a trial. */
  predicate LetsThrough(c: Config, o: Crowd, now: real) {
    o.sys.fields.state.Open? ==>
      && o.firstOpened.Some? && o.sys.fields.openedAt.Some?
      && now - o.sys.fields.openedAt.value >= c.resetTimeout
  }

  predicate OneFailureOpens(c: Config, o: Crowd) {
    && o.sys.fields.failures + 1 >= c.failureThreshold && o.sys.fields.failures >= 0
    && (o.sys.fields.state.Open? ==> o.firstOpened.Some? && o.sys.fields.openedAt.Some?)
  }

  lemma FirstBegins(c: Config, m: nat, o: Crowd, now: real)
    requires LetsThrough(c, o, now) && o.sys.running + 1 <= m && o.clock <= now
    ensures CrowdNext(c, m, o, Begin(now)) == Some(Begun(o, now, 1))
  {
  }

  lemma NextBegins(c: Config, m: nat, o: Crowd, now: real, n: nat)
    requires LetsThrough(c, o, now) && 1 <= n && o.sys.running + n + 1 <= m
    ensures CrowdNext(c, m, Begun(o, now, n), Begin(now)) == Some(Begun(o, now, n + 1))
  {
  }

  lemma FirstFails(c: Config, m: nat, o: Crowd, now: real)
    requires OneFailureOpens(c, o) && 1 <= o.sys.running <= m && o.clock <= now
    ensures CrowdNext(c, m, o, End(FailsAt(now))) == Some(Failed(o, now, 1))
  {
  }

  lemma NextFails(c: Config, m: nat, o: Crowd, now: real, n: nat)
    requires OneFailureOpens(c, o) && 1 <= n && n + 1 <= o.sys.running <= m
    ensures CrowdNext(c, m, Failed(o, now, n), End(FailsAt(now))) == Some(Failed(o, now, n + 1))
  {
  }

  /** Calls that begin together are all let through. */
  lemma {:induction false} AllBegin(c: Config, m: nat, start: real, steps: seq<Step>, o: Crowd, now: real, n: nat)
    requires CrowdAfter(c, m, start, steps) == Some(o) && 1 <= n && o.sys.running + n <= m && o.clock <= now
    requires LetsThrough(c, o, now)
    ensures CrowdAfter(c, m, start, steps + Begins(now, n)) == Some(Begun(o, now, n))
    decreases n
  {
    if n == 1 {
      assert Begins(now, 1) == [Begin(now)];
      CrowdOneMore(c, m, start, steps, Begin(now), o);
      FirstBegins(c, m, o, now);
    } else {
      AllBegin(c, m, start, steps, o, now, n - 1);
      CrowdOneMore(c, m, start, steps + Begins(now, n - 1), Begin(now), Begun(o, now, n - 1));
      NextBegins(c, m, o, now, n - 1);
      assert steps + Begins(now, n) == steps + Begins(now, n - 1) + [Begin(now)];
    }
  }

  /** Calls that fail together leave the breaker open, if one failure is enough. */
  lemma {:induction false} AllFail(c: Config, m: nat, start: real, steps: seq<Step>, o: Crowd, now: real, n: nat)
    requires CrowdAfter(c, m, start, steps) == Some(o) && 1 <= n <= o.sys.running <= m && o.clock <= now
    requires OneFailureOpens(c, o)
    ensures CrowdAfter(c, m, start, steps + Fails(now, n)) == Some(Failed(o, now, n))
    decreases n
  {
    if n == 1 {
      assert Fails(now, 1) == [End(FailsAt(now))];
      CrowdOneMore(c, m, start, steps, End(FailsAt(now)), o);
      FirstFails(c, m, o, now);
    } else {
      AllFail(c, m, start, steps, o, now, n - 1);
      CrowdOneMore(c, m, start, steps + Fails(now, n - 1), End(FailsAt(now)), Failed(o, now, n - 1));
      NextFails(c, m, o, now, n - 1);
      assert steps + Fails(now, n) == steps + Fails(now, n - 1) + [End(FailsAt(now))];
    }
  }

  /** `m` calls that begin together, and then fail, at a breaker that lets them through. */
  lemma {:induction false} OneBurst(c: Config, m: nat, start: real, steps: seq<Step>, o: Crowd, now: real)
    requires CrowdAfter(c, m, start, steps) == Some(o) && m >= 1 && o.sys.running == 0 && o.clock <= now
    requires LetsThrough(c, o, now) && OneFailureOpens(c, o)
    ensures CrowdAfter(c, m, start, steps + Begins(now, m) + Fails(now, m)) == Some(Failed(Begun(o, now, m), now, m))
  {
    AllBegin(c, m, start, steps, o, now, m);
    AllFail(c, m, start, steps + Begins(now, m), Begun(o, now, m), now, m);
  }

  /** After the threshold's calls and `k` bursts of `m`. */
  function AfterBursts(c: Config, m: nat, start: real, k: nat): Crowd
    requires c.failureThreshold >= 1 && m >= 1
  {
    var calls: nat := c.failureThreshold + m - 1 + m * k;
    var t := BurstTime(c, start, k);
    Crowd(Sys(Fields(Open, calls, Some(t)), 0), calls, Some(start), t, k)
  }

  lemma FirstBurst(c: Config, m: nat, start: real, o: Crowd)
    requires c.failureThreshold >= 1 && m >= 1
    requires o == Crowd(Sys(Fields(Closed, c.failureThreshold - 1, None), 0), c.failureThreshold - 1, None, start, 0)
    ensures LetsThrough(c, o, start) && OneFailureOpens(c, o)
    ensures Failed(Begun(o, start, m), start, m) == AfterBursts(c, m, start, 0)
  {
  }

  lemma NextBurst(c: Config, m: nat, start: real, k: nat, o: Crowd, now: real)
    requires c.failureThreshold >= 1 && c.resetTimeout > 0.0 && m >= 1 && k >= 1
    requires o == AfterBursts(c, m, start, k - 1) && now == BurstTime(c, start, k)
    ensures LetsThrough(c, o, now) && OneFailureOpens(c, o) && o.clock <= now && o.sys.running == 0
    ensures Failed(Begun(o, now, m), now, m) == AfterBursts(c, m, start, k)
  {
    OneMoreTrial(m, k - 1, c.resetTimeout);
  }

  lemma {:induction false} FirstBurstAttains(c: Config, m: nat, start: real)
    requires c.failureThreshold >= 1 && m >= 1
    ensures CrowdAfter(c, m, start, Bursts(c, m, start, 0)) == Some(AfterBursts(c, m, start, 0))
  {
    SinglesFail(c, m, start, c.failureThreshold - 1);
    var singles := Singles(start, c.failureThreshold - 1);
    var o := CrowdAfter(c, m, start, singles).value;
    FirstBurst(c, m, start, o);
    OneBurst(c, m, start, singles, o, start);
  }

  lemma {:induction false} BurstsAttain(c: Config, m: nat, start: real, k: nat)
    requires c.failureThreshold >= 1 && c.resetTimeout > 0.0 && m >= 1
    ensures CrowdAfter(c, m, start, Bursts(c, m, start, k)) == Some(AfterBursts(c, m, start, k))
  {
    if k == 0 {
      FirstBurstAttains(c, m, start);
    } else {
      BurstsAttain(c, m, start, k - 1);
      var o, now := AfterBursts(c, m, start, k - 1), BurstTime(c, start, k);
      NextBurst(c, m, start, k, o, now);
      OneBurst(c, m, start, Bursts(c, m, start, k - 1), o, now);
    }
  }

  lemma {:induction false} BurstTakes(c: Config, start: real, k: nat)
    ensures BurstTime(c, start, k) - start == k as real * c.resetTimeout
  {
    if k > 0 {
      BurstTakes(c, start, k - 1);
      OneMoreTrial(0, k - 1, c.resetTimeout);
    }
  }

  /** The bound is attained: for every `m` and `k` a run lets that many calls through in `k` reset timeouts. */
  lemma {:induction false} OverlappingOutageBoundIsTight(c: Config, m: nat, start: real, k: nat)
    requires c.failureThreshold >= 1 && c.resetTimeout > 0.0 && m >= 1
    ensures CrowdAfter(c, m, start, Bursts(c, m, start, k)).Some?
    ensures var o := CrowdAfter(c, m, start, Bursts(c, m, start, k)).value;
            && o.executions == c.failureThreshold + m - 1 + m * k && o.firstOpened == Some(start)
            && o.clock - start == k as real * c.resetTimeout
  {
    BurstsAttain(c, m, start, k);
    BurstTakes(c, start, k);
  }
}
