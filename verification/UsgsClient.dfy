/** The feed client: a retry loop inside a circuit breaker. */
module UsgsClient {
  import opened Wrappers
  import opened Sequences
  import opened CircuitBreaker
  import opened Retry

  /** One fetch: how its HTTP attempts end, and when it begins and, if it runs, ends. */
  datatype Fetch<!T> = Fetch(func: nat -> Attempt<T>, begin: real, end: real)

  /** The HTTP requests of a fetch that the breaker lets through. */
  function Attempts<T>(policy: RetryPolicy, fetch: Fetch<T>): (attempts: nat)
    ensures attempts <= MaxAttempts(policy)
  {
    CallsMade(fetch.func, policy.maxAttempts, 0)
  }

  function MaxAttempts(policy: RetryPolicy): nat {
    if policy.maxAttempts < 1 then 0 else policy.maxAttempts
  }

  /** Its last attempt succeeds. */
  predicate Returns<T>(policy: RetryPolicy, fetch: Fetch<T>) {
    Attempts(policy, fetch) > 0 && fetch.func(Attempts(policy, fetch)).Success?
  }

  /** Breaker and requests sent so far. */
  datatype Traffic = Traffic(fields: Fields, requests: nat)

  /** One fetch: rejected, or run with its retries inside one call of the breaker. */
  function AfterFetch<T>(c: Config, policy: RetryPolicy, t: Traffic, fetch: Fetch<T>): Traffic
    requires OpenHasTime(t.fields)
  {
    match Allow(c, t.fields, fetch.begin)
    case None => t
    case Some(f) =>
      Traffic(OnEnding(c, f, if Returns(policy, fetch) then Succeeds else FailsAt(fetch.end)),
              t.requests + Attempts(policy, fetch))
  }

  /** The breaker lets a fetch through: it is not open, or has been for the reset timeout. */
  predicate LetThrough<T>(c: Config, f: Fields, fetch: Fetch<T>)
    requires OpenHasTime(f)
  {
    f.state.Open? ==> fetch.begin - f.openedAt.value >= c.resetTimeout
  }

  /** A rejected fetch sends nothing and leaves the breaker as it is. */
  lemma RejectedFetch<T>(c: Config, policy: RetryPolicy, t: Traffic, fetch: Fetch<T>)
    requires OpenHasTime(t.fields)
    ensures !LetThrough(c, t.fields, fetch) ==> AfterFetch(c, policy, t, fetch) == t
  {
  }

  /**
   * A fetch let through whose `k`-th request is the first not to be retried, or the last allowed, sends
   * `k` requests. If that one succeeds the breaker is closed with no failure; otherwise the whole fetch is
   * one failure more, however many requests it took.
   */
  lemma {:induction false} FetchIsOneCall<T>(c: Config, policy: RetryPolicy, t: Traffic, fetch: Fetch<T>, k: nat)
    requires OpenHasTime(t.fields) && LetThrough(c, t.fields, fetch)
    requires 1 <= k <= policy.maxAttempts && forall i :: 1 <= i < k ==> fetch.func(i).Retryable?
    requires k == policy.maxAttempts || !fetch.func(k).Retryable?
    ensures var after := AfterFetch(c, policy, t, fetch);
            && after.requests == t.requests + k
            && if fetch.func(k).Success? then after.fields == Fields(Closed, 0, None)
               else after.fields.failures == t.fields.failures + 1
                    && (after.fields.failures >= c.failureThreshold ==>
                          after.fields.state.Open? && after.fields.openedAt == Some(fetch.end))
  {
    StopsAt(fetch.func, policy.maxAttempts, 0, k);
  }

  class UsgsClient {
    const breaker: CircuitBreaker
    const policy: RetryPolicy
    /** HTTP requests sent so far. */
    ghost var requests: nat

    constructor (breaker: CircuitBreaker, policy: RetryPolicy)
      ensures this.breaker == breaker && this.policy == policy && requests == 0
    {
      this.breaker, this.policy, requests := breaker, policy, 0;
    }

    ghost function Model(): Traffic
      reads this, breaker
    {
      Traffic(breaker.Model(), requests)
    }

    /**
     * One fetch. A rejected fetch makes no request; one let through makes the requests of its retry
     * loop and counts as one call of the breaker, failing unless it returned.
     */
    method FetchFeed<T>(fetch: Fetch<T>, draws: nat -> real) returns (r: Option<Outcome<T>>)
      requires breaker.Valid() && policy.Valid() && UnitDraws(draws)
      modifies this`requests, breaker
      ensures breaker.Valid()
      ensures Model() == AfterFetch(breaker.config, policy, old(Model()), fetch)
      ensures r.Some? <==> Allow(breaker.config, old(breaker.Model()), fetch.begin).Some?
      ensures requests - old(requests) <= if r.None? then 0 else MaxAttempts(policy)
      ensures r.Some? ==> (r.value.Returned? <==> Returns(policy, fetch))
    {
      var admitted := breaker.AllowCall(fetch.begin);
      if !admitted {
        return None;
      }
      var outcome, calls, slept := RetryAsync(fetch.func, policy, draws);
      requests := requests + calls;
      breaker.Finish(if outcome.Returned? then Succeeds else FailsAt(fetch.end));
      r := Some(outcome);
    }
  }

  /** A fresh client after a run of fetches, one after another. */
  function AfterFetches<T>(c: Config, policy: RetryPolicy, fetches: seq<Fetch<T>>): (t: Traffic)
    ensures OpenHasTime(t.fields)
  {
    if fetches == [] then Traffic(INITIAL, 0)
    else AfterFetch(c, policy, AfterFetches(c, policy, DropLast(fetches)), Last(fetches))
  }

  /** The fetches as calls of the breaker that fail if they run. */
  function Calls<T>(fetches: seq<Fetch<T>>): (calls: seq<Failing>)
    ensures |calls| == |fetches|
  {
    if fetches == [] then []
    else Calls(DropLast(fetches)) + [Failing(Last(fetches).begin, Last(fetches).end)]
  }

  /** No fetch returns a feed. */
  ghost predicate IsOutage<T>(policy: RetryPolicy, fetches: seq<Fetch<T>>) {
    forall i :: 0 <= i < |fetches| ==> !Returns(policy, fetches[i])
  }

  /** Every attempt of every fetch asks for a retry. */
  ghost predicate IsBlackout<T>(fetches: seq<Fetch<T>>) {
    forall i, k :: 0 <= i < |fetches| ==> fetches[i].func(k).Retryable?
  }

  /**
   * In an outage the client's breaker goes the way of a breaker whose calls all fail, and the requests
   * are at most the policy's attempts per call that ran, and exactly that many in a blackout.
   */
  lemma {:induction false} RequestsPerExecution<T>(
      c: Config, policy: RetryPolicy, start: real, fetches: seq<Fetch<T>>)
    requires IsOutage(policy, fetches)
    ensures var t, o := AfterFetches(c, policy, fetches), Through(c, start, Calls(fetches));
            && t.fields == o.fields
            && t.requests <= MaxAttempts(policy) * o.executions
            && (IsBlackout(fetches) ==> t.requests == MaxAttempts(policy) * o.executions)
    decreases |fetches|
  {
    if fetches != [] {
      var front, fetch := DropLast(fetches), Last(fetches);
      RequestsPerExecution(c, policy, start, front);
      var before := Through(c, start, Calls(front));
      assert !Returns(policy, fetches[|fetches| - 1]);
      assert Through(c, start, Calls(fetches)) == AfterCall(c, before, Failing(fetch.begin, fetch.end)) by {
        assert DropLast(Calls(fetches)) == Calls(front);
      }
      if IsBlackout(fetches) && policy.maxAttempts >= 1 {
        AllCallsMade(fetch.func, policy.maxAttempts, 0);
      }
      MulOneMore(MaxAttempts(policy), before.executions);
    }
  }

  /**
   * Upstream load during an outage: of sequential fetches none of which returns a feed, the HTTP
   * requests are at most the attempts per fetch times the breaker's bound on the fetches let through.
   */
  lemma {:induction false} OutageRequestBound<T>(
      c: Config, policy: RetryPolicy, start: real, fetches: seq<Fetch<T>>, now: real)
    requires c.failureThreshold >= 1 && c.resetTimeout > 0.0
    requires Sequential(start, Calls(fetches)) && IsOutage(policy, fetches)
    requires fetches != [] ==> Last(fetches).begin <= now
    ensures var t, o := AfterFetches(c, policy, fetches), Through(c, start, Calls(fetches));
            if o.firstOpened.None? then t.requests <= MaxAttempts(policy) * (c.failureThreshold - 1)
            else o.firstOpened.value <= now ==>
                   t.requests <= MaxAttempts(policy)
                                 * (c.failureThreshold + ((now - o.firstOpened.value) / c.resetTimeout).Floor)
  {
    var o := Through(c, start, Calls(fetches));
    RequestsPerExecution(c, policy, start, fetches);
    OutageLoadBound(c, start, Calls(fetches), now);
    if o.firstOpened.None? {
      MulAtMost(MaxAttempts(policy), o.executions, c.failureThreshold - 1);
    } else if o.firstOpened.value <= now {
      MulAtMost(MaxAttempts(policy), o.executions,
                c.failureThreshold + ((now - o.firstOpened.value) / c.resetTimeout).Floor);
    }
  }

  lemma MulOneMore(k: nat, a: nat)
    ensures k * (a + 1) == k * a + k
  {
  }

  lemma MulAtMost(k: nat, a: int, b: int)
    requires a <= b
    ensures k * a <= k * b
  {
  }
}
