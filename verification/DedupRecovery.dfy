/**
 * Checkpoint, crash and restore of Job 2. The operator reads a log by offset; a checkpoint flushes
 * the sink and stores offset and keyed state; a crash loses an arbitrary part of the unflushed
 * output and goes back to the checkpoint. Output records are named by the log offset they come from.
 */
module DedupRecovery {
  import opened Wrappers
  import opened Sequences
  import opened Deduplication

  datatype Job = Job(
    offset: nat, state: map<string, DedupState>,
    durable: seq<nat>, buffered: seq<nat>,
    savedOffset: nat, savedState: map<string, DedupState>,
    furthest: nat)

  datatype Step =
    | Process(now: int)
    | Checkpoint
    | Crash(survivors: seq<nat>)

  const START := Job(0, map[], [], [], 0, map[], 0)

  function Output(j: Job): seq<nat>
  {
    j.durable + j.buffered
  }

  function Next<R>(op: Operator<R>, log: seq<R>, j: Job, step: Step): Option<Job>
  {
    match step
    case Process(now) =>
      if j.offset >= |log| then None
      else
        var x := Sighting(log[j.offset], now);
        Some(j.(offset := j.offset + 1,
                state := NextState(op, j.state, x),
                buffered := if DecisionFor(op, j.state, x).Drop? then j.buffered else j.buffered + [j.offset],
                furthest := if j.offset + 1 > j.furthest then j.offset + 1 else j.furthest))
    case Checkpoint =>
      Some(j.(durable := Output(j), buffered := [], savedOffset := j.offset, savedState := j.state))
    case Crash(survivors) =>
      if !Subseq(survivors, j.buffered) then None
      else
        Some(j.(offset := j.savedOffset, state := j.savedState,
                durable := j.durable + survivors, buffered := []))
  }

  /** The job reached from the start, provided every step is possible. */
  function Run<R>(op: Operator<R>, log: seq<R>, steps: seq<Step>): Option<Job>
  {
    if steps == [] then Some(START)
    else
      match Run(op, log, DropLast(steps))
      case None => None
      case Some(j) => Next(op, log, j, Last(steps))
  }

  /** The step does not read a record that repeats its key's content after the entry expired. */
  predicate Timely<R>(op: Operator<R>, log: seq<R>, j: Job, step: Step)
  {
    step.Process? && j.offset < |log| ==>
      var k := op.key(log[j.offset]);
      k in j.state && j.state[k].payloadHash == op.hash(log[j.offset]) ==>
        step.now < j.state[k].lastSeenAt + op.ttlMs
  }

  predicate TimelyRun<R>(op: Operator<R>, log: seq<R>, steps: seq<Step>)
  {
    steps == [] ||
    (&& TimelyRun(op, log, DropLast(steps))
     && match Run(op, log, DropLast(steps))
        case None => false
        case Some(j) => Timely(op, log, j, Last(steps)))
  }

  /** Some run leads to `j`, whatever its processing times. */
  ghost predicate Reachable<R>(op: Operator<R>, log: seq<R>, j: Job) {
    exists steps :: Run(op, log, steps) == Some(j)
  }

  /** Some run leads to `j` that reads no expired repeat. */
  ghost predicate TimelyReachable<R>(op: Operator<R>, log: seq<R>, j: Job) {
    exists steps :: Run(op, log, steps) == Some(j) && TimelyRun(op, log, steps)
  }

  /** Some such run without a crash leads to `j`. */
  ghost predicate SmoothlyReachable<R>(op: Operator<R>, log: seq<R>, j: Job) {
    exists steps :: Run(op, log, steps) == Some(j) && TimelyRun(op, log, steps) && CrashFree(steps)
  }

  predicate CrashFree(steps: seq<Step>)
  {
    forall s :: s in steps ==> !s.Crash?
  }

  // ---------------------------------------------------------------------------
  // What an uninterrupted run would do, as a function of the log alone

  /** The state holds, per key, its last content. */
  ghost predicate Knows<R>(op: Operator<R>, rs: seq<R>, st: map<string, DedupState>)
  {
    forall k :: KnowsContent(op, rs, st, k)
  }

  predicate KnowsContent<R>(op: Operator<R>, rs: seq<R>, st: map<string, DedupState>, k: string)
  {
    var own := OfKey(op, rs, k);
    && (k in st <==> own != [])
    && (k in st ==> st[k].payloadHash == op.hash(Last(own)))
  }

  /** The state holds, per key, the version that introduced its last content. */
  ghost predicate KnowsVersions<R>(op: Operator<R>, rs: seq<R>, st: map<string, DedupState>)
  {
    forall k :: KnowsVersion(op, rs, st, k)
  }

  predicate KnowsVersion<R>(op: Operator<R>, rs: seq<R>, st: map<string, DedupState>, k: string)
  {
    var news := Collapse(op, OfKey(op, rs, k));
    k in st ==> news != [] && st[k].sourceVersion == op.version(Last(news))
  }

  predicate Fresh<R>(op: Operator<R>, log: seq<R>, p: nat)
    requires p < |log|
  {
    !IsCurrent(op, log[..p], log[p])
  }

  /** Offsets below `n` whose record brings new content for its key. */
  function FreshOffsets<R>(op: Operator<R>, log: seq<R>, n: nat): seq<nat>
    requires n <= |log|
  {
    if n == 0 then []
    else if Fresh(op, log, n - 1) then FreshOffsets(op, log, n - 1) + [n - 1]
    else FreshOffsets(op, log, n - 1)
  }

  /** The last offset of key `k` in an output, or -1. */
  function LastOffset<R>(op: Operator<R>, log: seq<R>, out: seq<nat>, k: string): (q: int)
    ensures q >= 0 ==> q in out && q < |log| && op.key(log[q]) == k
  {
    if out == [] then -1
    else if Last(out) < |log| && op.key(log[Last(out)]) == k then Last(out)
    else LastOffset(op, log, DropLast(out), k)
  }

  /** One more record: the state knows its content, and new content is never dropped. */
  lemma {:induction false} StepKnows<R>(op: Operator<R>, rs: seq<R>, st: map<string, DedupState>, r: R, now: int)
    requires Knows(op, rs, st)
    ensures Knows(op, rs + [r], NextState(op, st, Sighting(r, now)))
    ensures DecisionFor(op, st, Sighting(r, now)).Drop? ==> IsCurrent(op, rs, r)
  {
    assert KnowsContent(op, rs, st, op.key(r));
    forall k
      ensures KnowsContent(op, rs + [r], NextState(op, st, Sighting(r, now)), k)
    {
      assert KnowsContent(op, rs, st, k);
      OfKeySnoc(op, rs, r, k);
    }
  }

  /** A record that is no expired repeat is dropped exactly when it is current. */
  lemma TimelyDrop<R>(op: Operator<R>, rs: seq<R>, st: map<string, DedupState>, r: R, now: int)
    requires Knows(op, rs, st)
    requires op.key(r) in st && st[op.key(r)].payloadHash == op.hash(r) ==>
               now < st[op.key(r)].lastSeenAt + op.ttlMs
    ensures DecisionFor(op, st, Sighting(r, now)).Drop? <==> IsCurrent(op, rs, r)
  {
    assert KnowsContent(op, rs, st, op.key(r));
  }

  /** After it the state still knows the versions. */
  lemma {:induction false} TimelyStepKnows<R>(op: Operator<R>, rs: seq<R>, st: map<string, DedupState>, r: R, now: int)
    requires Knows(op, rs, st) && KnowsVersions(op, rs, st)
    requires DecisionFor(op, st, Sighting(r, now)).Drop? <==> IsCurrent(op, rs, r)
    ensures KnowsVersions(op, rs + [r], NextState(op, st, Sighting(r, now)))
  {
    forall k
      ensures KnowsVersion(op, rs + [r], NextState(op, st, Sighting(r, now)), k)
    {
      assert KnowsContent(op, rs, st, k) && KnowsVersion(op, rs, st, k);
      OfKeySnoc(op, rs, r, k);
      CollapseSnoc(op, OfKey(op, rs, k), r);
    }
  }

  // ---------------------------------------------------------------------------
  // The invariant

  predicate InRange(out: seq<nat>, high: nat)
  {
    forall p :: p in out ==> p < high
  }

  /** Key `k`'s last output has the content of its last record below `n`, or lies ahead of `n`. */
  predicate UpToDate<R>(op: Operator<R>, log: seq<R>, out: seq<nat>, n: nat, k: string)
    requires n <= |log|
  {
    var q, own := LastOffset(op, log, out, k), OfKey(op, log[..n], k);
    q >= n || (own != [] ==> q >= 0 && op.hash(log[q]) == op.hash(Last(own)))
  }

  /** `out` is a possible output of a job that now stands at offset `n`. */
  ghost predicate Covers<R>(op: Operator<R>, log: seq<R>, out: seq<nat>, n: nat, high: nat)
  {
    && n <= high <= |log|
    && InRange(out, high)
    && Subseq(FreshOffsets(op, log, n), out)
    && forall k :: UpToDate(op, log, out, n, k)
  }

  ghost predicate Inv<R>(op: Operator<R>, log: seq<R>, j: Job)
  {
    && j.savedOffset <= j.offset <= j.furthest <= |log|
    && Knows(op, log[..j.offset], j.state)
    && Knows(op, log[..j.savedOffset], j.savedState)
    && Covers(op, log, j.durable, j.savedOffset, j.furthest)
    && Covers(op, log, Output(j), j.offset, j.furthest)
    && (forall p :: p in j.buffered ==> j.savedOffset <= p)
  }

  function Furthest(n: nat, high: nat): nat
  {
    if n > high then n else high
  }

  /** Emitting the record at `n` keeps every key's last output in step. */
  lemma {:induction false} CoversEmit<R>(op: Operator<R>, log: seq<R>, out: seq<nat>, n: nat, high: nat)
    requires Covers(op, log, out, n, high) && n < |log|
    ensures Covers(op, log, out + [n], n + 1, Furthest(n + 1, high))
  {
    var m := n + 1;
    if Fresh(op, log, n) {
      SubseqAppend(FreshOffsets(op, log, n), out, [n]);
    } else {
      SubseqExtend(FreshOffsets(op, log, n), out, [n]);
    }
    assert DropLast(out + [n]) == out && log[..m] == log[..n] + [log[n]];
    forall k
      ensures UpToDate(op, log, out + [n], m, k)
    {
      assert UpToDate(op, log, out, n, k);
      OfKeySnoc(op, log[..n], log[n], k);
    }
  }

  /** So does dropping it, if its key last had its content. */
  lemma {:induction false} CoversDrop<R>(op: Operator<R>, log: seq<R>, out: seq<nat>, n: nat, high: nat)
    requires Covers(op, log, out, n, high) && n < |log| && !Fresh(op, log, n)
    ensures Covers(op, log, out, n + 1, Furthest(n + 1, high))
  {
    var m := n + 1;
    assert log[..m] == log[..n] + [log[n]];
    forall k
      ensures UpToDate(op, log, out, m, k)
    {
      assert UpToDate(op, log, out, n, k);
      OfKeySnoc(op, log[..n], log[n], k);
    }
  }

  /** Output that lies ahead of `n` may be appended freely. */
  lemma {:induction false} CoversAhead<R>(
      op: Operator<R>, log: seq<R>, out: seq<nat>, ahead: seq<nat>, n: nat, high: nat)
    requires Covers(op, log, out, n, high)
    requires InRange(ahead, high)
    requires forall p :: p in ahead ==> n <= p
    ensures Covers(op, log, out + ahead, n, high)
    decreases |ahead|
  {
    if ahead == [] {
      assert out + ahead == out;
    } else {
      assert forall p :: p in DropLast(ahead) ==> p in ahead;
      CoversAhead(op, log, out, DropLast(ahead), n, high);
      SubseqExtend(FreshOffsets(op, log, n), out, ahead);
      assert DropLast(out + ahead) == out + DropLast(ahead);
      assert Last(ahead) in ahead;
      forall k
        ensures UpToDate(op, log, out + ahead, n, k)
      {
        assert UpToDate(op, log, out + DropLast(ahead), n, k);
      }
    }
  }

  lemma {:induction false} CoversLater<R>(op: Operator<R>, log: seq<R>, out: seq<nat>, n: nat, high: nat, high': nat)
    requires Covers(op, log, out, n, high) && high <= high' <= |log|
    ensures Covers(op, log, out, n, high')
  {
  }

  /** Reading a record emits it or not; it is never dropped if it is fresh. */
  lemma {:induction false} ProcessEffect<R>(op: Operator<R>, log: seq<R>, j: Job, now: int, j': Job)
    requires j.offset <= |log| && Knows(op, log[..j.offset], j.state)
    requires Next(op, log, j, Process(now)) == Some(j')
    ensures Knows(op, log[..j'.offset], j'.state)
    ensures || (Output(j') == Output(j) + [j.offset] && j'.buffered == j.buffered + [j.offset])
            || (Output(j') == Output(j) && j'.buffered == j.buffered && !Fresh(op, log, j.offset))
  {
    StepKnows(op, log[..j.offset], j.state, log[j.offset], now);
    assert log[..j'.offset] == log[..j.offset] + [log[j.offset]];
    assert Output(j) + [j.offset] == j.durable + (j.buffered + [j.offset]);
  }

  lemma {:induction false} ProcessCovers<R>(op: Operator<R>, log: seq<R>, j: Job, now: int, j': Job)
    requires Covers(op, log, Output(j), j.offset, j.furthest) && Knows(op, log[..j.offset], j.state)
    requires Next(op, log, j, Process(now)) == Some(j')
    ensures Covers(op, log, Output(j'), j'.offset, j'.furthest)
  {
    ProcessEffect(op, log, j, now, j');
    if Output(j') == Output(j) + [j.offset] {
      CoversEmit(op, log, Output(j), j.offset, j.furthest);
    } else {
      CoversDrop(op, log, Output(j), j.offset, j.furthest);
    }
  }

  lemma {:induction false} ProcessKeepsInv<R>(op: Operator<R>, log: seq<R>, j: Job, now: int, j': Job)
    requires Inv(op, log, j) && Next(op, log, j, Process(now)) == Some(j')
    ensures Inv(op, log, j')
  {
    ProcessEffect(op, log, j, now, j');
    ProcessCovers(op, log, j, now, j');
    CoversLater(op, log, j.durable, j.savedOffset, j.furthest, j'.furthest);
  }

  lemma {:induction false} CrashKeepsInv<R>(op: Operator<R>, log: seq<R>, j: Job, survivors: seq<nat>, j': Job)
    requires Inv(op, log, j) && Next(op, log, j, Crash(survivors)) == Some(j')
    ensures Inv(op, log, j')
  {
    forall p | p in survivors
      ensures p in j.buffered && p in Output(j)
    {
      SubseqMember(survivors, j.buffered, p);
    }
    CoversAhead(op, log, j.durable, survivors, j.savedOffset, j.furthest);
    assert Output(j') == j.durable + survivors;
  }

  lemma {:induction false} StepKeepsInv<R>(op: Operator<R>, log: seq<R>, j: Job, step: Step, j': Job)
    requires Inv(op, log, j) && Next(op, log, j, step) == Some(j')
    ensures Inv(op, log, j')
  {
    match step
    case Process(now) => ProcessKeepsInv(op, log, j, now, j');
    case Checkpoint => assert Output(j') == Output(j);
    case Crash(survivors) => CrashKeepsInv(op, log, j, survivors, j');
  }

  lemma {:induction false} RunKeepsInv<R>(op: Operator<R>, log: seq<R>, steps: seq<Step>)
    requires Run(op, log, steps).Some?
    ensures Inv(op, log, Run(op, log, steps).value)
    decreases |steps|
  {
    if steps == [] {
      assert Output(START) == [];
      assert log[..0] == [];
      forall k
        ensures UpToDate(op, log, [], 0, k) && KnowsContent(op, log[..0], map[], k)
      {
      }
    } else {
      RunKeepsInv(op, log, DropLast(steps));
      StepKeepsInv(op, log, Run(op, log, DropLast(steps)).value, Last(steps), Run(op, log, steps).value);
    }
  }

  // ---------------------------------------------------------------------------
  // Runs that read no expired repeat

  /** Every output brings new content, and the states know the versions. */
  ghost predicate TimelyInv<R>(op: Operator<R>, log: seq<R>, j: Job)
  {
    && j.savedOffset <= j.offset <= |log|
    && KnowsVersions(op, log[..j.offset], j.state)
    && KnowsVersions(op, log[..j.savedOffset], j.savedState)
    && forall p :: p in Output(j) ==> p < |log| && Fresh(op, log, p)
  }

  lemma {:induction false} TimelyProcess<R>(op: Operator<R>, log: seq<R>, j: Job, now: int, j': Job)
    requires j.offset <= |log| && Knows(op, log[..j.offset], j.state) && KnowsVersions(op, log[..j.offset], j.state)
    requires Timely(op, log, j, Process(now)) && Next(op, log, j, Process(now)) == Some(j')
    ensures KnowsVersions(op, log[..j'.offset], j'.state)
    ensures Output(j') == if Fresh(op, log, j.offset) then Output(j) + [j.offset] else Output(j)
  {
    TimelyDrop(op, log[..j.offset], j.state, log[j.offset], now);
    TimelyStepKnows(op, log[..j.offset], j.state, log[j.offset], now);
    assert log[..j'.offset] == log[..j.offset] + [log[j.offset]];
    assert Output(j) + [j.offset] == j.durable + (j.buffered + [j.offset]);
  }

  lemma {:induction false} TimelyStep<R>(op: Operator<R>, log: seq<R>, j: Job, step: Step, j': Job)
    requires Inv(op, log, j) && TimelyInv(op, log, j)
    requires Timely(op, log, j, step) && Next(op, log, j, step) == Some(j')
    ensures TimelyInv(op, log, j')
  {
    match step
    case Process(now) => TimelyProcess(op, log, j, now, j');
    case Checkpoint => assert Output(j') == Output(j);
    case Crash(survivors) =>
      forall p | p in survivors
        ensures p in Output(j)
      {
        SubseqMember(survivors, j.buffered, p);
      }
      assert Output(j') == j.durable + survivors;
  }

  lemma {:induction false} TimelyRunKeepsInv<R>(op: Operator<R>, log: seq<R>, steps: seq<Step>)
    requires Run(op, log, steps).Some? && TimelyRun(op, log, steps)
    ensures TimelyInv(op, log, Run(op, log, steps).value)
    decreases |steps|
  {
    if steps == [] {
      assert Output(START) == [];
      forall k
        ensures KnowsVersion(op, log[..0], map[], k)
      {
      }
    } else {
      var j := Run(op, log, DropLast(steps)).value;
      TimelyRunKeepsInv(op, log, DropLast(steps));
      RunKeepsInv(op, log, DropLast(steps));
      TimelyStep(op, log, j, Last(steps), Run(op, log, steps).value);
    }
  }

  /** Without a crash and without expired repeats the output is exactly the fresh offsets read so far. */
  lemma {:induction false} UninterruptedOutput<R>(op: Operator<R>, log: seq<R>, steps: seq<Step>)
    requires Run(op, log, steps).Some? && TimelyRun(op, log, steps) && CrashFree(steps)
    ensures var j := Run(op, log, steps).value;
            j.offset <= |log| && Output(j) == FreshOffsets(op, log, j.offset)
    decreases |steps|
  {
    if steps != [] {
      var before, last := DropLast(steps), Last(steps);
      assert last in steps && forall s :: s in before ==> s in steps;
      UninterruptedOutput(op, log, before);
      RunKeepsInv(op, log, before);
      TimelyRunKeepsInv(op, log, before);
      var j, j' := Run(op, log, before).value, Run(op, log, steps).value;
      if last.Process? {
        TimelyProcess(op, log, j, last.now, j');
      } else {
        assert Output(j') == Output(j);
      }
    }
  }

  // ---------------------------------------------------------------------------
  // Recovery

  /** The content a state holds for each key. */
  function Contents(st: map<string, DedupState>): map<string, string>
  {
    map k | k in st :: st[k].payloadHash
  }

  /** The version and content a state holds for each key, without the sighting times. */
  function Timeless(st: map<string, DedupState>): map<string, (string, Option<string>)>
  {
    map k | k in st :: (st[k].payloadHash, st[k].sourceVersion)
  }

  lemma ReachableInv<R>(op: Operator<R>, log: seq<R>, j: Job)
    requires Reachable(op, log, j)
    ensures Inv(op, log, j)
  {
    var steps :| Run(op, log, steps) == Some(j);
    RunKeepsInv(op, log, steps);
  }

  lemma TimelyReachableInv<R>(op: Operator<R>, log: seq<R>, j: Job)
    requires TimelyReachable(op, log, j)
    ensures Inv(op, log, j) && TimelyInv(op, log, j)
  {
    var steps :| Run(op, log, steps) == Some(j) && TimelyRun(op, log, steps);
    RunKeepsInv(op, log, steps);
    TimelyRunKeepsInv(op, log, steps);
  }

  lemma SmoothIsTimely<R>(op: Operator<R>, log: seq<R>, u: Job)
    requires SmoothlyReachable(op, log, u)
    ensures TimelyReachable(op, log, u)
    ensures u.offset <= |log| && Output(u) == FreshOffsets(op, log, u.offset)
  {
    var smooth :| Run(op, log, smooth) == Some(u) && TimelyRun(op, log, smooth) && CrashFree(smooth);
    UninterruptedOutput(op, log, smooth);
  }

  /**
   * However often the job crashed, and whatever expired: at the same offset it holds the same contents
   * as a job that never crashed and read no expired repeat, and its output has lost nothing and
   * reordered nothing of that job's. If it read none either, it holds the same versions too.
   */
  lemma {:induction false} RecoveryLosesNothing<R>(op: Operator<R>, log: seq<R>, j: Job, u: Job)
    requires Reachable(op, log, j) && SmoothlyReachable(op, log, u) && j.offset == u.offset
    ensures Contents(j.state) == Contents(u.state)
    ensures Subseq(Output(u), Output(j))
    ensures TimelyReachable(op, log, j) ==> Timeless(j.state) == Timeless(u.state)
  {
    ReachableInv(op, log, j);
    SmoothIsTimely(op, log, u);
    TimelyReachableInv(op, log, u);
    SameContents(op, log[..j.offset], j.state, u.state);
    if TimelyReachable(op, log, j) {
      TimelyReachableInv(op, log, j);
      SameVersions(op, log[..j.offset], j.state, u.state);
    }
  }

  lemma SameContents<R>(op: Operator<R>, rs: seq<R>, st: map<string, DedupState>, st': map<string, DedupState>)
    requires Knows(op, rs, st) && Knows(op, rs, st')
    ensures Contents(st) == Contents(st')
  {
    forall k
      ensures k in st <==> k in st'
      ensures k in st ==> Contents(st)[k] == Contents(st')[k]
    {
      assert KnowsContent(op, rs, st, k) && KnowsContent(op, rs, st', k);
    }
  }

  lemma SameVersions<R>(op: Operator<R>, rs: seq<R>, st: map<string, DedupState>, st': map<string, DedupState>)
    requires Knows(op, rs, st) && Knows(op, rs, st') && KnowsVersions(op, rs, st) && KnowsVersions(op, rs, st')
    ensures Timeless(st) == Timeless(st')
  {
    forall k
      ensures k in st <==> k in st'
      ensures k in st ==> Timeless(st)[k] == Timeless(st')[k]
    {
      assert KnowsContent(op, rs, st, k) && KnowsContent(op, rs, st', k);
      assert KnowsVersion(op, rs, st, k) && KnowsVersion(op, rs, st', k);
    }
  }

  /**
   * Once the job has read everything it had ever read before a crash, the last record in the output
   * for every key carries the content of the last input record of that key, whatever expired.
   */
  lemma {:induction false} CaughtUpOutputIsCurrent<R>(op: Operator<R>, log: seq<R>, j: Job, k: string)
    requires Reachable(op, log, j) && j.offset == j.furthest
    ensures j.offset <= |log|
    ensures var own := OfKey(op, log[..j.offset], k);
            own != [] ==>
              var q := LastOffset(op, log, Output(j), k);
              0 <= q < j.offset && op.hash(log[q]) == op.hash(Last(own))
  {
    ReachableInv(op, log, j);
    assert UpToDate(op, log, Output(j), j.offset, k);
  }

  /** Every content the log brings for a key is brought by some fresh offset. */
  lemma {:induction false} ContentHasFreshOffset<R>(op: Operator<R>, log: seq<R>, n: nat, i: nat) returns (p: nat)
    requires i < n <= |log|
    ensures p in FreshOffsets(op, log, n) && p <= i
    ensures op.key(log[p]) == op.key(log[i]) && op.hash(log[p]) == op.hash(log[i])
    decreases i
  {
    if Fresh(op, log, i) {
      p := i;
      FreshOffsetsComplete(op, log, n, i);
    } else {
      var k := op.key(log[i]);
      var own := OfKey(op, log[..i], k);
      OfKeyMembers(op, log[..i], k);
      assert Last(own) in own;
      var j: nat :| j < i && log[..i][j] == Last(own);
      p := ContentHasFreshOffset(op, log, n, j);
    }
  }

  lemma {:induction false} FreshOffsetsComplete<R>(op: Operator<R>, log: seq<R>, n: nat, p: nat)
    requires p < n <= |log| && Fresh(op, log, p)
    ensures p in FreshOffsets(op, log, n)
  {
    if p < n - 1 {
      FreshOffsetsComplete(op, log, n - 1, p);
    }
  }

  /** However often the job crashed, and whatever expired, every content it has read past is in its output. */
  lemma {:induction false} EveryContentIsOutput<R>(op: Operator<R>, log: seq<R>, j: Job, i: nat)
    requires Reachable(op, log, j) && i < j.offset
    ensures i < |log|
    ensures exists p: nat :: && p in Output(j) && p < |log|
                             && op.key(log[p]) == op.key(log[i]) && op.hash(log[p]) == op.hash(log[i])
  {
    ReachableInv(op, log, j);
    var p := ContentHasFreshOffset(op, log, j.offset, i);
    SubseqMember(FreshOffsets(op, log, j.offset), Output(j), p);
  }

  // ---------------------------------------------------------------------------
  // Crashes and catching up are always possible

  /** From any state the job can read on to the end of the log, at any time; what it has put out stays. */
  lemma {:induction false} ReadsOn<R>(op: Operator<R>, log: seq<R>, steps: seq<Step>, now: int)
      returns (rest: seq<Step>, j: Job)
    requires Run(op, log, steps).Some? && Run(op, log, steps).value.offset <= |log|
    ensures forall s :: s in rest ==> s == Process(now)
    ensures Run(op, log, steps + rest) == Some(j) && j.offset == |log|
    ensures Output(Run(op, log, steps).value) <= Output(j)
    decreases |log| - Run(op, log, steps).value.offset
  {
    var i := Run(op, log, steps).value;
    if i.offset == |log| {
      rest, j := [], i;
      assert steps + rest == steps;
    } else {
      assert DropLast(steps + [Process(now)]) == steps;
      var more: seq<Step>;
      more, j := ReadsOn(op, log, steps + [Process(now)], now);
      rest := [Process(now)] + more;
      assert steps + rest == steps + [Process(now)] + more;
    }
  }

  /**
   * After any run, any part of the unflushed output can survive a crash. The job is then back at its
   * checkpoint, in offset and state, has lost nothing that was flushed, and can read on to the end of the log.
   */
  lemma {:induction false} CrashThenCatchUp<R>(
      op: Operator<R>, log: seq<R>, steps: seq<Step>, survivors: seq<nat>, now: int)
      returns (crashed: Job, rest: seq<Step>, j: Job)
    requires Run(op, log, steps).Some? && Subseq(survivors, Run(op, log, steps).value.buffered)
    ensures Run(op, log, []) == Some(START)
    ensures var i := Run(op, log, steps).value;
            && Run(op, log, steps + [Crash(survivors)]) == Some(crashed)
            && crashed.offset == i.savedOffset && crashed.state == i.savedState
            && Output(crashed) == i.durable + survivors
    ensures Run(op, log, steps + [Crash(survivors)] + rest) == Some(j)
    ensures j.offset == |log| && Output(crashed) <= Output(j)
  {
    RunKeepsInv(op, log, steps);
    assert DropLast(steps + [Crash(survivors)]) == steps;
    crashed := Run(op, log, steps + [Crash(survivors)]).value;
    assert Output(crashed) == crashed.durable;
    rest, j := ReadsOn(op, log, steps + [Crash(survivors)], now);
  }
}
