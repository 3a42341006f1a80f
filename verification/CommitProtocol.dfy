/**
 * The ingestion commit protocol as a step machine: every external write is one step, the broker
 * acts between any two of them, and the process may crash, or abandon a poll, at any point.
 */
module CommitProtocol {
  import opened Wrappers
  import opened Sequences
  import opened UsgsEvents

  datatype Setup = Setup(codec: Codec, toleranceMs: int)

  datatype Message = Message(event: UsgsEvent, ingestedMs: int)

  /** A message in the producer's queue, and whether the broker has stored it. */
  datatype Entry = Entry(message: Message, stored: bool)

  datatype Phase =
    | Idle
    | Scanning(feed: seq<UsgsEvent>, next: nat, pending: seq<UsgsEvent>, invalid: nat, nowMs: int)
    | Flushing(pending: seq<UsgsEvent>, delivered: set<string>)
    | Committing(pending: seq<UsgsEvent>, next: nat, delivered: set<string>, maxMs: int)

  /**
   * The store (`markers`, `cursorMs`) and the broker's `topic` survive a crash; the producer's queue
   * `inflight` and the poll in progress do not. The last three fields only record history: valid
   * events in the order polls saw them, events acknowledged, events whose marker was recorded.
   */
  datatype Sys = Sys(
    markers: map<string, string>, cursorMs: Option<int>,
    topic: seq<Message>, inflight: seq<Entry>, phase: Phase,
    saw: seq<UsgsEvent>, acked: set<UsgsEvent>, recorded: seq<UsgsEvent>)

  datatype Step =
    | Begin(feed: seq<UsgsEvent>, parseErrors: nat, nowMs: int)
    | Scan
    | EndScan
    | Store(j: nat)
    | Ack(j: nat)
    | Fail(j: nat)
    | EndFlush
    | Commit
    | SetCursor
    | Crash
    | Abort
    | Expire(id: string)

  const START := Sys(map[], None, [], [], Idle, [], {}, [])

  function OrZero(cursorMs: Option<int>): int {
    if cursorMs.Some? then cursorMs.value else 0
  }

  function Max(x: int, y: int): int {
    if x < y then y else x
  }

  predicate IsDuplicate(setup: Setup, markers: map<string, string>, e: UsgsEvent) {
    e.sourceEventId in markers && markers[e.sourceEventId] == setup.codec.Marker(e)
  }

  /** No earlier unstored message has the same key: the idempotent producer keeps per-key order. */
  predicate Storable(q: seq<Entry>, j: nat) {
    && j < |q| && !q[j].stored
    && forall i :: 0 <= i < j && q[i].message.event.sourceEventId == q[j].message.event.sourceEventId ==> q[i].stored
  }

  function Next(setup: Setup, s: Sys, step: Step): Option<Sys> {
    match (step, s.phase)
    case (Begin(feed, parseErrors, nowMs), Idle) =>
      Some(s.(phase := Scanning(feed, 0, [], parseErrors, nowMs)))
    case (Scan, Scanning(feed, next, pending, invalid, nowMs)) =>
      if next >= |feed| then None
      else
        var e := feed[next];
        if !Acceptable(e, nowMs, setup.toleranceMs) then
          Some(s.(phase := Scanning(feed, next + 1, pending, invalid + 1, nowMs)))
        else if IsDuplicate(setup, s.markers, e) then
          Some(s.(phase := Scanning(feed, next + 1, pending, invalid, nowMs), saw := s.saw + [e]))
        else
          Some(s.(phase := Scanning(feed, next + 1, pending + [e], invalid, nowMs), saw := s.saw + [e],
                  inflight := s.inflight + [Entry(Message(e, nowMs), false)]))
    case (EndScan, Scanning(feed, next, pending, invalid, nowMs)) =>
      if next < |feed| then None
      else Some(s.(phase := if pending != [] || invalid > 0 then Flushing(pending, {}) else Idle))
    case (Store(j), _) =>
      if !Storable(s.inflight, j) then None
      else Some(s.(inflight := s.inflight[j := s.inflight[j].(stored := true)],
                   topic := s.topic + [s.inflight[j].message]))
    case (Ack(j), Flushing(pending, delivered)) =>
      if j >= |s.inflight| || !s.inflight[j].stored then None
      else
        var e := s.inflight[j].message.event;
        Some(s.(inflight := RemoveAt(s.inflight, j), acked := s.acked + {e},
                phase := Flushing(pending, delivered + {e.sourceEventId})))
    case (Fail(j), Flushing(_, _)) =>
      if j >= |s.inflight| then None else Some(s.(inflight := RemoveAt(s.inflight, j)))
    case (EndFlush, Flushing(pending, delivered)) =>
      Some(s.(phase := Committing(pending, 0, delivered, OrZero(s.cursorMs))))
    case (Commit, Committing(pending, next, delivered, maxMs)) =>
      if next >= |pending| then None
      else
        var e := pending[next];
        if e.sourceEventId in delivered then
          Some(s.(markers := s.markers[e.sourceEventId := setup.codec.Marker(e)], recorded := s.recorded + [e],
                  phase := Committing(pending, next + 1, delivered, Max(maxMs, e.updatedMs))))
        else
          Some(s.(phase := Committing(pending, next + 1, delivered, maxMs)))
    case (SetCursor, Committing(pending, next, delivered, maxMs)) =>
      if next < |pending| then None
      else Some(s.(cursorMs := if maxMs != 0 then Some(maxMs) else s.cursorMs, phase := Idle))
    case (Crash, _) => Some(s.(inflight := [], phase := Idle))
    case (Abort, Scanning(_, _, _, _, _)) => Some(s.(phase := Idle))
    case (Abort, Committing(_, _, _, _)) => Some(s.(phase := Idle))
    case (Expire(id), _) => Some(s.(markers := s.markers - {id}))
    case _ => None
  }

  /** The system after the given steps, if they are possible one after another. */
  function Run(setup: Setup, steps: seq<Step>): Option<Sys> {
    RunFrom(setup, START, steps)
  }

  function RunFrom(setup: Setup, s: Sys, steps: seq<Step>): Option<Sys> {
    if steps == [] then Some(s)
    else
      match RunFrom(setup, s, DropLast(steps))
      case None => None
      case Some(t) => Next(setup, t, Last(steps))
  }

  // ---------------------------------------------------------------------------
  // When a flush confirms rightly

  /** Every queued message of `e`'s id carries exactly `e`. */
  predicate Uniform(q: seq<Entry>, e: UsgsEvent) {
    forall x :: x in q && x.message.event.sourceEventId == e.sourceEventId ==> x.message.event == e
  }

  /** Each pending event is acknowledged, or no other version of it is queued. */
  predicate Confirmable(s: Sys, pending: seq<UsgsEvent>) {
    forall e :: e in pending ==> e in s.acked || Uniform(s.inflight, e)
  }

  predicate BrokerActs(steps: seq<Step>) {
    forall x :: x in steps ==> x.Store? || x.Ack? || x.Fail?
  }

  /** Ending the flush now would confirm acknowledged events only. */
  predicate ConfirmsAckedOnly(s: Sys) {
    && s.phase.Flushing?
    && forall e :: e in s.phase.pending && e.sourceEventId in s.phase.delivered ==> e in s.acked
  }

  lemma RemoveAtMembers<T>(q: seq<T>, j: nat)
    requires j < |q|
    ensures forall x :: x in RemoveAt(q, j) ==> x in q
  {
  }

  /** Marking a message stored changes no event in the queue. */
  lemma StoreKeepsEvents(q: seq<Entry>, j: nat)
    requires j < |q|
    ensures var q' := q[j := q[j].(stored := true)];
            forall e :: Uniform(q, e) ==> Uniform(q', e)
  {
    var q' := q[j := q[j].(stored := true)];
    forall e | Uniform(q, e)
      ensures Uniform(q', e)
    {
      forall i | 0 <= i < |q'| && q'[i].message.event.sourceEventId == e.sourceEventId
        ensures q'[i].message.event == e
      {
        assert q[i] in q;
      }
    }
  }

  lemma {:induction false} BrokerStepKeepsConfirmable(setup: Setup, s: Sys, step: Step, t: Sys)
    requires s.phase.Flushing? && Confirmable(s, s.phase.pending) && ConfirmsAckedOnly(s)
    requires (step.Store? || step.Ack? || step.Fail?) && Next(setup, s, step) == Some(t)
    ensures t.phase.Flushing? && t.phase.pending == s.phase.pending
    ensures Confirmable(t, s.phase.pending) && ConfirmsAckedOnly(t)
  {
    if step.Store? {
      StoreKeepsEvents(s.inflight, step.j);
    } else {
      RemoveAtMembers(s.inflight, step.j);
    }
  }

  lemma {:induction false} BrokerKeepsConfirmable(setup: Setup, s: Sys, steps: seq<Step>, t: Sys)
    requires s.phase.Flushing? && Confirmable(s, s.phase.pending) && ConfirmsAckedOnly(s)
    requires BrokerActs(steps) && RunFrom(setup, s, steps) == Some(t)
    ensures t.phase.Flushing? && t.phase.pending == s.phase.pending
    ensures Confirmable(t, s.phase.pending) && ConfirmsAckedOnly(t)
    decreases |steps|
  {
    if steps != [] {
      assert Last(steps) in steps && forall x :: x in DropLast(steps) ==> x in steps;
      var r := RunFrom(setup, s, DropLast(steps)).value;
      BrokerKeepsConfirmable(setup, s, DropLast(steps), r);
      BrokerStepKeepsConfirmable(setup, r, Last(steps), t);
    }
  }

  lemma Extend(setup: Setup, origin: Sys, steps: seq<Step>, s: Sys, step: Step, t: Sys) returns (longer: seq<Step>)
    requires RunFrom(setup, origin, steps) == Some(s) && Next(setup, s, step) == Some(t)
    ensures longer == steps + [step] && RunFrom(setup, origin, longer) == Some(t)
  {
    longer := steps + [step];
    assert DropLast(longer) == steps;
  }

  /** The broker can store the first `n` queued messages, whatever else the queue holds. */
  lemma {:induction false} StoreFirst(setup: Setup, s: Sys, n: nat) returns (steps: seq<Step>, t: Sys)
    requires s.phase.Flushing? && n <= |s.inflight|
    ensures RunFrom(setup, s, steps) == Some(t) && BrokerActs(steps)
    ensures t.phase == s.phase && t.acked == s.acked && |t.inflight| == |s.inflight|
    ensures forall i :: 0 <= i < |s.inflight| ==> t.inflight[i].message == s.inflight[i].message
    ensures forall i :: 0 <= i < n ==> t.inflight[i].stored
  {
    if n == 0 {
      steps, t := [], s;
    } else {
      var r;
      steps, r := StoreFirst(setup, s, n - 1);
      if r.inflight[n - 1].stored {
        t := r;
      } else {
        t := Next(setup, r, Store(n - 1)).value;
        steps := Extend(setup, s, steps, r, Store(n - 1), t);
      }
    }
  }

  /** The broker may acknowledge exactly the message at `j`. */
  lemma {:induction false} AckOnly(setup: Setup, s: Sys, j: nat) returns (steps: seq<Step>, t: Sys)
    requires s.phase.Flushing? && j < |s.inflight|
    ensures RunFrom(setup, s, steps) == Some(t) && BrokerActs(steps)
    ensures var e := s.inflight[j].message.event;
            && t.acked == s.acked + {e}
            && t.phase == Flushing(s.phase.pending, s.phase.delivered + {e.sourceEventId})
  {
    var r;
    steps, r := StoreFirst(setup, s, j + 1);
    t := Next(setup, r, Ack(j)).value;
    steps := Extend(setup, s, steps, r, Ack(j), t);
  }

  /** One acknowledgement is enough to confirm a version that was not acknowledged. */
  lemma {:induction false} WrongConfirmation(setup: Setup, s: Sys) returns (steps: seq<Step>, t: Sys)
    requires s.phase.Flushing? && !Confirmable(s, s.phase.pending)
    ensures BrokerActs(steps) && RunFrom(setup, s, steps) == Some(t) && !ConfirmsAckedOnly(t)
  {
    var e :| e in s.phase.pending && e !in s.acked && !Uniform(s.inflight, e);
    var j: nat :| && j < |s.inflight| && s.inflight[j].message.event.sourceEventId == e.sourceEventId
                  && s.inflight[j].message.event != e;
    steps, t := AckOnly(setup, s, j);
    assert e.sourceEventId in t.phase.delivered && e !in t.acked;
  }

  /**
   * Acknowledgements are tracked per id. Whatever a flush makes the broker store, acknowledge and fail,
   * it confirms acknowledged events only: exactly when each pending event is acknowledged already or
   * shares its id with no other version in the queue.
   */
  lemma {:induction false} ConfirmationIsExactIff(setup: Setup, s: Sys)
    requires s.phase.Flushing? && s.phase.delivered == {}
    ensures (forall steps, t :: BrokerActs(steps) && RunFrom(setup, s, steps) == Some(t) ==> ConfirmsAckedOnly(t))
            <==> Confirmable(s, s.phase.pending)
  {
    if Confirmable(s, s.phase.pending) {
      forall steps, t | BrokerActs(steps) && RunFrom(setup, s, steps) == Some(t)
        ensures ConfirmsAckedOnly(t)
      {
        BrokerKeepsConfirmable(setup, s, steps, t);
      }
    } else {
      var steps, t := WrongConfirmation(setup, s);
    }
  }

  // ---------------------------------------------------------------------------
  // Commit only after acknowledgement

  /** The step does not start a flush that could confirm wrongly. */
  predicate Clean(s: Sys, step: Step) {
    step.EndScan? && s.phase.Scanning? ==> Confirmable(s, s.phase.pending)
  }

  predicate CleanRun(setup: Setup, steps: seq<Step>) {
    steps == [] ||
    (&& CleanRun(setup, DropLast(steps))
     && match Run(setup, DropLast(steps))
        case None => false
        case Some(s) => Clean(s, Last(steps)))
  }

  predicate InTopic(topic: seq<Message>, e: UsgsEvent) {
    exists m :: m in topic && m.event == e
  }

  predicate RecordedAs(setup: Setup, s: Sys, id: string, e: UsgsEvent) {
    id in s.markers && e in s.acked && e.sourceEventId == id && setup.codec.Marker(e) == s.markers[id]
  }

  /** Some run leads to `s`. */
  ghost predicate Reachable(setup: Setup, s: Sys) {
    exists steps :: Run(setup, steps) == Some(s)
  }

  /** Some run of clean steps leads to `s`. */
  ghost predicate CleanlyReachable(setup: Setup, s: Sys) {
    exists steps :: Run(setup, steps) == Some(s) && CleanRun(setup, steps)
  }

  ghost predicate AckedIsStored(s: Sys) {
    && (forall x :: x in s.inflight && x.stored ==> x.message in s.topic)
    && (forall e :: e in s.acked ==> InTopic(s.topic, e))
  }

  /** What the poll in progress has confirmed, or can come to confirm, is acknowledged. */
  predicate PollIsSafe(s: Sys) {
    match s.phase
    case Idle => true
    case Scanning(_, _, _, _, _) => true
    case Flushing(pending, _) => Confirmable(s, pending) && ConfirmsAckedOnly(s)
    case Committing(pending, _, delivered, _) =>
      forall e :: e in pending && e.sourceEventId in delivered ==> e in s.acked
  }

  ghost predicate CommitsAreAcked(setup: Setup, s: Sys) {
    && (forall e :: e in s.recorded ==> e in s.acked)
    && (forall id :: id in s.markers ==> exists e :: RecordedAs(setup, s, id, e))
  }

  lemma {:induction false} StepKeepsAckedIsStored(setup: Setup, s: Sys, step: Step, t: Sys)
    requires AckedIsStored(s) && Next(setup, s, step) == Some(t)
    ensures AckedIsStored(t)
  {
    assert forall m :: m in s.topic ==> m in t.topic;
    if step.Ack? || step.Fail? {
      RemoveAtMembers(s.inflight, step.j);
    }
    forall e | e in t.acked
      ensures InTopic(t.topic, e)
    {
      if e in s.acked {
        assert InTopic(s.topic, e);
        var m :| m in s.topic && m.event == e;
        assert m in t.topic;
      } else {
        assert s.inflight[step.j].message in t.topic;
      }
    }
  }

  lemma {:induction false} StepKeepsPollSafe(setup: Setup, s: Sys, step: Step, t: Sys)
    requires PollIsSafe(s) && Clean(s, step) && Next(setup, s, step) == Some(t)
    ensures PollIsSafe(t)
  {
    if s.phase.Flushing? && (step.Store? || step.Ack? || step.Fail?) {
      BrokerStepKeepsConfirmable(setup, s, step, t);
    }
  }

  /** A recorded marker stays justified as long as it stays. */
  lemma RecordedAsPersists(setup: Setup, s: Sys, t: Sys, id: string)
    requires id in s.markers && exists e :: RecordedAs(setup, s, id, e)
    requires id in t.markers && t.markers[id] == s.markers[id] && s.acked <= t.acked
    ensures exists e :: RecordedAs(setup, t, id, e)
  {
    var e :| RecordedAs(setup, s, id, e);
    assert RecordedAs(setup, t, id, e);
  }

  /** A step that records nothing adds no marker and takes no acknowledgement back. */
  lemma OnlyCommitsMark(setup: Setup, s: Sys, step: Step, t: Sys)
    requires Next(setup, s, step) == Some(t) && !(step.Commit? && t.recorded != s.recorded)
    ensures t.recorded == s.recorded && s.acked <= t.acked
    ensures forall id :: id in t.markers ==> id in s.markers && t.markers[id] == s.markers[id]
  {
  }

  lemma {:induction false} StepKeepsCommitsAcked(setup: Setup, s: Sys, step: Step, t: Sys)
    requires CommitsAreAcked(setup, s) && PollIsSafe(s) && Next(setup, s, step) == Some(t)
    ensures CommitsAreAcked(setup, t)
  {
    if step.Commit? && t.recorded != s.recorded {
      var e := s.phase.pending[s.phase.next];
      assert RecordedAs(setup, t, e.sourceEventId, e);
      forall id | id in t.markers && id != e.sourceEventId
        ensures exists d :: RecordedAs(setup, t, id, d)
      {
        RecordedAsPersists(setup, s, t, id);
      }
    } else {
      OnlyCommitsMark(setup, s, step, t);
      forall id | id in t.markers
        ensures exists e :: RecordedAs(setup, t, id, e)
      {
        RecordedAsPersists(setup, s, t, id);
      }
    }
  }

  lemma {:induction false} CleanRunIsSafe(setup: Setup, steps: seq<Step>)
    requires Run(setup, steps).Some? && CleanRun(setup, steps)
    ensures var s := Run(setup, steps).value;
            AckedIsStored(s) && PollIsSafe(s) && CommitsAreAcked(setup, s)
    decreases |steps|
  {
    if steps != [] {
      CleanRunIsSafe(setup, DropLast(steps));
      var s, t := Run(setup, DropLast(steps)).value, Run(setup, steps).value;
      StepKeepsAckedIsStored(setup, s, Last(steps), t);
      StepKeepsPollSafe(setup, s, Last(steps), t);
      StepKeepsCommitsAcked(setup, s, Last(steps), t);
    }
  }

  lemma ReachableIsSafe(setup: Setup, s: Sys)
    requires CleanlyReachable(setup, s)
    ensures AckedIsStored(s) && PollIsSafe(s) && CommitsAreAcked(setup, s)
  {
    var steps :| Run(setup, steps) == Some(s) && CleanRun(setup, steps);
    CleanRunIsSafe(setup, steps);
  }

  /**
   * Commit after ack, over every run with crashes anywhere: a stored marker is the marker of a
   * version the broker acknowledged, and that version is in the topic.
   */
  lemma {:induction false} MarkersBelongToStoredVersions(setup: Setup, s: Sys, id: string)
    requires CleanlyReachable(setup, s) && id in s.markers
    ensures exists e :: RecordedAs(setup, s, id, e) && InTopic(s.topic, e)
  {
    ReachableIsSafe(setup, s);
    var e :| RecordedAs(setup, s, id, e);
    assert InTopic(s.topic, e);
  }

  /**
   * A valid event that was never acknowledged is sent again by whichever poll meets it next, if it can
   * be told from the acknowledged ones by its marker.
   */
  lemma {:induction false} UnackedIsSentAgain(setup: Setup, events: iset<UsgsEvent>, s: Sys, e: UsgsEvent)
    requires setup.codec.Faithful(events) && e in events && forall d :: d in s.acked ==> d in events
    requires CleanlyReachable(setup, s)
    requires s.phase.Scanning? && s.phase.next < |s.phase.feed| && s.phase.feed[s.phase.next] == e
    requires e !in s.acked && Acceptable(e, s.phase.nowMs, setup.toleranceMs)
    ensures var t := Next(setup, s, Scan);
            && t.Some?
            && t.value.inflight == s.inflight + [Entry(Message(e, s.phase.nowMs), false)]
            && t.value.phase.pending == s.phase.pending + [e]
  {
    ReachableIsSafe(setup, s);
    if IsDuplicate(setup, s.markers, e) {
      var d :| RecordedAs(setup, s, e.sourceEventId, d);
      MarkerIdentifiesEvent(setup.codec, events, d, e);
      assert false;
    }
  }

  /**
   * Interruptions can come at any time: a crash loses the queue and the poll, an exception while scanning or
   * committing the poll alone, an expiry one marker. Nothing written elsewhere changes.
   */
  lemma Interruptions(setup: Setup, s: Sys, id: string)
    ensures Next(setup, s, Crash) == Some(s.(inflight := [], phase := Idle))
    ensures s.phase.Scanning? || s.phase.Committing? ==> Next(setup, s, Abort) == Some(s.(phase := Idle))
    ensures var t := Next(setup, s, Expire(id));
            && t.Some? && t.value == s.(markers := t.value.markers)
            && forall k :: (k in t.value.markers <==> k in s.markers && k != id)
                           && (k in t.value.markers ==> t.value.markers[k] == s.markers[k])
  {
  }

  /** The polls have seen exactly the scanned events that pass the checks, sent or not. */
  lemma OnlyScansSee(setup: Setup, s: Sys, step: Step, t: Sys)
    requires Next(setup, s, step) == Some(t)
    ensures step.Scan? ==> s.phase.Scanning? && s.phase.next < |s.phase.feed|
    ensures t.saw == if step.Scan? && Acceptable(s.phase.feed[s.phase.next], s.phase.nowMs, setup.toleranceMs)
                     then s.saw + [s.phase.feed[s.phase.next]] else s.saw
  {
  }

  /** Once its marker has expired a valid event is sent again by the poll that meets it. */
  lemma ExpiredIsSentAgain(setup: Setup, s: Sys, e: UsgsEvent)
    requires s.phase.Scanning? && s.phase.next < |s.phase.feed| && s.phase.feed[s.phase.next] == e
    requires Acceptable(e, s.phase.nowMs, setup.toleranceMs)
    ensures var t := RunFrom(setup, s, [Expire(e.sourceEventId), Scan]);
            && t.Some? && t.value.inflight == s.inflight + [Entry(Message(e, s.phase.nowMs), false)]
            && t.value.phase.pending == s.phase.pending + [e]
  {
    var steps := [Expire(e.sourceEventId), Scan];
    assert DropLast(steps) == [Expire(e.sourceEventId)] && DropLast(DropLast(steps)) == [];
    assert RunFrom(setup, s, DropLast(DropLast(steps))) == Some(s);
    assert RunFrom(setup, s, DropLast(steps)) == Next(setup, s, Expire(e.sourceEventId));
  }

  // ---------------------------------------------------------------------------
  // When runs are clean, and what goes wrong when they are not

  predicate DistinctIds(feed: seq<UsgsEvent>) {
    forall i, j :: 0 <= i < j < |feed| ==> feed[i].sourceEventId != feed[j].sourceEventId
  }

  /** Every poll starts with an empty queue on a feed without repeated ids. */
  predicate Disciplined(setup: Setup, steps: seq<Step>) {
    steps == [] ||
    (&& Disciplined(setup, DropLast(steps))
     && (Last(steps).Begin? ==>
          && DistinctIds(Last(steps).feed)
          && Run(setup, DropLast(steps)).Some? && Run(setup, DropLast(steps)).value.inflight == []))
  }

  predicate QueueFromFeed(s: Sys) {
    s.phase.Scanning? ==>
      && DistinctIds(s.phase.feed) && s.phase.next <= |s.phase.feed|
      && (forall x :: x in s.inflight ==> x.message.event in s.phase.feed[..s.phase.next])
      && (forall e :: e in s.phase.pending ==> e in s.phase.feed[..s.phase.next])
  }

  lemma OneVersionQueued(s: Sys)
    requires s.phase.Scanning? && QueueFromFeed(s)
    ensures Confirmable(s, s.phase.pending)
  {
    assert forall e :: e in s.phase.feed[..s.phase.next] ==> e in s.phase.feed;
  }

  lemma {:induction false} StepKeepsQueueFromFeed(setup: Setup, s: Sys, step: Step, t: Sys)
    requires QueueFromFeed(s) && Next(setup, s, step) == Some(t)
    requires step.Begin? ==> DistinctIds(step.feed) && s.inflight == []
    ensures Clean(s, step) && QueueFromFeed(t)
  {
    if s.phase.Scanning? {
      OneVersionQueued(s);
    }
    if s.phase.Scanning? && t.phase.Scanning? {
      assert s.phase.feed[..s.phase.next] <= t.phase.feed[..t.phase.next];
      forall x | x in t.inflight
        ensures x.message.event in t.phase.feed[..t.phase.next]
      {
        if !(exists y :: y in s.inflight && y.message == x.message) {
          assert x.message.event == t.phase.feed[..t.phase.next][s.phase.next];
        }
      }
      forall e | e in t.phase.pending
        ensures e in t.phase.feed[..t.phase.next]
      {
        if e !in s.phase.pending {
          assert e == t.phase.feed[..t.phase.next][s.phase.next];
        }
      }
    }
  }

  /** Distinct ids per feed and nothing carried over between flushes make every flush clean. */
  lemma {:induction false} DisciplinedRunIsClean(setup: Setup, steps: seq<Step>)
    requires Run(setup, steps).Some? && Disciplined(setup, steps)
    ensures CleanRun(setup, steps) && QueueFromFeed(Run(setup, steps).value)
    decreases |steps|
  {
    if steps != [] {
      DisciplinedRunIsClean(setup, DropLast(steps));
      StepKeepsQueueFromFeed(setup, Run(setup, DropLast(steps)).value, Last(steps), Run(setup, steps).value);
    }
  }

  lemma SendStep(setup: Setup, s: Sys, e: UsgsEvent, nowMs: int)
    requires s.phase == Scanning([e], 0, [], 0, nowMs)
    requires Acceptable(e, nowMs, setup.toleranceMs) && !IsDuplicate(setup, s.markers, e)
    ensures Next(setup, s, Scan)
         == Some(s.(inflight := s.inflight + [Entry(Message(e, nowMs), false)], saw := s.saw + [e],
                    phase := Scanning([e], 1, [e], 0, nowMs)))
  {
    assert [] + [e] == [e];
  }

  /** A poll of the one-event feed `[e]` sends `e` behind whatever the queue holds. */
  lemma SendOnly(setup: Setup, before: seq<Step>, s: Sys, e: UsgsEvent, nowMs: int) returns (steps: seq<Step>)
    requires Run(setup, before) == Some(s) && s.phase.Idle?
    requires Acceptable(e, nowMs, setup.toleranceMs) && !IsDuplicate(setup, s.markers, e)
    ensures Run(setup, steps) ==
            Some(s.(inflight := s.inflight + [Entry(Message(e, nowMs), false)], saw := s.saw + [e],
                    phase := Flushing([e], {})))
  {
    var scanning := s.(phase := Scanning([e], 0, [], 0, nowMs));
    var scanned := s.(inflight := s.inflight + [Entry(Message(e, nowMs), false)], saw := s.saw + [e],
                      phase := Scanning([e], 1, [e], 0, nowMs));
    SendStep(setup, scanning, e, nowMs);
    steps := Extend(setup, START, before, s, Begin([e], 0, nowMs), scanning);
    steps := Extend(setup, START, steps, scanning, Scan, scanned);
    steps := Extend(setup, START, steps, scanned, EndScan, scanned.(phase := Flushing([e], {})));
  }

  /** Version `v` is sent, not answered within the flush, and stays in the queue. */
  lemma LeaveInQueue(setup: Setup, v: UsgsEvent, nowMs: int) returns (steps: seq<Step>)
    requires Acceptable(v, nowMs, setup.toleranceMs)
    ensures Run(setup, steps) == Some(START.(inflight := [Entry(Message(v, nowMs), false)], saw := [v]))
  {
    steps := SendOnly(setup, [], START, v, nowMs);
    var left := START.(inflight := [Entry(Message(v, nowMs), false)], saw := [v]);
    assert [] + [v] == [v] && [] + [Entry(Message(v, nowMs), false)] == left.inflight;
    var flushed := left.(phase := Committing([v], 0, {}, 0));
    var skipped := left.(phase := Committing([v], 1, {}, 0));
    steps := Extend(setup, START, steps, left.(phase := Flushing([v], {})), EndFlush, flushed);
    steps := Extend(setup, START, steps, flushed, Commit, skipped);
    steps := Extend(setup, START, steps, skipped, SetCursor, left);
  }

  /** The next poll sends version `w` behind it. */
  lemma SendBehind(setup: Setup, v: UsgsEvent, w: UsgsEvent, nowMs: int) returns (steps: seq<Step>)
    requires Acceptable(v, nowMs, setup.toleranceMs) && Acceptable(w, nowMs, setup.toleranceMs)
    ensures Run(setup, steps) ==
            Some(START.(inflight := [Entry(Message(v, nowMs), false), Entry(Message(w, nowMs), false)], saw := [v, w],
                        phase := Flushing([w], {})))
  {
    var v', w' := Entry(Message(v, nowMs), false), Entry(Message(w, nowMs), false);
    steps := LeaveInQueue(setup, v, nowMs);
    steps := SendOnly(setup, steps, START.(inflight := [v'], saw := [v]), w, nowMs);
    assert [v] + [w] == [v, w] && [v'] + [w'] == [v', w'];
  }

  /** The broker then stores and acknowledges only `v`. */
  lemma AnswerOldVersion(setup: Setup, v: UsgsEvent, w: UsgsEvent, nowMs: int) returns (steps: seq<Step>)
    requires Acceptable(v, nowMs, setup.toleranceMs) && Acceptable(w, nowMs, setup.toleranceMs)
    ensures Run(setup, steps) ==
            Some(START.(inflight := [Entry(Message(w, nowMs), false)], saw := [v, w], topic := [Message(v, nowMs)],
                        acked := {v}, phase := Flushing([w], {v.sourceEventId})))
  {
    var v', w' := Entry(Message(v, nowMs), false), Entry(Message(w, nowMs), false);
    var sent := START.(inflight := [v', w'], saw := [v, w], phase := Flushing([w], {}));
    var stored := sent.(inflight := [v'.(stored := true), w'], topic := [v'.message]);
    steps := SendBehind(setup, v, w, nowMs);
    assert sent.inflight[0 := v'.(stored := true)] == stored.inflight && [] + [v'.message] == [v'.message];
    steps := Extend(setup, START, steps, sent, Store(0), stored);
    assert RemoveAt(stored.inflight, 0) == [w'];
    assert {} + {v} == {v} && {} + {v.sourceEventId} == {v.sourceEventId};
    steps := Extend(setup, START, steps, stored, Ack(0),
      stored.(inflight := [w'], acked := {v}, phase := Flushing([w], {v.sourceEventId})));
  }

  /**
   * With a message carried over, the acknowledgement of the old version confirms the new one: there
   * is a run that records its marker although the broker never stored it.
   */
  lemma CarryOverConfirmsUnstored(setup: Setup, v: UsgsEvent, w: UsgsEvent, nowMs: int) returns (steps: seq<Step>)
    requires v != w && v.sourceEventId == w.sourceEventId
    requires Acceptable(v, nowMs, setup.toleranceMs) && Acceptable(w, nowMs, setup.toleranceMs)
    ensures Run(setup, steps).Some?
    ensures var s := Run(setup, steps).value;
            && s.markers == map[w.sourceEventId := setup.codec.Marker(w)]
            && !InTopic(s.topic, w) && w !in s.acked
  {
    steps := AnswerOldVersion(setup, v, w, nowMs);
    var acked := Run(setup, steps).value;
    var confirming := acked.(phase := Committing([w], 0, {v.sourceEventId}, 0));
    steps := Extend(setup, START, steps, acked, EndFlush, confirming);
    steps := Extend(setup, START, steps, confirming, Commit, Next(setup, confirming, Commit).value);
  }
}
