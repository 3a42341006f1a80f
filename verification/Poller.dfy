/** One poll as the service's code runs it, proved to be a run of the commit protocol. */
module Poller {
  import opened Wrappers
  import opened Sequences
  import opened UsgsEvents
  import opened CommitProtocol

  // ---------------------------------------------------------------------------
  // What one poll sends and commits

  predicate Fresh(setup: Setup, markers: map<string, string>, e: UsgsEvent, nowMs: int) {
    Acceptable(e, nowMs, setup.toleranceMs) && !IsDuplicate(setup, markers, e)
  }

  /** The events a poll of `feed` sends: valid ones whose stored marker does not match. */
  function Sent(setup: Setup, markers: map<string, string>, feed: seq<UsgsEvent>, nowMs: int): (es: seq<UsgsEvent>)
    ensures forall e :: e in es <==> e in feed && Fresh(setup, markers, e, nowMs)
  {
    if feed == [] then []
    else
      assert feed == DropLast(feed) + [Last(feed)];
      if Fresh(setup, markers, Last(feed), nowMs) then Sent(setup, markers, DropLast(feed), nowMs) + [Last(feed)]
      else Sent(setup, markers, DropLast(feed), nowMs)
  }

  /** The pending events whose id was reported delivered. */
  function Confirmed(pending: seq<UsgsEvent>, delivered: set<string>): seq<UsgsEvent> {
    if pending == [] then []
    else if Last(pending).sourceEventId in delivered then Confirmed(DropLast(pending), delivered) + [Last(pending)]
    else Confirmed(DropLast(pending), delivered)
  }

  /** The markers after recording those events in order. */
  function Recorded(setup: Setup, markers: map<string, string>, es: seq<UsgsEvent>): map<string, string> {
    if es == [] then markers
    else Recorded(setup, markers, DropLast(es))[Last(es).sourceEventId := setup.codec.Marker(Last(es))]
  }

  // ---------------------------------------------------------------------------
  // Audit records

  /** What an audit record complains about: a feature that does not parse, or the rules an event breaks. */
  datatype Complaint = Unparseable(problem: ParseProblem) | BrokenRules(reasons: seq<Reason>)

  datatype Audit = Audit(sourceEventId: Option<string>, complaint: Complaint, raw: Option<UsgsEvent>)

  /** One audit record for each feature that does not parse, without its payload. */
  function ParseAudits(errors: seq<FeatureParseError>): seq<Audit> {
    if errors == [] then []
    else
      ParseAudits(DropLast(errors))
      + [Audit(Last(errors).sourceEventId, Unparseable(Last(errors).problem), None)]
  }

  /** The audit record of an event that fails a check: every rule it breaks, and its payload. */
  function AuditOf(setup: Setup, e: UsgsEvent, nowMs: int): Audit {
    Audit(Some(e.sourceEventId), BrokenRules(Reasons(e, nowMs, setup.toleranceMs)), Some(e))
  }

  /** The audit records of a feed's events, in feed order. */
  function EventAudits(setup: Setup, feed: seq<UsgsEvent>, nowMs: int): seq<Audit> {
    if feed == [] then []
    else if Acceptable(Last(feed), nowMs, setup.toleranceMs) then EventAudits(setup, DropLast(feed), nowMs)
    else EventAudits(setup, DropLast(feed), nowMs) + [AuditOf(setup, Last(feed), nowMs)]
  }

  // ---------------------------------------------------------------------------
  // The scan

  /** What a scan has made of the feed so far; `invalid` counts from the features that do not parse. */
  datatype Scanned = Scanned(pending: seq<UsgsEvent>, duplicates: nat, invalid: nat)

  function ScanOne(setup: Setup, markers: map<string, string>, r: Scanned, e: UsgsEvent, nowMs: int): Scanned {
    if !Acceptable(e, nowMs, setup.toleranceMs) then r.(invalid := r.invalid + 1)
    else if IsDuplicate(setup, markers, e) then r.(duplicates := r.duplicates + 1)
    else r.(pending := r.pending + [e])
  }

  function ScanAll(setup: Setup, markers: map<string, string>, feed: seq<UsgsEvent>, parseErrors: nat, nowMs: int)
    : Scanned
  {
    if feed == [] then Scanned([], 0, parseErrors)
    else ScanOne(setup, markers, ScanAll(setup, markers, DropLast(feed), parseErrors, nowMs), Last(feed), nowMs)
  }

  // ---------------------------------------------------------------------------
  // The broker during a flush

  /** The queue of events, what the broker holds, and the ids it has acknowledged. */
  datatype Broker = Broker(queue: seq<Entry>, topic: seq<Message>, delivered: set<string>)

  /** One action of the broker; one that is not possible is skipped. */
  function Act(b: Broker, action: Step): Broker {
    match action
    case Store(j) =>
      if !Storable(b.queue, j) then b
      else b.(queue := b.queue[j := b.queue[j].(stored := true)], topic := b.topic + [b.queue[j].message])
    case Ack(j) =>
      if j >= |b.queue| || !b.queue[j].stored then b
      else b.(queue := RemoveAt(b.queue, j), delivered := b.delivered + {b.queue[j].message.event.sourceEventId})
    case Fail(j) => if j >= |b.queue| then b else b.(queue := RemoveAt(b.queue, j))
    case _ => b
  }

  /** The broker's actions are the protocol's steps: what is possible in one is possible in the other. */
  lemma ActIsStep(setup: Setup, s: Sys, action: Step)
    requires s.phase.Flushing? && (action.Store? || action.Ack? || action.Fail?)
    ensures var before := Broker(s.inflight, s.topic, s.phase.delivered);
            var after, next := Act(before, action), Next(setup, s, action);
            if next.None? then after == before
            else next.value == s.(inflight := after.queue, topic := after.topic, acked := next.value.acked,
                                  phase := Flushing(s.phase.pending, after.delivered))
  {
  }

  function ActAll(b: Broker, actions: seq<Step>): Broker {
    if actions == [] then b else Act(ActAll(b, DropLast(actions)), Last(actions))
  }

  /** The audit messages left after the broker answers for those at the given places, one after another. */
  function AuditsLeft(queue: seq<Audit>, answered: seq<nat>): seq<Audit> {
    if answered == [] then queue
    else
      var before := AuditsLeft(queue, DropLast(answered));
      if Last(answered) < |before| then RemoveAt(before, Last(answered)) else before
  }

  function Entries(es: seq<UsgsEvent>, nowMs: int): (q: seq<Entry>)
    ensures |q| == |es| && forall i :: 0 <= i < |es| ==> q[i] == Entry(Message(es[i], nowMs), false)
  {
    if es == [] then [] else Entries(DropLast(es), nowMs) + [Entry(Message(Last(es), nowMs), false)]
  }

  /** The later of `fromMs` and the latest update time of the events. */
  function LatestOf(fromMs: int, es: seq<UsgsEvent>): int {
    if es == [] then fromMs else Max(LatestOf(fromMs, DropLast(es)), Last(es).updatedMs)
  }

  // ---------------------------------------------------------------------------
  // A whole poll

  datatype PollStats = PollStats(fetched: nat, produced: nat, duplicates: nat, invalid: nat, undelivered: nat)

  /** What a flush is told the broker will do, with the event messages and with the audit messages. */
  datatype Script = Script(actions: seq<Step>, auditsAnswered: seq<nat>)

  /** The stores a poll works on. */
  datatype Stores = Stores(
    markers: map<string, string>, cursorMs: Option<int>, queue: seq<Entry>, topic: seq<Message>,
    audits: seq<Audit>, auditQueue: seq<Audit>)

  /** The audit records a poll writes: first the features that do not parse, then the events that fail a check. */
  function AuditsOf(setup: Setup, feed: seq<UsgsEvent>, errors: seq<FeatureParseError>, nowMs: int): seq<Audit> {
    ParseAudits(errors) + EventAudits(setup, feed, nowMs)
  }

  /** There is something to flush: an event was sent, or a feature or event turned away. */
  predicate Flushes(setup: Setup, s: Stores, feed: seq<UsgsEvent>, errors: seq<FeatureParseError>, nowMs: int) {
    Sent(setup, s.markers, feed, nowMs) != [] || AuditsOf(setup, feed, errors, nowMs) != []
  }

  /** The broker at the end of the poll's flush. */
  function Flushed(
      setup: Setup, s: Stores, feed: seq<UsgsEvent>, errors: seq<FeatureParseError>, nowMs: int, script: Script): Broker
  {
    var before := Broker(s.queue + Entries(Sent(setup, s.markers, feed, nowMs), nowMs), s.topic, {});
    if Flushes(setup, s, feed, errors, nowMs) then ActAll(before, script.actions) else before
  }

  /** The confirmed events are recorded, and the cursor moves to the latest update time. */
  predicate IsCommit(setup: Setup, s: Stores, flushes: bool, confirmed: seq<UsgsEvent>, t: Stores) {
    var latest := LatestOf(OrZero(s.cursorMs), confirmed);
    && t.markers == Recorded(setup, s.markers, confirmed)
    && t.cursorMs == if flushes && latest != 0 then Some(latest) else s.cursorMs
  }

  /** The audit records are written and, if there is a flush, those answered for leave the queue. */
  predicate IsAudited(s: Stores, flushes: bool, audits: seq<Audit>, answered: seq<nat>, t: Stores) {
    && t.audits == s.audits + audits
    && t.auditQueue == if flushes then AuditsLeft(s.auditQueue + audits, answered) else s.auditQueue
  }

  /** The counters: every feature is counted once, and what a flush leaves queued counts as undelivered. */
  predicate IsCounted(
    stats: PollStats, features: nat, sent: nat, confirmed: nat, audits: nat, flushes: bool, t: Stores)
  {
    && stats.fetched == features == stats.invalid + stats.duplicates + sent
    && stats.produced == confirmed && stats.invalid == audits
    && stats.undelivered == if flushes then |t.queue| + |t.auditQueue| else 0
  }

  /** From `s` to `t` by one poll of a parsed feed, with these counters. */
  predicate IsPoll(
      setup: Setup, s: Stores, feed: seq<UsgsEvent>, errors: seq<FeatureParseError>, nowMs: int, script: Script,
      stats: PollStats, t: Stores)
  {
    var sent, audits := Sent(setup, s.markers, feed, nowMs), AuditsOf(setup, feed, errors, nowMs);
    var flushes, broker := Flushes(setup, s, feed, errors, nowMs), Flushed(setup, s, feed, errors, nowMs, script);
    var confirmed := Confirmed(sent, broker.delivered);
    && t.queue == broker.queue && t.topic == broker.topic
    && IsCommit(setup, s, flushes, confirmed, t)
    && IsAudited(s, flushes, audits, script.auditsAnswered, t)
    && IsCounted(stats, |feed| + |errors|, |sent|, |confirmed|, |audits|, flushes, t)
  }

  // ---------------------------------------------------------------------------
  // The objects

  class CursorStore {
    var markers: map<string, string>
    var cursorMs: Option<int>

    method SeenMarker(id: string) returns (marker: Option<string>)
      ensures marker.Some? <==> id in markers
      ensures marker.Some? ==> marker.value == markers[id]
    {
      marker := if id in markers then Some(markers[id]) else None;
    }

    method Record(id: string, marker: string)
      modifies `markers
      ensures markers == old(markers)[id := marker]
    {
      markers := markers[id := marker];
    }

    method GetCursorMs() returns (value: Option<int>)
      ensures value == cursorMs
    {
      value := cursorMs;
    }

    method SetCursorMs(value: int)
      modifies `cursorMs
      ensures cursorMs == Some(value)
    {
      cursorMs := Some(value);
    }
  }

  /** What the producer has been handed: queued events, audit records ever, and those still queued. */
  datatype Outbox = Outbox(queue: seq<Entry>, audits: seq<Audit>, auditQueue: seq<Audit>)

  /** A scanned event is sent, audited, or skipped. */
  function Handle(setup: Setup, markers: map<string, string>, o: Outbox, e: UsgsEvent, nowMs: int): Outbox {
    if !Acceptable(e, nowMs, setup.toleranceMs) then
      o.(audits := o.audits + [AuditOf(setup, e, nowMs)], auditQueue := o.auditQueue + [AuditOf(setup, e, nowMs)])
    else if Fresh(setup, markers, e, nowMs) then o.(queue := o.queue + [Entry(Message(e, nowMs), false)])
    else o
  }

  function HandleAll(setup: Setup, markers: map<string, string>, o: Outbox, feed: seq<UsgsEvent>, nowMs: int): Outbox {
    if feed == [] then o
    else Handle(setup, markers, HandleAll(setup, markers, o, DropLast(feed), nowMs), Last(feed), nowMs)
  }

  lemma EntriesSnoc(es: seq<UsgsEvent>, e: UsgsEvent, nowMs: int)
    ensures Entries(es + [e], nowMs) == Entries(es, nowMs) + [Entry(Message(e, nowMs), false)]
  {
  }

  /** A scan queues exactly the fresh events, in feed order. */
  lemma {:induction false} HandleQueues(
      setup: Setup, markers: map<string, string>, o: Outbox, feed: seq<UsgsEvent>, nowMs: int)
    ensures HandleAll(setup, markers, o, feed, nowMs).queue
         == o.queue + Entries(Sent(setup, markers, feed, nowMs), nowMs)
    decreases |feed|
  {
    if feed != [] {
      var front, e := DropLast(feed), Last(feed);
      HandleQueues(setup, markers, o, front, nowMs);
      var sent := Sent(setup, markers, front, nowMs);
      if Fresh(setup, markers, e, nowMs) {
        EntriesSnoc(sent, e, nowMs);
        Associates(o.queue, Entries(sent, nowMs), [Entry(Message(e, nowMs), false)]);
      }
    } else {
      assert o.queue + [] == o.queue;
    }
  }

  /** And it audits exactly the unacceptable ones, in feed order. */
  lemma {:induction false} HandleAudits(
      setup: Setup, markers: map<string, string>, o: Outbox, feed: seq<UsgsEvent>, nowMs: int)
    ensures var after, audits := HandleAll(setup, markers, o, feed, nowMs), EventAudits(setup, feed, nowMs);
            after.audits == o.audits + audits && after.auditQueue == o.auditQueue + audits
    decreases |feed|
  {
    if feed != [] {
      var front, e := DropLast(feed), Last(feed);
      HandleAudits(setup, markers, o, front, nowMs);
      if !Acceptable(e, nowMs, setup.toleranceMs) {
        Associates(o.audits, EventAudits(setup, front, nowMs), [AuditOf(setup, e, nowMs)]);
        Associates(o.auditQueue, EventAudits(setup, front, nowMs), [AuditOf(setup, e, nowMs)]);
      }
    } else {
      assert o.audits + [] == o.audits && o.auditQueue + [] == o.auditQueue;
    }
  }

  lemma Associates<T>(a: seq<T>, b: seq<T>, c: seq<T>)
    ensures a + b + c == a + (b + c)
  {
  }

  class RawEventProducer {
    var queue: seq<Entry>
    var topic: seq<Message>
    var delivered: set<string>
    /** Every audit record ever handed to the producer, and those the broker has not answered for. */
    var audits: seq<Audit>
    var auditQueue: seq<Audit>

    function Held(): Outbox
      reads this
    {
      Outbox(queue, audits, auditQueue)
    }

    method ProduceEvent(e: UsgsEvent, nowMs: int)
      modifies `queue
      ensures queue == old(queue) + [Entry(Message(e, nowMs), false)]
    {
      queue := queue + [Entry(Message(e, nowMs), false)];
    }

    method ProduceDataQuality(id: Option<string>, complaint: Complaint, raw: Option<UsgsEvent>)
      modifies `audits, `auditQueue
      ensures audits == old(audits) + [Audit(id, complaint, raw)]
      ensures auditQueue == old(auditQueue) + [Audit(id, complaint, raw)]
    {
      audits, auditQueue := audits + [Audit(id, complaint, raw)], auditQueue + [Audit(id, complaint, raw)];
    }

    /** The delivery callback: only an acknowledged message counts as delivered. */
    method OnDelivery(id: string, failed: bool)
      modifies `delivered
      ensures delivered == if failed then old(delivered) else old(delivered) + {id}
    {
      if !failed {
        delivered := delivered + {id};
      }
    }

    /** The broker answers for the audit records at these places of the queue, one after another. */
    method AnswerAudits(answered: seq<nat>)
      modifies `auditQueue
      ensures auditQueue == AuditsLeft(old(auditQueue), answered)
    {
      for i := 0 to |answered|
        invariant auditQueue == AuditsLeft(old(auditQueue), answered[..i])
      {
        assert DropLast(answered[..i + 1]) == answered[..i];
        if answered[i] < |auditQueue| {
          auditQueue := RemoveAt(auditQueue, answered[i]);
        }
      }
      assert answered[..|answered|] == answered;
    }

    /** The broker acts on the queued events as `actions` says; actions that are not possible are skipped. */
    method AnswerEvents(actions: seq<Step>, ghost setup: Setup, ghost s: Sys)
      returns (ghost steps: seq<Step>, ghost t: Sys)
      requires s.phase.Flushing? && s.phase.delivered == delivered && s.inflight == queue && s.topic == topic
      modifies `queue, `topic, `delivered
      ensures Broker(queue, topic, delivered) == ActAll(old(Broker(queue, topic, delivered)), actions)
      ensures RunFrom(setup, s, steps) == Some(t) && BrokerActs(steps)
      ensures t == s.(inflight := queue, topic := topic, acked := t.acked,
                      phase := Flushing(s.phase.pending, delivered))
    {
      steps, t := [], s;
      for i := 0 to |actions|
        invariant Broker(queue, topic, delivered) == ActAll(old(Broker(queue, topic, delivered)), actions[..i])
        invariant RunFrom(setup, s, steps) == Some(t) && BrokerActs(steps)
        invariant t == s.(inflight := queue, topic := topic, acked := t.acked,
                          phase := Flushing(s.phase.pending, delivered))
      {
        var action := actions[i];
        assert DropLast(actions[..i + 1]) == actions[..i];
        if action.Store? && Storable(queue, action.j) {
          topic := topic + [queue[action.j].message];
          queue := queue[action.j := queue[action.j].(stored := true)];
        } else if action.Ack? && action.j < |queue| && queue[action.j].stored {
          OnDelivery(queue[action.j].message.event.sourceEventId, false);
          queue := RemoveAt(queue, action.j);
        } else if action.Fail? && action.j < |queue| {
          OnDelivery(queue[action.j].message.event.sourceEventId, true);
          queue := RemoveAt(queue, action.j);
        } else {
          continue;
        }
        ActIsStep(setup, t, action);
        steps := Extend(setup, s, steps, t, action, Next(setup, t, action).value);
        t := Next(setup, t, action).value;
      }
      assert actions[..|actions|] == actions;
    }

    /**
     * Flushes while the broker acts. Whatever it does with the events is a run of the protocol; the
     * delivered set is handed out and reset, and every message still queued, of either topic, is counted.
     */
    method FlushAndConfirm(script: Script, ghost setup: Setup, ghost s: Sys)
      returns (ids: set<string>, remaining: nat, ghost steps: seq<Step>, ghost t: Sys)
      requires s.phase.Flushing? && s.phase.delivered == {} == delivered
      requires s.inflight == queue && s.topic == topic
      modifies `queue, `topic, `delivered, `auditQueue
      ensures delivered == {} && remaining == |queue| + |auditQueue|
      ensures Broker(queue, topic, ids) == ActAll(old(Broker(queue, topic, {})), script.actions)
      ensures auditQueue == AuditsLeft(old(auditQueue), script.auditsAnswered)
      ensures RunFrom(setup, s, steps) == Some(t) && BrokerActs(steps)
      ensures t == s.(inflight := queue, topic := topic, acked := t.acked, phase := Flushing(s.phase.pending, ids))
    {
      AnswerAudits(script.auditsAnswered);
      steps, t := AnswerEvents(script.actions, setup, s);
      ids := delivered;
      delivered := {};
      remaining := |queue| + |auditQueue|;
    }
  }

  /** The steps of one undisturbed poll: it begins once and is neither crashed nor abandoned. */
  predicate IsOnePoll(steps: seq<Step>, feed: seq<UsgsEvent>, parseErrors: nat, nowMs: int) {
    && steps != []
    && if |steps| == 1 then steps[0] == Begin(feed, parseErrors, nowMs)
       else Undisturbed(Last(steps)) && IsOnePoll(DropLast(steps), feed, parseErrors, nowMs)
  }

  predicate Undisturbed(step: Step) {
    !step.Begin? && !step.Crash? && !step.Abort? && !step.Expire?
  }

  lemma {:induction false} OnePollGrows(
      steps: seq<Step>, more: seq<Step>, feed: seq<UsgsEvent>, parseErrors: nat, nowMs: int)
    requires IsOnePoll(steps, feed, parseErrors, nowMs)
    requires forall x :: x in more ==> Undisturbed(x)
    ensures IsOnePoll(steps + more, feed, parseErrors, nowMs)
    decreases |more|
  {
    if more == [] {
      assert steps + more == steps;
    } else {
      assert Last(more) in more && forall x :: x in DropLast(more) ==> x in more;
      OnePollGrows(steps, DropLast(more), feed, parseErrors, nowMs);
      assert DropLast(steps + more) == steps + DropLast(more);
    }
  }

  /** A poll in progress: where it began, and the steps taken so far. */
  datatype Trace = Trace(
    setup: Setup, origin: Sys, steps: seq<Step>, feed: seq<UsgsEvent>, parseErrors: nat, nowMs: int)
  {
    predicate Reaches(s: Sys) {
      RunFrom(setup, origin, steps) == Some(s) && IsOnePoll(steps, feed, parseErrors, nowMs)
    }
  }

  class Poller {
    const setup: Setup
    const cursor: CursorStore
    const producer: RawEventProducer
    /** The protocol state this process stands for. */
    ghost var sys: Sys

    constructor (setup: Setup, cursor: CursorStore, producer: RawEventProducer)
      ensures this.setup == setup && this.cursor == cursor && this.producer == producer
      ensures sys == Sys(cursor.markers, cursor.cursorMs, producer.topic, producer.queue, Idle, [], {}, [])
    {
      this.setup, this.cursor, this.producer := setup, cursor, producer;
      sys := Sys(cursor.markers, cursor.cursorMs, producer.topic, producer.queue, Idle, [], {}, []);
    }

    function Snapshot(): Stores
      reads cursor, producer
    {
      Stores(cursor.markers, cursor.cursorMs, producer.queue, producer.topic, producer.audits, producer.auditQueue)
    }

    ghost predicate InSync()
      reads this, cursor, producer
    {
      && sys.markers == cursor.markers && sys.cursorMs == cursor.cursorMs
      && sys.topic == producer.topic && sys.inflight == producer.queue
    }

    ghost predicate Valid()
      reads this, cursor, producer
    {
      InSync() && sys.phase.Idle? && producer.delivered == {}
    }

    /** Begins a poll in the abstract state. */
    ghost method TakeBegin(feed: seq<UsgsEvent>, parseErrors: nat, nowMs: int) returns (trace: Trace)
      requires sys.phase.Idle?
      modifies `sys
      ensures sys == old(sys).(phase := Scanning(feed, 0, [], parseErrors, nowMs))
      ensures trace.setup == setup && trace.origin == old(sys) && trace.Reaches(sys)
      ensures (trace.feed, trace.parseErrors, trace.nowMs) == (feed, parseErrors, nowMs)
    {
      trace := Trace(setup, sys, [Begin(feed, parseErrors, nowMs)], feed, parseErrors, nowMs);
      assert DropLast(trace.steps) == [];
      sys := sys.(phase := Scanning(feed, 0, [], parseErrors, nowMs));
    }

    /** Takes one protocol step in the abstract state. */
    ghost method Take(step: Step, before: Trace) returns (after: Trace)
      requires before.setup == setup && before.Reaches(sys)
      requires Undisturbed(step) && Next(setup, sys, step).Some?
      modifies `sys
      ensures Some(sys) == Next(setup, old(sys), step)
      ensures after == before.(steps := after.steps) && after.Reaches(sys)
    {
      after := before.(steps := before.steps + [step]);
      assert DropLast(after.steps) == before.steps;
      sys := Next(setup, sys, step).value;
    }

    /** Takes the broker's steps in the abstract state. */
    ghost method TakeAll(steps: seq<Step>, t: Sys, before: Trace) returns (after: Trace)
      requires before.setup == setup && before.Reaches(sys)
      requires RunFrom(setup, sys, steps) == Some(t)
      requires forall x :: x in steps ==> Undisturbed(x)
      modifies `sys
      ensures sys == t
      ensures after == before.(steps := after.steps) && after.Reaches(sys)
    {
      after := before.(steps := before.steps + steps);
      RunConcat(setup, before.origin, before.steps, sys, steps);
      OnePollGrows(before.steps, steps, before.feed, before.parseErrors, before.nowMs);
      sys := t;
    }

    /** Takes the scan step: the event is sent if it is fresh, and counted as the scan counts it. */
    ghost method TakeScan(i: nat, feed: seq<UsgsEvent>, nowMs: int, r: Scanned, before: Trace) returns (after: Trace)
      requires i < |feed| && sys.phase == Scanning(feed, i, r.pending, r.invalid, nowMs)
      requires before.setup == setup && before.Reaches(sys)
      modifies `sys
      ensures after == before.(steps := after.steps) && after.Reaches(sys)
      ensures sys.markers == old(sys.markers) && sys.cursorMs == old(sys.cursorMs)
      ensures sys.topic == old(sys.topic) && sys.recorded == old(sys.recorded)
      ensures var r' := ScanOne(setup, old(sys.markers), r, feed[i], nowMs);
              sys.phase == Scanning(feed, i + 1, r'.pending, r'.invalid, nowMs)
      ensures sys.inflight
           == if Fresh(setup, old(sys.markers), feed[i], nowMs)
              then old(sys.inflight) + [Entry(Message(feed[i], nowMs), false)] else old(sys.inflight)
    {
      after := Take(Scan, before);
    }

    /** Checks one event, and audits it if it fails. */
    method Screen(event: UsgsEvent, nowMs: int) returns (accepted: bool)
      modifies producer`audits, producer`auditQueue
      ensures accepted == Acceptable(event, nowMs, setup.toleranceMs)
      ensures producer.audits
           == if accepted then old(producer.audits) else old(producer.audits) + [AuditOf(setup, event, nowMs)]
      ensures producer.auditQueue
           == if accepted then old(producer.auditQueue) else old(producer.auditQueue) + [AuditOf(setup, event, nowMs)]
    {
      var reasons := CheckEvent(event, nowMs, setup.toleranceMs);
      if reasons != [] {
        producer.ProduceDataQuality(Some(event.sourceEventId), BrokenRules(reasons), Some(event));
      }
      accepted := reasons == [];
    }

    /** Validates one event, skips it if its marker is stored, and sends it otherwise. */
    method ScanEvent(i: nat, feed: seq<UsgsEvent>, nowMs: int, r: Scanned, ghost before: Trace)
      returns (r': Scanned, ghost after: Trace)
      requires InSync() && i < |feed| && sys.phase == Scanning(feed, i, r.pending, r.invalid, nowMs)
      requires before.setup == setup && before.Reaches(sys)
      modifies this`sys, producer`queue, producer`audits, producer`auditQueue
      ensures InSync() && sys.phase == Scanning(feed, i + 1, r'.pending, r'.invalid, nowMs)
      ensures after == before.(steps := after.steps) && after.Reaches(sys)
      ensures sys.recorded == old(sys.recorded)
      ensures r' == ScanOne(setup, cursor.markers, r, feed[i], nowMs)
      ensures producer.Held() == Handle(setup, cursor.markers, old(producer.Held()), feed[i], nowMs)
    {
      var event := feed[i];
      after := TakeScan(i, feed, nowMs, r, before);
      var accepted := Screen(event, nowMs);
      if !accepted {
        return r.(invalid := r.invalid + 1), after;
      }
      var marker := MarkerFor(setup.codec.SourceVersion(event), setup.codec.EventHash(event));
      var seen := cursor.SeenMarker(event.sourceEventId);
      assert seen == Some(marker) <==> IsDuplicate(setup, cursor.markers, event);
      if seen == Some(marker) {
        return r.(duplicates := r.duplicates + 1), after;
      }
      producer.ProduceEvent(event, nowMs);
      return r.(pending := r.pending + [event]), after;
    }

    method ScanFeed(feed: seq<UsgsEvent>, parseErrors: nat, nowMs: int, ghost before: Trace)
      returns (r: Scanned, ghost after: Trace)
      requires InSync() && sys.phase == Scanning(feed, 0, [], parseErrors, nowMs)
      requires before.setup == setup && before.Reaches(sys)
      modifies this`sys, producer`queue, producer`audits, producer`auditQueue
      ensures InSync() && sys.phase == Scanning(feed, |feed|, r.pending, r.invalid, nowMs)
      ensures after == before.(steps := after.steps) && after.Reaches(sys)
      ensures r.pending == Sent(setup, cursor.markers, feed, nowMs)
      ensures r.invalid == parseErrors + |EventAudits(setup, feed, nowMs)|
      ensures |feed| + parseErrors == r.invalid + r.duplicates + |r.pending|
      ensures producer.audits == old(producer.audits) + EventAudits(setup, feed, nowMs)
      ensures producer.auditQueue == old(producer.auditQueue) + EventAudits(setup, feed, nowMs)
      ensures producer.queue == old(producer.queue) + Entries(r.pending, nowMs)
      ensures sys.recorded == old(sys.recorded)
    {
      r, after := Scanned([], 0, parseErrors), before;
      for i := 0 to |feed|
        invariant InSync() && sys.phase == Scanning(feed, i, r.pending, r.invalid, nowMs)
        invariant after == before.(steps := after.steps) && after.Reaches(sys)
        invariant r == ScanAll(setup, cursor.markers, feed[..i], parseErrors, nowMs)
        invariant producer.Held() == HandleAll(setup, cursor.markers, old(producer.Held()), feed[..i], nowMs)
        invariant sys.recorded == old(sys.recorded)
      {
        ScanStep(setup, cursor.markers, old(producer.Held()), feed, i, parseErrors, nowMs);
        r, after := ScanEvent(i, feed, nowMs, r, after);
      }
      assert feed[..|feed|] == feed;
      ScanMeaning(setup, cursor.markers, feed, parseErrors, nowMs);
      HandleQueues(setup, cursor.markers, old(producer.Held()), feed, nowMs);
      HandleAudits(setup, cursor.markers, old(producer.Held()), feed, nowMs);
    }

    /** Records the marker of one pending event if it was delivered. */
    method CommitEvent(pending: seq<UsgsEvent>, i: nat, ids: set<string>, maxMs: int, ghost before: Trace)
      returns (recorded: bool, maxMs': int, ghost after: Trace)
      requires InSync() && i < |pending| && sys.phase == Committing(pending, i, ids, maxMs)
      requires before.setup == setup && before.Reaches(sys)
      modifies this`sys, cursor`markers
      ensures InSync() && sys.phase == Committing(pending, i + 1, ids, maxMs')
      ensures after == before.(steps := after.steps) && after.Reaches(sys)
      ensures recorded == (pending[i].sourceEventId in ids)
      ensures maxMs' == if recorded then Max(maxMs, pending[i].updatedMs) else maxMs
      ensures sys.recorded == if recorded then old(sys.recorded) + [pending[i]] else old(sys.recorded)
      ensures cursor.markers
           == if recorded then old(cursor.markers)[pending[i].sourceEventId := setup.codec.Marker(pending[i])]
              else old(cursor.markers)
    {
      var event := pending[i];
      after := Take(Commit, before);
      if event.sourceEventId in ids {
        cursor.Record(event.sourceEventId, setup.codec.Marker(event));
        return true, Max(maxMs, event.updatedMs), after;
      }
      return false, maxMs, after;
    }

    /** Records the markers of the delivered events. */
    method CommitEvents(pending: seq<UsgsEvent>, ids: set<string>, fromMs: int, ghost before: Trace)
      returns (produced: nat, maxUpdatedMs: int, ghost after: Trace)
      requires InSync() && sys.phase == Committing(pending, 0, ids, fromMs)
      requires before.setup == setup && before.Reaches(sys)
      modifies this`sys, cursor`markers
      ensures InSync() && sys.phase == Committing(pending, |pending|, ids, maxUpdatedMs)
      ensures after == before.(steps := after.steps) && after.Reaches(sys)
      ensures cursor.markers == Recorded(setup, old(cursor.markers), Confirmed(pending, ids))
      ensures sys.recorded == old(sys.recorded) + Confirmed(pending, ids)
      ensures produced == |Confirmed(pending, ids)|
      ensures maxUpdatedMs == LatestOf(fromMs, Confirmed(pending, ids))
    {
      produced, maxUpdatedMs, after := 0, fromMs, before;
      ghost var start := Commits(old(cursor.markers), old(sys.recorded), 0, fromMs);
      for i := 0 to |pending|
        invariant InSync() && sys.phase == Committing(pending, i, ids, maxUpdatedMs)
        invariant after == before.(steps := after.steps) && after.Reaches(sys)
        invariant Commits(cursor.markers, sys.recorded, produced, maxUpdatedMs)
               == CommitAll(setup, start, pending[..i], ids)
      {
        CommitAllStep(setup, start, pending, ids, i);
        var recorded;
        recorded, maxUpdatedMs, after := CommitEvent(pending, i, ids, maxUpdatedMs, after);
        if recorded {
          produced := produced + 1;
        }
      }
      assert pending[..|pending|] == pending;
      CommitAllMeaning(setup, start, pending, ids);
    }

    /** Records the markers of the delivered events, then the cursor. */
    method CommitPending(pending: seq<UsgsEvent>, ids: set<string>, ghost before: Trace)
      returns (produced: nat, ghost after: Trace)
      requires InSync() && sys.phase == Committing(pending, 0, ids, OrZero(sys.cursorMs))
      requires before.setup == setup && before.Reaches(sys)
      modifies this`sys, cursor
      ensures InSync() && sys.phase.Idle?
      ensures after == before.(steps := after.steps) && after.Reaches(sys)
      ensures cursor.markers == Recorded(setup, old(cursor.markers), Confirmed(pending, ids))
      ensures sys.recorded == old(sys.recorded) + Confirmed(pending, ids)
      ensures produced == |Confirmed(pending, ids)|
      ensures var latest := LatestOf(OrZero(old(cursor.cursorMs)), Confirmed(pending, ids));
              cursor.cursorMs == if latest != 0 then Some(latest) else old(cursor.cursorMs)
    {
      var stored := cursor.GetCursorMs();
      var maxUpdatedMs;
      produced, maxUpdatedMs, after := CommitEvents(pending, ids, OrZero(stored), before);
      after := Take(SetCursor, after);
      if maxUpdatedMs != 0 {
        cursor.SetCursorMs(maxUpdatedMs);
      }
    }

    /** Flushes, then commits what the broker acknowledged. */
    method FlushAndCommit(pending: seq<UsgsEvent>, script: Script, ghost before: Trace)
      returns (produced: nat, remaining: nat, ghost after: Trace, ghost ids: set<string>)
      requires InSync() && sys.phase == Flushing(pending, {}) && producer.delivered == {}
      requires before.setup == setup && before.Reaches(sys)
      modifies this`sys, cursor, producer`queue, producer`topic, producer`delivered, producer`auditQueue
      ensures Valid()
      ensures after == before.(steps := after.steps) && after.Reaches(sys)
      ensures cursor.markers == Recorded(setup, old(cursor.markers), Confirmed(pending, ids))
      ensures sys.recorded == old(sys.recorded) + Confirmed(pending, ids)
      ensures produced == |Confirmed(pending, ids)|
      ensures remaining == |producer.queue| + |producer.auditQueue|
      ensures Broker(producer.queue, producer.topic, ids)
           == ActAll(old(Broker(producer.queue, producer.topic, {})), script.actions)
      ensures producer.auditQueue == AuditsLeft(old(producer.auditQueue), script.auditsAnswered)
      ensures var latest := LatestOf(OrZero(old(cursor.cursorMs)), Confirmed(pending, ids));
              cursor.cursorMs == if latest != 0 then Some(latest) else old(cursor.cursorMs)
    {
      var delivered;
      ghost var broker, t;
      delivered, remaining, broker, t := producer.FlushAndConfirm(script, setup, sys);
      ids := delivered;
      after := TakeAll(broker, t, before);
      after := Take(EndFlush, after);
      produced, after := CommitPending(pending, delivered, after);
    }

    /** Ends the scan; flushes and commits if an event was sent or turned away. */
    method FlushIfAny(scanned: Scanned, script: Script, ghost before: Trace)
      returns (produced: nat, remaining: nat, ghost after: Trace, ghost broker: Broker)
      requires InSync() && producer.delivered == {}
      requires sys.phase.Scanning? && sys.phase.next == |sys.phase.feed|
      requires sys.phase.pending == scanned.pending && sys.phase.invalid == scanned.invalid
      requires before.setup == setup && before.Reaches(sys)
      modifies this`sys, cursor, producer`queue, producer`topic, producer`delivered, producer`auditQueue
      ensures Valid()
      ensures after == before.(steps := after.steps) && after.Reaches(sys)
      ensures sys.recorded == old(sys.recorded) + Confirmed(scanned.pending, broker.delivered)
      ensures produced == |Confirmed(scanned.pending, broker.delivered)|
      ensures broker.queue == producer.queue && broker.topic == producer.topic
      ensures var s, t := old(Snapshot()), Snapshot();
              var flushes := scanned.pending != [] || scanned.invalid > 0;
              && broker == (if flushes then ActAll(Broker(s.queue, s.topic, {}), script.actions)
                            else Broker(s.queue, s.topic, {}))
              && IsCommit(setup, s, flushes, Confirmed(scanned.pending, broker.delivered), t)
              && t.audits == s.audits
              && t.auditQueue == (if flushes then AuditsLeft(s.auditQueue, script.auditsAnswered) else s.auditQueue)
              && remaining == if flushes then |t.queue| + |t.auditQueue| else 0
    {
      after := Take(EndScan, before);
      broker := Broker(producer.queue, producer.topic, {});
      produced, remaining := 0, 0;
      if scanned.pending != [] || scanned.invalid > 0 {
        ghost var ids;
        produced, remaining, after, ids := FlushAndCommit(scanned.pending, script, after);
        broker := Broker(producer.queue, producer.topic, ids);
      }
    }

    /** Audits the features that do not parse. */
    method ReportErrors(errors: seq<FeatureParseError>)
      modifies producer`audits, producer`auditQueue
      ensures producer.audits == old(producer.audits) + ParseAudits(errors)
      ensures producer.auditQueue == old(producer.auditQueue) + ParseAudits(errors)
    {
      for i := 0 to |errors|
        invariant producer.audits == old(producer.audits) + ParseAudits(errors[..i])
        invariant producer.auditQueue == old(producer.auditQueue) + ParseAudits(errors[..i])
      {
        assert DropLast(errors[..i + 1]) == errors[..i];
        producer.ProduceDataQuality(errors[i].sourceEventId, Unparseable(errors[i].problem), None);
      }
      assert errors[..|errors|] == errors;
    }

    /** The poll up to its flush: turned-away features and events are audited, fresh events sent. */
    method Collect(feed: seq<UsgsEvent>, errors: seq<FeatureParseError>, nowMs: int)
      returns (scanned: Scanned, ghost trace: Trace)
      requires Valid()
      modifies this`sys, producer`queue, producer`audits, producer`auditQueue
      ensures InSync() && sys.phase == Scanning(feed, |feed|, scanned.pending, scanned.invalid, nowMs)
      ensures trace == Trace(setup, old(sys), trace.steps, feed, |errors|, nowMs) && trace.Reaches(sys)
      ensures var s := old(Snapshot());
              var audits := AuditsOf(setup, feed, errors, nowMs);
              && scanned.pending == Sent(setup, s.markers, feed, nowMs) && scanned.invalid == |audits|
              && |feed| + |errors| == scanned.invalid + scanned.duplicates + |scanned.pending|
              && Snapshot() == s.(queue := s.queue + Entries(scanned.pending, nowMs),
                                  audits := s.audits + audits, auditQueue := s.auditQueue + audits)
      ensures sys.recorded == old(sys.recorded)
    {
      ReportErrors(errors);
      trace := TakeBegin(feed, |errors|, nowMs);
      scanned, trace := ScanFeed(feed, |errors|, nowMs, trace);
      ParseAuditsLength(errors);
      Associates(old(producer.audits), ParseAudits(errors), EventAudits(setup, feed, nowMs));
      Associates(old(producer.auditQueue), ParseAudits(errors), EventAudits(setup, feed, nowMs));
    }

    /**
     * One poll of a parsed feed. It is a run of the protocol, it sends and records exactly what the
     * stored markers and the broker's acknowledgements call for, every feature is counted once, and
     * what was turned away is audited with its reasons.
     */
    method Process(feed: seq<UsgsEvent>, errors: seq<FeatureParseError>, nowMs: int, script: Script)
      returns (stats: PollStats, ghost steps: seq<Step>)
      requires Valid()
      modifies this`sys, cursor, producer
      ensures Valid()
      ensures RunFrom(setup, old(sys), steps) == Some(sys)
      ensures IsOnePoll(steps, feed, |errors|, nowMs)
      ensures IsPoll(setup, old(Snapshot()), feed, errors, nowMs, script, stats, Snapshot())
      ensures sys.recorded
           == old(sys.recorded) + Confirmed(Sent(setup, old(cursor.markers), feed, nowMs),
                                            Flushed(setup, old(Snapshot()), feed, errors, nowMs, script).delivered)
    {
      var scanned;
      ghost var trace, broker;
      scanned, trace := Collect(feed, errors, nowMs);
      var produced, undelivered;
      produced, undelivered, trace, broker := FlushIfAny(scanned, script, trace);
      steps := trace.steps;
      stats := PollStats(|feed| + |errors|, produced, scanned.duplicates, scanned.invalid, undelivered);
      assert broker == Flushed(setup, old(Snapshot()), feed, errors, nowMs, script);
    }

    /** Fetches, parses and processes a feed; a fetch or parse failure changes nothing. */
    method PollOnce(fetched: Option<map<string, Json>>, nowMs: int, script: Script)
      returns (stats: Option<PollStats>, ghost steps: seq<Step>)
      requires Valid()
      modifies this`sys, cursor, producer
      ensures Valid()
      ensures RunFrom(setup, old(sys), steps) == Some(sys)
      ensures stats.Some? <==> fetched.Some? && Parseable(fetched.value)
      ensures stats.None? ==> steps == [] && Snapshot() == old(Snapshot())
      ensures stats.Some? ==>
                var outcomes := Outcomes(Get(fetched.value, "features").items);
                var events, errors := EventsIn(outcomes), ErrorsIn(outcomes);
                && IsOnePoll(steps, events, |errors|, nowMs)
                && IsPoll(setup, old(Snapshot()), events, errors, nowMs, script, stats.value, Snapshot())
    {
      steps := [];
      if fetched.None? {
        return None, [];
      }
      var parsed := ParseFeed(fetched.value);
      if parsed.Err? {
        return None, [];
      }
      var done;
      done, steps := Process(parsed.value.0, parsed.value.1, nowMs, script);
      stats := Some(done);
    }
  }

  lemma {:induction false} ParseAuditsLength(errors: seq<FeatureParseError>)
    ensures |ParseAudits(errors)| == |errors|
    decreases |errors|
  {
    if errors != [] {
      ParseAuditsLength(DropLast(errors));
    }
  }

  lemma ScanStep(
      setup: Setup, markers: map<string, string>, o: Outbox, feed: seq<UsgsEvent>, i: nat, parseErrors: nat, nowMs: int)
    requires i < |feed|
    ensures ScanAll(setup, markers, feed[..i + 1], parseErrors, nowMs)
         == ScanOne(setup, markers, ScanAll(setup, markers, feed[..i], parseErrors, nowMs), feed[i], nowMs)
    ensures HandleAll(setup, markers, o, feed[..i + 1], nowMs)
         == Handle(setup, markers, HandleAll(setup, markers, o, feed[..i], nowMs), feed[i], nowMs)
  {
    assert DropLast(feed[..i + 1]) == feed[..i];
  }

  /** The scan sends exactly the fresh events, counts the audited ones, and counts every feature once. */
  lemma {:induction false} ScanMeaning(
      setup: Setup, markers: map<string, string>, feed: seq<UsgsEvent>, parseErrors: nat, nowMs: int)
    ensures var r := ScanAll(setup, markers, feed, parseErrors, nowMs);
            && r.pending == Sent(setup, markers, feed, nowMs)
            && r.invalid == parseErrors + |EventAudits(setup, feed, nowMs)|
            && |feed| + parseErrors == r.invalid + r.duplicates + |r.pending|
    decreases |feed|
  {
    if feed != [] {
      ScanMeaning(setup, markers, DropLast(feed), parseErrors, nowMs);
    }
  }

  /** What committing works on: markers, recorded events, how many, and the latest update time. */
  datatype Commits = Commits(markers: map<string, string>, recorded: seq<UsgsEvent>, produced: nat, latestMs: int)

  function CommitOne(setup: Setup, c: Commits, e: UsgsEvent, ids: set<string>): Commits {
    if e.sourceEventId !in ids then c
    else
      Commits(c.markers[e.sourceEventId := setup.codec.Marker(e)], c.recorded + [e], c.produced + 1,
              Max(c.latestMs, e.updatedMs))
  }

  function CommitAll(setup: Setup, c: Commits, pending: seq<UsgsEvent>, ids: set<string>): Commits {
    if pending == [] then c else CommitOne(setup, CommitAll(setup, c, DropLast(pending), ids), Last(pending), ids)
  }

  lemma CommitAllStep(setup: Setup, c: Commits, pending: seq<UsgsEvent>, ids: set<string>, i: nat)
    requires i < |pending|
    ensures CommitAll(setup, c, pending[..i + 1], ids)
         == CommitOne(setup, CommitAll(setup, c, pending[..i], ids), pending[i], ids)
  {
    assert DropLast(pending[..i + 1]) == pending[..i];
  }

  lemma {:induction false} CommitAllMeaning(setup: Setup, c: Commits, pending: seq<UsgsEvent>, ids: set<string>)
    ensures var confirmed := Confirmed(pending, ids);
            CommitAll(setup, c, pending, ids) ==
              Commits(Recorded(setup, c.markers, confirmed), c.recorded + confirmed, c.produced + |confirmed|,
                      LatestOf(c.latestMs, confirmed))
    decreases |pending|
  {
    if pending == [] {
      assert c.recorded + [] == c.recorded;
    } else {
      var front, e := Confirmed(DropLast(pending), ids), Last(pending);
      CommitAllMeaning(setup, c, DropLast(pending), ids);
      RecordedStep(setup, c.markers, c.latestMs, front, e);
      Associates(c.recorded, front, [e]);
    }
  }

  lemma RecordedStep(setup: Setup, markers: map<string, string>, fromMs: int, es: seq<UsgsEvent>, e: UsgsEvent)
    ensures Recorded(setup, markers, es + [e])
         == Recorded(setup, markers, es)[e.sourceEventId := setup.codec.Marker(e)]
    ensures LatestOf(fromMs, es + [e]) == Max(LatestOf(fromMs, es), e.updatedMs)
  {
    assert DropLast(es + [e]) == es;
  }

  lemma {:induction false} RunConcat(setup: Setup, s: Sys, first: seq<Step>, t: Sys, then_: seq<Step>)
    requires RunFrom(setup, s, first) == Some(t)
    ensures RunFrom(setup, s, first + then_) == RunFrom(setup, t, then_)
    decreases |then_|
  {
    if then_ == [] {
      assert first + then_ == first;
    } else {
      RunConcat(setup, s, first, t, DropLast(then_));
      assert DropLast(first + then_) == first + DropLast(then_);
    }
  }
}
