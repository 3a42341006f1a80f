/** What a poll comes to: what the broker's answers confirm, and what each audit record says. */
module PollOutcome {
  import opened Wrappers
  import opened Sequences
  import opened UsgsEvents
  import opened CommitProtocol
  import opened Poller

  // ---------------------------------------------------------------------------
  // The broker's answers

  /** The broker stores and acknowledges the message at the front of the queue, `n` times. */
  function StoreAndAck(n: nat): seq<Step> {
    if n == 0 then [] else [Store(0), Ack(0)] + StoreAndAck(n - 1)
  }

  function IdsOf(q: seq<Entry>): set<string> {
    set x | x in q :: x.message.event.sourceEventId
  }

  /** The messages of a queue that are not stored yet, in order. */
  function UnstoredIn(q: seq<Entry>): seq<Message> {
    if q == [] then []
    else if q[0].stored then UnstoredIn(q[1..])
    else [q[0].message] + UnstoredIn(q[1..])
  }

  lemma {:induction false} ActsInTurn(b: Broker, first: seq<Step>, later: seq<Step>)
    ensures ActAll(b, first + later) == ActAll(ActAll(b, first), later)
    decreases |later|
  {
    if later == [] {
      assert first + later == first;
    } else {
      ActsInTurn(b, first, DropLast(later));
      assert DropLast(first + later) == first + DropLast(later);
    }
  }

  /** Storing and acknowledging the front message takes it off the queue. */
  lemma FrontAnswered(b: Broker)
    requires b.queue != []
    ensures var front := b.queue[0];
            ActAll(b, [Store(0), Ack(0)])
              == Broker(b.queue[1..], if front.stored then b.topic else b.topic + [front.message],
                        b.delivered + {front.message.event.sourceEventId})
  {
    var stored := Act(b, Store(0));
    assert DropLast([Store(0), Ack(0)]) == [Store(0)] && DropLast([Store(0)]) == [];
    assert ActAll(b, [Store(0)]) == Act(ActAll(b, []), Store(0)) == stored;
    assert RemoveAt(stored.queue, 0) == b.queue[1..];
  }

  lemma IdsOfFront(q: seq<Entry>)
    requires q != []
    ensures IdsOf(q) == {q[0].message.event.sourceEventId} + IdsOf(q[1..])
  {
    assert q == [q[0]] + q[1..];
  }

  lemma UnstoredInFront(q: seq<Entry>, topic: seq<Message>)
    requires q != []
    ensures topic + UnstoredIn(q) == (if q[0].stored then topic else topic + [q[0].message]) + UnstoredIn(q[1..])
  {
    if !q[0].stored {
      assert topic + ([q[0].message] + UnstoredIn(q[1..])) == topic + [q[0].message] + UnstoredIn(q[1..]);
    }
  }

  lemma AnswerOne(b: Broker)
    requires b.queue != []
    ensures var next := ActAll(b, [Store(0), Ack(0)]);
            && |next.queue| == |b.queue| - 1
            && next.topic + UnstoredIn(next.queue) == b.topic + UnstoredIn(b.queue)
            && next.delivered + IdsOf(next.queue) == b.delivered + IdsOf(b.queue)
  {
    FrontAnswered(b);
    IdsOfFront(b.queue);
    UnstoredInFront(b.queue, b.topic);
  }

  /** A broker that stores and acknowledges everything empties the queue, and hands out all its ids. */
  lemma {:induction false} EverythingAnswered(b: Broker)
    ensures ActAll(b, StoreAndAck(|b.queue|))
         == Broker([], b.topic + UnstoredIn(b.queue), b.delivered + IdsOf(b.queue))
    decreases |b.queue|
  {
    if b.queue == [] {
      assert b.topic + [] == b.topic && b.delivered + IdsOf([]) == b.delivered;
    } else {
      var next := ActAll(b, [Store(0), Ack(0)]);
      AnswerOne(b);
      EverythingAnswered(next);
      ActsInTurn(b, [Store(0), Ack(0)], StoreAndAck(|next.queue|));
      assert StoreAndAck(|b.queue|) == [Store(0), Ack(0)] + StoreAndAck(|next.queue|);
    }
  }

  /** The broker fails the message at the front of the queue, `n` times. */
  function FailFront(n: nat): seq<Step> {
    if n == 0 then [] else FailFront(n - 1) + [Fail(0)]
  }

  /** Messages the broker fails leave the queue and nothing else happens: no id is handed out for them. */
  lemma {:induction false} FailedAreDropped(b: Broker, n: nat)
    requires n <= |b.queue|
    ensures ActAll(b, FailFront(n)) == Broker(b.queue[n..], b.topic, b.delivered)
  {
    if n > 0 {
      FailedAreDropped(b, n - 1);
      assert DropLast(FailFront(n)) == FailFront(n - 1);
      assert RemoveAt(b.queue[n - 1..], 0) == b.queue[n..];
    }
  }

  /** An answer for an audit message takes that one off its queue; the places are counted as they then are. */
  lemma AuditAnswered(queue: seq<Audit>, answered: seq<nat>, j: nat)
    ensures AuditsLeft(queue, []) == queue
    ensures var before := AuditsLeft(queue, answered);
            AuditsLeft(queue, answered + [j]) == if j < |before| then before[..j] + before[j + 1..] else before
  {
    assert DropLast(answered + [j]) == answered;
  }

  /** What is queued as stored is in the topic. */
  predicate StoredAreInTopic(b: Broker) {
    forall x :: x in b.queue && x.stored ==> x.message in b.topic
  }

  /** Every delivered id has a message in the topic. */
  predicate DeliveredAreInTopic(b: Broker) {
    forall id :: id in b.delivered ==> exists m :: m in b.topic && m.event.sourceEventId == id
  }

  lemma ActKeepsStored(b: Broker, action: Step)
    requires StoredAreInTopic(b)
    ensures StoredAreInTopic(Act(b, action))
  {
    if (action.Ack? || action.Fail?) && action.j < |b.queue| {
      RemoveAtMembers(b.queue, action.j);
    }
  }

  lemma ActKeepsDelivered(b: Broker, action: Step)
    requires StoredAreInTopic(b) && DeliveredAreInTopic(b)
    ensures DeliveredAreInTopic(Act(b, action))
  {
    var after := Act(b, action);
    assert forall m :: m in b.topic ==> m in after.topic;
    forall id | id in after.delivered
      ensures exists m :: m in after.topic && m.event.sourceEventId == id
    {
      if id in b.delivered {
        var m :| m in b.topic && m.event.sourceEventId == id;
        assert m in after.topic;
      } else {
        assert b.queue[action.j] in b.queue && b.queue[action.j].message in after.topic;
      }
    }
  }

  /** Whatever the broker does, an id is handed out as delivered only if the topic holds a message of it. */
  lemma {:induction false} DeliveredIsInTopic(b: Broker, actions: seq<Step>)
    requires StoredAreInTopic(b) && DeliveredAreInTopic(b)
    ensures StoredAreInTopic(ActAll(b, actions)) && DeliveredAreInTopic(ActAll(b, actions))
    decreases |actions|
  {
    if actions != [] {
      DeliveredIsInTopic(b, DropLast(actions));
      ActKeepsStored(ActAll(b, DropLast(actions)), Last(actions));
      ActKeepsDelivered(ActAll(b, DropLast(actions)), Last(actions));
    }
  }

  // ---------------------------------------------------------------------------
  // Polls

  /** What a poll sends are the feed's fresh events, each as often as the feed holds it and in its order. */
  lemma {:induction false} SentInOrder(
      setup: Setup, markers: map<string, string>, feed: seq<UsgsEvent>, nowMs: int, e: UsgsEvent)
    ensures Subseq(Sent(setup, markers, feed, nowMs), feed)
    ensures multiset(Sent(setup, markers, feed, nowMs))[e] ==
              if Fresh(setup, markers, e, nowMs) then multiset(feed)[e] else 0
    decreases |feed|
  {
    if feed != [] {
      var front := DropLast(feed);
      SentInOrder(setup, markers, front, nowMs, e);
      DropLastThenLast(feed);
      CountSnoc(front, Last(feed), e);
      CountSnoc(Sent(setup, markers, front, nowMs), Last(feed), e);
      SubseqExtend(Sent(setup, markers, front, nowMs), front, [Last(feed)]);
      SubseqAppend(Sent(setup, markers, front, nowMs), front, [Last(feed)]);
    }
  }

  /** What is confirmed are the pending events with a delivered id, each as often as pending and in order. */
  lemma {:induction false} ConfirmedInOrder(pending: seq<UsgsEvent>, delivered: set<string>, e: UsgsEvent)
    ensures Subseq(Confirmed(pending, delivered), pending)
    ensures multiset(Confirmed(pending, delivered))[e] ==
              if e.sourceEventId in delivered then multiset(pending)[e] else 0
    decreases |pending|
  {
    if pending != [] {
      var front := DropLast(pending);
      ConfirmedInOrder(front, delivered, e);
      DropLastThenLast(pending);
      CountSnoc(front, Last(pending), e);
      CountSnoc(Confirmed(front, delivered), Last(pending), e);
      SubseqExtend(Confirmed(front, delivered), front, [Last(pending)]);
      SubseqAppend(Confirmed(front, delivered), front, [Last(pending)]);
    }
  }

  /** Of several confirmed versions of one id the last one's marker stays. */
  lemma {:induction false} RecordedIsLast(setup: Setup, markers: map<string, string>, es: seq<UsgsEvent>, i: nat)
    requires i < |es| && forall j :: i < j < |es| ==> es[j].sourceEventId != es[i].sourceEventId
    ensures es[i].sourceEventId in Recorded(setup, markers, es)
    ensures Recorded(setup, markers, es)[es[i].sourceEventId] == setup.codec.Marker(es[i])
    decreases |es|
  {
    if i < |es| - 1 {
      RecordedIsLast(setup, markers, DropLast(es), i);
    }
  }

  lemma {:induction false} AllConfirmed(pending: seq<UsgsEvent>, ids: set<string>)
    requires forall i :: 0 <= i < |pending| ==> pending[i].sourceEventId in ids
    ensures Confirmed(pending, ids) == pending
    decreases |pending|
  {
    if pending != [] {
      AllConfirmed(DropLast(pending), ids);
      DropLastThenLast(pending);
    }
  }

  lemma {:induction false} NoneConfirmed(pending: seq<UsgsEvent>)
    ensures Confirmed(pending, {}) == []
    decreases |pending|
  {
    if pending != [] {
      NoneConfirmed(DropLast(pending));
    }
  }

  /** The later of `fromMs` and all update times: not exceeded, and attained. */
  lemma {:induction false} LatestOfMeaning(fromMs: int, es: seq<UsgsEvent>)
    ensures fromMs <= LatestOf(fromMs, es) && forall e :: e in es ==> e.updatedMs <= LatestOf(fromMs, es)
    ensures LatestOf(fromMs, es) == fromMs || exists e :: e in es && e.updatedMs == LatestOf(fromMs, es)
    decreases |es|
  {
    if es != [] {
      LatestOfMeaning(fromMs, DropLast(es));
      DropLastThenLast(es);
    }
  }

  lemma AllSentAreDelivered(queue: seq<Entry>, topic: seq<Message>, sent: seq<UsgsEvent>, nowMs: int)
    ensures var all := queue + Entries(sent, nowMs);
            var after := ActAll(Broker(all, topic, {}), StoreAndAck(|queue| + |sent|));
            after.queue == [] && after.topic == topic + UnstoredIn(all) && Confirmed(sent, after.delivered) == sent
  {
    var all := queue + Entries(sent, nowMs);
    EverythingAnswered(Broker(all, topic, {}));
    forall i | 0 <= i < |sent|
      ensures sent[i].sourceEventId in {} + IdsOf(all)
    {
      assert all[|queue| + i] in all && all[|queue| + i].message.event == sent[i];
    }
    AllConfirmed(sent, {} + IdsOf(all));
  }

  /** What a flush that answers everything hands over. */
  lemma FlushedWhole(
      setup: Setup, s: Stores, feed: seq<UsgsEvent>, errors: seq<FeatureParseError>, nowMs: int, script: Script,
      sent: seq<UsgsEvent>)
    requires sent == Sent(setup, s.markers, feed, nowMs) && Flushes(setup, s, feed, errors, nowMs)
    requires script.actions == StoreAndAck(|s.queue| + |sent|)
    ensures var broker := Flushed(setup, s, feed, errors, nowMs, script);
            && broker.queue == [] && broker.topic == s.topic + UnstoredIn(s.queue + Entries(sent, nowMs))
            && Confirmed(sent, broker.delivered) == sent
  {
    AllSentAreDelivered(s.queue, s.topic, sent, nowMs);
  }

  lemma SomethingToFlush(
      setup: Setup, s: Stores, feed: seq<UsgsEvent>, errors: seq<FeatureParseError>, nowMs: int)
    ensures Flushes(setup, s, feed, errors, nowMs) <==>
              || Sent(setup, s.markers, feed, nowMs) != [] || errors != [] || RejectedCount(setup, feed, nowMs) > 0
  {
    AuditsOfLength(setup, feed, errors, nowMs);
  }

  /** What a poll stores, given what its flush hands over. */
  lemma PollStores(
      setup: Setup, s: Stores, feed: seq<UsgsEvent>, errors: seq<FeatureParseError>, nowMs: int, script: Script,
      stats: PollStats, t: Stores)
    requires IsPoll(setup, s, feed, errors, nowMs, script, stats, t)
    ensures var broker := Flushed(setup, s, feed, errors, nowMs, script);
            var confirmed := Confirmed(Sent(setup, s.markers, feed, nowMs), broker.delivered);
            && t.queue == broker.queue && t.topic == broker.topic && stats.produced == |confirmed|
            && IsCommit(setup, s, Flushes(setup, s, feed, errors, nowMs), confirmed, t)
  {
  }

  /**
   * A poll that sends an event or turns one away, and whose flush stores and acknowledges everything,
   * leaves no event queued, not even one carried over, has all it sent in the topic, records the marker of
   * every sent id, counts every sent event as produced, and moves the cursor to the latest update time.
   */
  lemma {:induction false} AnsweredPoll(
      setup: Setup, s: Stores, feed: seq<UsgsEvent>, errors: seq<FeatureParseError>, nowMs: int, script: Script,
      stats: PollStats, t: Stores, sent: seq<UsgsEvent>)
    requires IsPoll(setup, s, feed, errors, nowMs, script, stats, t)
    requires sent == Sent(setup, s.markers, feed, nowMs)
    requires sent != [] || errors != [] || RejectedCount(setup, feed, nowMs) > 0
    requires script.actions == StoreAndAck(|s.queue| + |sent|)
    ensures t.queue == [] && t.topic == s.topic + UnstoredIn(s.queue + Entries(sent, nowMs))
    ensures stats.produced == |sent| && IsCommit(setup, s, true, sent, t)
  {
    SomethingToFlush(setup, s, feed, errors, nowMs);
    FlushedWhole(setup, s, feed, errors, nowMs, script, sent);
    PollStores(setup, s, feed, errors, nowMs, script, stats, t);
  }

  predicate HasId(es: seq<UsgsEvent>, id: string) {
    exists e :: e in es && e.sourceEventId == id
  }

  predicate MarksOne(setup: Setup, es: seq<UsgsEvent>, id: string, marker: string) {
    exists e :: e in es && e.sourceEventId == id && setup.codec.Marker(e) == marker
  }

  /** After recording, an id's marker is that of one of its recorded events, or what it was before. */
  lemma {:induction false} RecordedMarker(setup: Setup, markers: map<string, string>, es: seq<UsgsEvent>, id: string)
    ensures var after := Recorded(setup, markers, es);
            if HasId(es, id) then id in after && MarksOne(setup, es, id, after[id])
            else (id in after <==> id in markers) && (id in after ==> after[id] == markers[id])
    decreases |es|
  {
    if es != [] {
      var front, e := DropLast(es), Last(es);
      RecordedMarker(setup, markers, front, id);
      assert e in es && forall d :: d in front ==> d in es;
      assert forall d :: d in es ==> d in front || d == e;
    }
  }

  /** A commit marks each confirmed id as one of its events, and no other; the cursor ends at the latest. */
  lemma {:induction false} CommitLeaves(setup: Setup, s: Stores, confirmed: seq<UsgsEvent>, t: Stores, id: string)
    requires IsCommit(setup, s, true, confirmed, t)
    ensures if HasId(confirmed, id) then id in t.markers && MarksOne(setup, confirmed, id, t.markers[id])
            else (id in t.markers <==> id in s.markers) && (id in t.markers ==> t.markers[id] == s.markers[id])
    ensures OrZero(s.cursorMs) <= OrZero(t.cursorMs)
    ensures forall e :: e in confirmed && e.updatedMs > 0 ==> e.updatedMs <= OrZero(t.cursorMs)
  {
    RecordedMarker(setup, s.markers, confirmed, id);
    LatestOfMeaning(OrZero(s.cursorMs), confirmed);
  }

  /** A poll whose flush gets no answer confirms nothing: all stores stay, and what it sent stays queued. */
  lemma {:induction false} UnansweredPoll(
      setup: Setup, s: Stores, feed: seq<UsgsEvent>, errors: seq<FeatureParseError>, nowMs: int, script: Script,
      stats: PollStats, t: Stores)
    requires IsPoll(setup, s, feed, errors, nowMs, script, stats, t) && script.actions == []
    ensures t.markers == s.markers && t.topic == s.topic && t.cursorMs == s.cursorMs && stats.produced == 0
    ensures t.queue == s.queue + Entries(Sent(setup, s.markers, feed, nowMs), nowMs)
  {
    NoneConfirmed(Sent(setup, s.markers, feed, nowMs));
  }

  /** A poll with nothing to send and nothing to turn away leaves every store as it is; nothing is flushed. */
  lemma {:induction false} IdlePoll(
      setup: Setup, s: Stores, feed: seq<UsgsEvent>, errors: seq<FeatureParseError>, nowMs: int, script: Script,
      stats: PollStats, t: Stores)
    requires IsPoll(setup, s, feed, errors, nowMs, script, stats, t)
    requires Sent(setup, s.markers, feed, nowMs) == [] && errors == [] && RejectedCount(setup, feed, nowMs) == 0
    ensures t == s && stats == PollStats(|feed|, 0, |feed|, 0, 0)
  {
    EventAuditsLength(setup, feed, nowMs);
    assert AuditsOf(setup, feed, errors, nowMs) == [];
    assert s.queue + Entries([], nowMs) == s.queue && s.audits + [] == s.audits;
  }

  lemma {:induction false} AtMostAllConfirmed(pending: seq<UsgsEvent>, delivered: set<string>)
    ensures |Confirmed(pending, delivered)| <= |pending|
    decreases |pending|
  {
    if pending != [] {
      AtMostAllConfirmed(DropLast(pending), delivered);
    }
  }

  lemma AuditsOfLength(setup: Setup, feed: seq<UsgsEvent>, errors: seq<FeatureParseError>, nowMs: int)
    ensures |AuditsOf(setup, feed, errors, nowMs)| == |errors| + RejectedCount(setup, feed, nowMs)
  {
    ParseAuditsLength(errors);
    EventAuditsLength(setup, feed, nowMs);
  }

  lemma PollCounters(
      setup: Setup, s: Stores, feed: seq<UsgsEvent>, errors: seq<FeatureParseError>, nowMs: int, script: Script,
      stats: PollStats, t: Stores)
    requires IsPoll(setup, s, feed, errors, nowMs, script, stats, t)
    ensures var sent, audits := Sent(setup, s.markers, feed, nowMs), AuditsOf(setup, feed, errors, nowMs);
            var flushes := Flushes(setup, s, feed, errors, nowMs);
            var broker := Flushed(setup, s, feed, errors, nowMs, script);
            && IsAudited(s, flushes, audits, script.auditsAnswered, t)
            && IsCounted(stats, |feed| + |errors|, |sent|, |Confirmed(sent, broker.delivered)|, |audits|, flushes, t)
            && |audits| == |errors| + RejectedCount(setup, feed, nowMs)
  {
    AuditsOfLength(setup, feed, errors, nowMs);
  }

  /** The counters and the audit records of every poll, whatever the broker does. */
  lemma {:induction false} PollAccount(
      setup: Setup, s: Stores, feed: seq<UsgsEvent>, errors: seq<FeatureParseError>, nowMs: int, script: Script,
      stats: PollStats, t: Stores)
    requires IsPoll(setup, s, feed, errors, nowMs, script, stats, t)
    ensures stats.fetched == |feed| + |errors|
    ensures stats.invalid == |errors| + RejectedCount(setup, feed, nowMs)
    ensures stats.duplicates == |feed| - RejectedCount(setup, feed, nowMs) - |Sent(setup, s.markers, feed, nowMs)|
    ensures stats.produced <= |Sent(setup, s.markers, feed, nowMs)|
    ensures t.audits == s.audits + ParseAudits(errors) + EventAudits(setup, feed, nowMs)
    ensures if |Sent(setup, s.markers, feed, nowMs)| + stats.invalid > 0 then
              && stats.undelivered == |t.queue| + |t.auditQueue|
              && t.auditQueue == AuditsLeft(s.auditQueue + AuditsOf(setup, feed, errors, nowMs), script.auditsAnswered)
            else stats.undelivered == 0 && t.auditQueue == s.auditQueue
  {
    SomethingToFlush(setup, s, feed, errors, nowMs);
    PollCounters(setup, s, feed, errors, nowMs, script, stats, t);
    AtMostAllConfirmed(Sent(setup, s.markers, feed, nowMs), Flushed(setup, s, feed, errors, nowMs, script).delivered);
    Associates(s.audits, ParseAudits(errors), EventAudits(setup, feed, nowMs));
  }

  // ---------------------------------------------------------------------------
  // Audit records

  /** How many events of the feed fail a check. */
  function RejectedCount(setup: Setup, feed: seq<UsgsEvent>, nowMs: int): nat {
    if feed == [] then 0
    else
      RejectedCount(setup, DropLast(feed), nowMs)
      + if Acceptable(Last(feed), nowMs, setup.toleranceMs) then 0 else 1
  }

  /** The record of a feature that does not parse: its id where known, the problem, and no payload. */
  lemma {:induction false} ParseAuditSays(errors: seq<FeatureParseError>, i: nat)
    requires i < |errors|
    ensures |ParseAudits(errors)| == |errors|
    ensures var audit := ParseAudits(errors)[i];
            && audit.sourceEventId == errors[i].sourceEventId && audit.raw == None
            && audit.complaint.Unparseable? && audit.complaint.problem == errors[i].problem
    decreases |errors|
  {
    ParseAuditsLength(errors);
    if i < |errors| - 1 {
      ParseAuditSays(DropLast(errors), i);
    } else {
      ParseAuditsLength(DropLast(errors));
    }
  }

  lemma {:induction false} EventAuditsLength(setup: Setup, feed: seq<UsgsEvent>, nowMs: int)
    ensures |EventAudits(setup, feed, nowMs)| == RejectedCount(setup, feed, nowMs)
    decreases |feed|
  {
    if feed != [] {
      EventAuditsLength(setup, DropLast(feed), nowMs);
    }
  }

  /** The record of an event that fails a check: its id, its payload, the rules it breaks; one each, in order. */
  lemma {:induction false} EventAuditSays(setup: Setup, feed: seq<UsgsEvent>, nowMs: int, i: nat)
    requires i < |feed| && !Acceptable(feed[i], nowMs, setup.toleranceMs)
    ensures |EventAudits(setup, feed, nowMs)| == RejectedCount(setup, feed, nowMs)
    ensures RejectedCount(setup, feed[..i], nowMs) < |EventAudits(setup, feed, nowMs)|
    ensures var audit := EventAudits(setup, feed, nowMs)[RejectedCount(setup, feed[..i], nowMs)];
            && audit.sourceEventId == Some(feed[i].sourceEventId) && audit.raw == Some(feed[i])
            && audit.complaint.BrokenRules?
            && forall r :: r in audit.complaint.reasons <==> Breaks(feed[i], r, nowMs, setup.toleranceMs)
    decreases |feed|
  {
    var front := DropLast(feed);
    EventAuditsLength(setup, feed, nowMs);
    EventAuditsLength(setup, front, nowMs);
    if i < |front| {
      assert front[..i] == feed[..i];
      EventAuditSays(setup, front, nowMs, i);
    } else {
      assert feed[..i] == front;
    }
  }
}
