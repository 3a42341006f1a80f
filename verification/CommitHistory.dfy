/**
 * What holds over every run of the commit protocol about the order of the topic, the messages in it,
 * and the cursor. None of it depends on how acknowledgements are tracked.
 */
module CommitHistory {
  import opened Wrappers
  import opened Sequences
  import opened UsgsEvents
  import opened CommitProtocol

  // ---------------------------------------------------------------------------
  // Per-id order

  /** The events of one id, in order. */
  function OfId(es: seq<UsgsEvent>, id: string): seq<UsgsEvent> {
    if es == [] then []
    else if Last(es).sourceEventId == id then OfId(DropLast(es), id) + [Last(es)]
    else OfId(DropLast(es), id)
  }

  function Events(ms: seq<Message>): (es: seq<UsgsEvent>)
    ensures |es| == |ms|
    ensures forall i :: 0 <= i < |ms| ==> es[i] == ms[i].event
  {
    if ms == [] then [] else Events(DropLast(ms)) + [Last(ms).event]
  }

  /** The events of one id that are queued and not yet stored, in queue order. */
  function UnstoredOf(q: seq<Entry>, id: string): seq<UsgsEvent> {
    if q == [] then []
    else if !Last(q).stored && Last(q).message.event.sourceEventId == id
    then UnstoredOf(DropLast(q), id) + [Last(q).message.event]
    else UnstoredOf(DropLast(q), id)
  }

  lemma OfIdSnoc(es: seq<UsgsEvent>, e: UsgsEvent, id: string)
    ensures OfId(es + [e], id) == if e.sourceEventId == id then OfId(es, id) + [e] else OfId(es, id)
  {
    assert DropLast(es + [e]) == es;
  }

  lemma {:induction false} NothingUnstored(q: seq<Entry>, id: string)
    requires forall i :: 0 <= i < |q| && q[i].message.event.sourceEventId == id ==> q[i].stored
    ensures UnstoredOf(q, id) == []
    decreases |q|
  {
    if q != [] {
      NothingUnstored(DropLast(q), id);
    }
  }

  /** Storing a message takes it off the front of its id's unstored messages. */
  lemma {:induction false} StoreTakesFirst(q: seq<Entry>, j: nat, id: string)
    requires Storable(q, j)
    ensures var q' := q[j := q[j].(stored := true)];
            var e := q[j].message.event;
            UnstoredOf(q, id) == if e.sourceEventId == id then [e] + UnstoredOf(q', id) else UnstoredOf(q', id)
    decreases |q|
  {
    var q' := q[j := q[j].(stored := true)];
    if j == |q| - 1 {
      assert DropLast(q') == DropLast(q);
      if q[j].message.event.sourceEventId == id {
        NothingUnstored(DropLast(q), id);
      }
    } else {
      assert q[..|q| - 1] == DropLast(q) && DropLast(q') == DropLast(q)[j := q[j].(stored := true)];
      StoreTakesFirst(DropLast(q), j, id);
    }
  }

  lemma UnstoredOfSnoc(q: seq<Entry>, x: Entry, id: string)
    ensures UnstoredOf(q + [x], id)
         == if !x.stored && x.message.event.sourceEventId == id then UnstoredOf(q, id) + [x.message.event]
            else UnstoredOf(q, id)
  {
    assert DropLast(q + [x]) == q;
  }

  lemma {:induction false} RemovalShrinks(q: seq<Entry>, j: nat, id: string)
    requires j < |q|
    ensures Subseq(UnstoredOf(RemoveAt(q, j), id), UnstoredOf(q, id))
    decreases |q|
  {
    var front, x := DropLast(q), Last(q);
    assert q == front + [x];
    UnstoredOfSnoc(front, x, id);
    if j == |q| - 1 {
      assert RemoveAt(q, j) == front;
      SubseqRefl(UnstoredOf(front, id));
      SubseqExtend(UnstoredOf(front, id), UnstoredOf(front, id), [x.message.event]);
    } else {
      RemovalShrinks(front, j, id);
      assert RemoveAt(q, j) == RemoveAt(front, j) + [x];
      UnstoredOfSnoc(RemoveAt(front, j), x, id);
      SubseqAppend(UnstoredOf(RemoveAt(front, j), id), UnstoredOf(front, id), [x.message.event]);
    }
  }

  /** Topic and queue hold, per id, versions some polls saw, in the order they saw them. */
  predicate InOrder(s: Sys, id: string) {
    Subseq(OfId(Events(s.topic), id) + UnstoredOf(s.inflight, id), OfId(s.saw, id))
  }

  lemma SeenAndSent(stored: seq<UsgsEvent>, queued: seq<UsgsEvent>, saw: seq<UsgsEvent>, e: UsgsEvent)
    requires Subseq(stored + queued, saw)
    ensures Subseq(stored + queued, saw + [e])
    ensures Subseq(stored + (queued + [e]), saw + [e])
  {
    SubseqExtend(stored + queued, saw, [e]);
    SubseqAppend(stored + queued, saw, [e]);
    assert stored + (queued + [e]) == stored + queued + [e];
  }

  /** What a scan may do: see nothing new, see an event, or see it and send it. */
  predicate SeesOrSends(s: Sys, t: Sys, e: UsgsEvent, nowMs: int) {
    && t.topic == s.topic
    && (|| (t.saw == s.saw && t.inflight == s.inflight)
        || (t.saw == s.saw + [e] && t.inflight == s.inflight)
        || (t.saw == s.saw + [e] && t.inflight == s.inflight + [Entry(Message(e, nowMs), false)]))
  }

  lemma {:induction false} ScanKeepsOrder(s: Sys, t: Sys, e: UsgsEvent, nowMs: int, id: string)
    requires InOrder(s, id) && SeesOrSends(s, t, e, nowMs)
    ensures InOrder(t, id)
  {
    OfIdSnoc(s.saw, e, id);
    UnstoredOfSnoc(s.inflight, Entry(Message(e, nowMs), false), id);
    SeenAndSent(OfId(Events(s.topic), id), UnstoredOf(s.inflight, id), OfId(s.saw, id), e);
  }

  lemma StoreMovesOver(stored: seq<UsgsEvent>, e: UsgsEvent, queued: seq<UsgsEvent>)
    ensures stored + ([e] + queued) == stored + [e] + queued
  {
  }

  lemma EventsSnoc(ms: seq<Message>, m: Message)
    ensures Events(ms + [m]) == Events(ms) + [m.event]
  {
  }

  lemma {:induction false} StoreKeepsOrder(s: Sys, j: nat, t: Sys, id: string)
    requires InOrder(s, id) && Storable(s.inflight, j) && t.saw == s.saw
    requires t.inflight == s.inflight[j := s.inflight[j].(stored := true)]
    requires t.topic == s.topic + [s.inflight[j].message]
    ensures InOrder(t, id)
  {
    var m := s.inflight[j].message;
    StoreTakesFirst(s.inflight, j, id);
    EventsSnoc(s.topic, m);
    OfIdSnoc(Events(s.topic), m.event, id);
    StoreMovesOver(OfId(Events(s.topic), id), m.event, UnstoredOf(t.inflight, id));
  }

  /** Dropping queued messages keeps the order. */
  lemma {:induction false} ShrinkKeepsOrder(s: Sys, t: Sys, id: string)
    requires InOrder(s, id) && t.topic == s.topic && t.saw == s.saw
    requires Subseq(UnstoredOf(t.inflight, id), UnstoredOf(s.inflight, id))
    ensures InOrder(t, id)
  {
    var stored := OfId(Events(s.topic), id);
    SubseqPrepend(stored, UnstoredOf(t.inflight, id), UnstoredOf(s.inflight, id));
    SubseqTrans(stored + UnstoredOf(t.inflight, id), stored + UnstoredOf(s.inflight, id), OfId(s.saw, id));
  }

  /** What a step may do to the topic, the queue and what was seen. */
  predicate QueueMoves(s: Sys, step: Step, t: Sys) {
    match step
    case Scan =>
      && s.phase.Scanning? && s.phase.next < |s.phase.feed|
      && SeesOrSends(s, t, s.phase.feed[s.phase.next], s.phase.nowMs)
    case Store(j) =>
      && Storable(s.inflight, j) && t.saw == s.saw
      && t.inflight == s.inflight[j := s.inflight[j].(stored := true)]
      && t.topic == s.topic + [s.inflight[j].message]
    case Ack(j) => j < |s.inflight| && t.inflight == RemoveAt(s.inflight, j) && t.topic == s.topic && t.saw == s.saw
    case Fail(j) => j < |s.inflight| && t.inflight == RemoveAt(s.inflight, j) && t.topic == s.topic && t.saw == s.saw
    case Crash => t.inflight == [] && t.topic == s.topic && t.saw == s.saw
    case _ => t.inflight == s.inflight && t.topic == s.topic && t.saw == s.saw
  }

  lemma QueueEffect(setup: Setup, s: Sys, step: Step, t: Sys)
    requires Next(setup, s, step) == Some(t)
    ensures QueueMoves(s, step, t)
  {
  }

  lemma {:induction false} StepKeepsOrder(s: Sys, step: Step, t: Sys, id: string)
    requires InOrder(s, id) && QueueMoves(s, step, t)
    ensures InOrder(t, id)
  {
    match step
    case Scan => ScanKeepsOrder(s, t, s.phase.feed[s.phase.next], s.phase.nowMs, id);
    case Store(j) => StoreKeepsOrder(s, j, t, id);
    case Ack(j) => RemovalShrinks(s.inflight, j, id); ShrinkKeepsOrder(s, t, id);
    case Fail(j) => RemovalShrinks(s.inflight, j, id); ShrinkKeepsOrder(s, t, id);
    case Crash => ShrinkKeepsOrder(s, t, id);
    case _ =>
  }

  lemma {:induction false} RunKeepsOrder(setup: Setup, steps: seq<Step>, id: string)
    requires Run(setup, steps).Some?
    ensures InOrder(Run(setup, steps).value, id)
    decreases |steps|
  {
    if steps != [] {
      RunKeepsOrder(setup, DropLast(steps), id);
      QueueEffect(setup, Run(setup, DropLast(steps)).value, Last(steps), Run(setup, steps).value);
      StepKeepsOrder(Run(setup, DropLast(steps)).value, Last(steps), Run(setup, steps).value, id);
    }
  }

  /**
   * Over every run the topic holds, for each id, a subsequence of the versions the polls saw, in
   * that order: crashes, lost acknowledgements and resends never reorder or invent a version.
   */
  lemma {:induction false} TopicIsOrdered(setup: Setup, s: Sys, id: string)
    requires Reachable(setup, s)
    ensures Subseq(OfId(Events(s.topic), id), OfId(s.saw, id))
  {
    var steps :| Run(setup, steps) == Some(s);
    RunKeepsOrder(setup, steps, id);
    var stored := OfId(Events(s.topic), id);
    SubseqRefl(stored);
    SubseqExtend(stored, stored, UnstoredOf(s.inflight, id));
    SubseqTrans(stored, stored + UnstoredOf(s.inflight, id), OfId(s.saw, id));
  }

  // ---------------------------------------------------------------------------
  // Everything sent passed the quality checks

  predicate Checked(setup: Setup, m: Message) {
    Acceptable(m.event, m.ingestedMs, setup.toleranceMs)
  }

  predicate AllChecked(setup: Setup, s: Sys) {
    && (forall m :: m in s.topic ==> Checked(setup, m))
    && (forall x :: x in s.inflight ==> Checked(setup, x.message))
  }

  lemma {:induction false} TopicIsChecked(setup: Setup, steps: seq<Step>)
    requires Run(setup, steps).Some?
    ensures AllChecked(setup, Run(setup, steps).value)
    decreases |steps|
  {
    if steps != [] {
      TopicIsChecked(setup, DropLast(steps));
      var s := Run(setup, DropLast(steps)).value;
      if Last(steps).Ack? || Last(steps).Fail? {
        RemoveAtMembers(s.inflight, Last(steps).j);
      }
    }
  }

  lemma ReachableIsChecked(setup: Setup, s: Sys)
    requires Reachable(setup, s)
    ensures AllChecked(setup, s)
  {
    var steps :| Run(setup, steps) == Some(s);
    TopicIsChecked(setup, steps);
  }

  // ---------------------------------------------------------------------------
  // The cursor

  /** The latest update time among `es`, or 0 if none is later. */
  function LatestMs(es: seq<UsgsEvent>): (ms: int)
    ensures ms >= 0
  {
    if es == [] then 0 else Max(LatestMs(DropLast(es)), Last(es).updatedMs)
  }

  lemma {:induction false} LatestMeaning(es: seq<UsgsEvent>)
    ensures forall e :: e in es ==> e.updatedMs <= LatestMs(es)
    ensures LatestMs(es) == 0 || exists e :: e in es && e.updatedMs == LatestMs(es)
    decreases |es|
  {
    if es != [] {
      LatestMeaning(DropLast(es));
      DropLastThenLast(es);
    }
  }

  predicate CursorBounded(s: Sys) {
    && 0 <= OrZero(s.cursorMs) <= LatestMs(s.recorded)
    && (s.phase.Committing? ==> OrZero(s.cursorMs) <= s.phase.maxMs <= LatestMs(s.recorded))
  }

  predicate CursorExact(s: Sys) {
    LatestMs(s.recorded) == if s.phase.Committing? then s.phase.maxMs else OrZero(s.cursorMs)
  }

  /** What a step may do to the cursor and to what decides it. */
  predicate CursorMoves(s: Sys, step: Step, t: Sys) {
    if step.Commit? then
      && s.phase.Committing? && t.phase.Committing? && t.cursorMs == s.cursorMs
      && (|| (t.recorded == s.recorded && t.phase.maxMs == s.phase.maxMs)
          || (&& t.recorded != [] && DropLast(t.recorded) == s.recorded
              && t.phase.maxMs == Max(s.phase.maxMs, Last(t.recorded).updatedMs)))
    else
      && t.recorded == s.recorded
      && (step.SetCursor? ==>
            && s.phase.Committing? && t.phase.Idle?
            && t.cursorMs == if s.phase.maxMs != 0 then Some(s.phase.maxMs) else s.cursorMs)
      && (!step.SetCursor? ==>
            && t.cursorMs == s.cursorMs
            && (t.phase.Committing? ==>
                  t.phase.maxMs == if s.phase.Committing? then s.phase.maxMs else OrZero(s.cursorMs))
            && (s.phase.Committing? && !t.phase.Committing? ==> step.Crash? || step.Abort?)
            && (step.Crash? || step.Abort? ==> !t.phase.Committing?))
  }

  lemma CursorEffect(setup: Setup, s: Sys, step: Step, t: Sys)
    requires Next(setup, s, step) == Some(t)
    ensures CursorMoves(s, step, t)
  {
    if step.Commit? && t.recorded != s.recorded {
      assert DropLast(t.recorded) == s.recorded;
    }
  }

  lemma {:induction false} StepMovesCursor(s: Sys, step: Step, t: Sys)
    requires CursorBounded(s) && CursorMoves(s, step, t)
    ensures CursorBounded(t)
    ensures OrZero(s.cursorMs) <= OrZero(t.cursorMs)
    ensures CursorExact(s) && !step.Crash? && !step.Abort? ==> CursorExact(t)
  {
    assert t.recorded != [] && DropLast(t.recorded) == s.recorded ==>
      LatestMs(t.recorded) == Max(LatestMs(s.recorded), Last(t.recorded).updatedMs);
  }

  predicate Uninterrupted(steps: seq<Step>) {
    forall x :: x in steps ==> !x.Crash? && !x.Abort?
  }

  /**
   * The cursor after any run is at most the latest update time ever recorded; if no poll was
   * interrupted it is, between polls, exactly that time.
   */
  lemma {:induction false} CursorIsLatestRecorded(setup: Setup, steps: seq<Step>)
    requires Run(setup, steps).Some?
    ensures var s := Run(setup, steps).value;
            && CursorBounded(s)
            && (Uninterrupted(steps) ==> CursorExact(s))
    decreases |steps|
  {
    if steps != [] {
      CursorIsLatestRecorded(setup, DropLast(steps));
      CursorEffect(setup, Run(setup, DropLast(steps)).value, Last(steps), Run(setup, steps).value);
      StepMovesCursor(Run(setup, DropLast(steps)).value, Last(steps), Run(setup, steps).value);
      assert Last(steps) in steps && forall x :: x in DropLast(steps) ==> x in steps;
    }
  }

  /** The cursor never goes back, crashes included. */
  lemma {:induction false} CursorNeverDecreases(setup: Setup, steps: seq<Step>, n: nat)
    requires Run(setup, steps).Some? && n <= |steps|
    ensures Run(setup, steps[..n]).Some?
    ensures OrZero(Run(setup, steps[..n]).value.cursorMs) <= OrZero(Run(setup, steps).value.cursorMs)
    decreases |steps|
  {
    if n == |steps| {
      assert steps[..n] == steps;
    } else {
      CursorNeverDecreases(setup, DropLast(steps), n);
      assert DropLast(steps)[..n] == steps[..n];
      CursorIsLatestRecorded(setup, DropLast(steps));
      CursorEffect(setup, Run(setup, DropLast(steps)).value, Last(steps), Run(setup, steps).value);
      StepMovesCursor(Run(setup, DropLast(steps)).value, Last(steps), Run(setup, steps).value);
    }
  }

  // ---------------------------------------------------------------------------
  // The cursor after interruptions

  /**
   * The recorded events by what became of their poll: it went on to write the cursor, it is still
   * committing, or it was interrupted before the write.
   */
  datatype Writes = Writes(kept: seq<UsgsEvent>, open: seq<UsgsEvent>, lost: seq<UsgsEvent>)

  function WritesNext(w: Writes, step: Step, before: seq<UsgsEvent>, after: seq<UsgsEvent>): Writes {
    if step.Commit? && after != before && after != [] then w.(open := w.open + [Last(after)])
    else if step.SetCursor? then Writes(w.kept + w.open, [], w.lost)
    else if step.Crash? || step.Abort? then Writes(w.kept, [], w.lost + w.open)
    else w
  }

  function WritesAfter(setup: Setup, steps: seq<Step>): Writes
    requires Run(setup, steps).Some?
  {
    if steps == [] then Writes([], [], [])
    else
      WritesNext(WritesAfter(setup, DropLast(steps)), Last(steps),
                 Run(setup, DropLast(steps)).value.recorded, Run(setup, steps).value.recorded)
  }

  /** Cursor and running maximum are the latest of the kept events, and of the kept and open ones. */
  predicate Tallies(s: Sys, w: Writes) {
    && OrZero(s.cursorMs) == LatestMs(w.kept)
    && if s.phase.Committing? then s.phase.maxMs == LatestMs(w.kept + w.open) else w.open == []
  }

  /** Every recorded event is kept, open or lost, as often as it was recorded. */
  predicate Accounts(recorded: seq<UsgsEvent>, w: Writes) {
    multiset(recorded) == multiset(w.kept) + multiset(w.open) + multiset(w.lost)
  }

  lemma StepAccounts(s: Sys, step: Step, t: Sys, w: Writes)
    requires Accounts(s.recorded, w) && CursorMoves(s, step, t)
    ensures Accounts(t.recorded, WritesNext(w, step, s.recorded, t.recorded))
  {
    if step.Commit? && t.recorded != s.recorded {
      assert t.recorded == s.recorded + [Last(t.recorded)];
    }
  }

  lemma LatestSnoc(es: seq<UsgsEvent>, e: UsgsEvent)
    ensures LatestMs(es + [e]) == Max(LatestMs(es), e.updatedMs)
  {
    assert DropLast(es + [e]) == es;
  }

  lemma {:induction false} LatestOfBoth(a: seq<UsgsEvent>, b: seq<UsgsEvent>)
    ensures LatestMs(a + b) == Max(LatestMs(a), LatestMs(b))
    decreases |b|
  {
    if b == [] {
      assert a + b == a;
    } else {
      LatestOfBoth(a, DropLast(b));
      LatestSnoc(a + DropLast(b), Last(b));
      assert a + b == a + DropLast(b) + [Last(b)];
    }
  }

  lemma LatestOfSame(a: seq<UsgsEvent>, b: seq<UsgsEvent>)
    requires forall e :: e in a <==> e in b
    ensures LatestMs(a) == LatestMs(b)
  {
    LatestMeaning(a);
    LatestMeaning(b);
  }

  lemma OneMoreOpen(kept: seq<UsgsEvent>, open: seq<UsgsEvent>, e: UsgsEvent)
    ensures LatestMs(kept + (open + [e])) == Max(LatestMs(kept + open), e.updatedMs)
  {
    assert kept + (open + [e]) == (kept + open) + [e];
    LatestSnoc(kept + open, e);
  }

  lemma {:induction false} StepTallies(s: Sys, step: Step, t: Sys, w: Writes)
    requires Tallies(s, w) && CursorMoves(s, step, t)
    ensures Tallies(t, WritesNext(w, step, s.recorded, t.recorded))
  {
    if step.Commit? && t.recorded != s.recorded {
      OneMoreOpen(w.kept, w.open, Last(t.recorded));
    } else if step.SetCursor? {
      LatestOfBoth(w.kept, w.open);
    } else if !s.phase.Committing? {
      assert w.kept + w.open == w.kept;
    }
  }

  /**
   * After every run, interrupted or not: the cursor is the latest update time among the events whose
   * poll reached its cursor write, and every recorded event is one of those, open or lost.
   */
  lemma {:induction false} CursorIsLatestKept(setup: Setup, steps: seq<Step>)
    requires Run(setup, steps).Some?
    ensures Tallies(Run(setup, steps).value, WritesAfter(setup, steps))
    ensures Accounts(Run(setup, steps).value.recorded, WritesAfter(setup, steps))
    decreases |steps|
  {
    if steps != [] {
      CursorIsLatestKept(setup, DropLast(steps));
      var s, t := Run(setup, DropLast(steps)).value, Run(setup, steps).value;
      CursorEffect(setup, s, Last(steps), t);
      StepTallies(s, Last(steps), t, WritesAfter(setup, DropLast(steps)));
      StepAccounts(s, Last(steps), t, WritesAfter(setup, DropLast(steps)));
    }
  }

  /** After every run the cursor is the latest recorded time exactly when no lost event is later than the others. */
  lemma {:induction false} CursorExactIff(setup: Setup, steps: seq<Step>)
    requires Run(setup, steps).Some?
    ensures var w := WritesAfter(setup, steps);
            CursorExact(Run(setup, steps).value) <==> LatestMs(w.lost) <= LatestMs(w.kept + w.open)
  {
    CursorIsLatestKept(setup, steps);
    var s, w := Run(setup, steps).value, WritesAfter(setup, steps);
    forall e
      ensures e in s.recorded <==> e in w.kept + w.open + w.lost
    {
      assert e in s.recorded <==> e in multiset(s.recorded);
    }
    LatestOfSame(s.recorded, w.kept + w.open + w.lost);
    LatestOfBoth(w.kept + w.open, w.lost);
    if !s.phase.Committing? {
      assert w.kept + w.open == w.kept;
    }
  }

  /** A poll of the one-event feed `[e]` that finds the queue empty, up to the recording of `e`. */
  lemma RecordOne(setup: Setup, before: seq<Step>, s: Sys, e: UsgsEvent, nowMs: int) returns (steps: seq<Step>, t: Sys)
    requires Run(setup, before) == Some(s) && s.phase.Idle? && s.inflight == []
    requires Acceptable(e, nowMs, setup.toleranceMs) && !IsDuplicate(setup, s.markers, e)
    ensures Run(setup, steps) == Some(t)
    ensures t.phase == Committing([e], 1, {e.sourceEventId}, Max(OrZero(s.cursorMs), e.updatedMs))
    ensures t.cursorMs == s.cursorMs && t.recorded == s.recorded + [e] && t.inflight == []
    ensures t.markers == s.markers[e.sourceEventId := setup.codec.Marker(e)]
  {
    var m := Message(e, nowMs);
    steps := SendOnly(setup, before, s, e, nowMs);
    var sent := s.(inflight := [Entry(m, false)], saw := s.saw + [e], phase := Flushing([e], {}));
    assert s.inflight + [Entry(m, false)] == sent.inflight;
    var acked;
    steps, acked := AckOne(setup, steps, sent, m);
    var committing := acked.(phase := Committing([e], 0, {e.sourceEventId}, OrZero(s.cursorMs)));
    steps := Extend(setup, START, steps, acked, EndFlush, committing);
    t := Next(setup, committing, Commit).value;
    steps := Extend(setup, START, steps, committing, Commit, t);
  }

  /** The broker stores and acknowledges the one queued message. */
  lemma AckOne(setup: Setup, before: seq<Step>, s: Sys, m: Message) returns (steps: seq<Step>, t: Sys)
    requires Run(setup, before) == Some(s)
    requires s.inflight == [Entry(m, false)] && s.phase == Flushing([m.event], {})
    ensures Run(setup, steps) == Some(t)
    ensures t == s.(inflight := [], topic := s.topic + [m], acked := s.acked + {m.event},
                    phase := Flushing([m.event], {m.event.sourceEventId}))
  {
    var stored := s.(inflight := [Entry(m, true)], topic := s.topic + [m]);
    assert s.inflight[0 := Entry(m, true)] == stored.inflight;
    steps := Extend(setup, START, before, s, Store(0), stored);
    assert RemoveAt(stored.inflight, 0) == [] && {} + {m.event.sourceEventId} == {m.event.sourceEventId};
    t := stored.(inflight := [], acked := s.acked + {m.event}, phase := Flushing([m.event], {m.event.sourceEventId}));
    steps := Extend(setup, START, steps, stored, Ack(0), t);
  }

  lemma RecordAndCrash(setup: Setup, e: UsgsEvent, nowMs: int) returns (steps: seq<Step>, t: Sys)
    requires Acceptable(e, nowMs, setup.toleranceMs)
    ensures Run(setup, steps) == Some(t) && t.phase.Idle? && t.inflight == []
    ensures t.cursorMs == None && t.recorded == [e] && t.markers.Keys == {e.sourceEventId}
  {
    var s;
    steps, s := RecordOne(setup, [], START, e, nowMs);
    assert [] + [e] == [e];
    t := s.(phase := Idle);
    steps := Extend(setup, START, steps, s, Crash, t);
  }

  /**
   * A crash after the marker of `late` is recorded and before the cursor is written, and then a poll that
   * records only the earlier `early`: the cursor ends at the earlier time.
   */
  lemma CrashLosesCursor(setup: Setup, late: UsgsEvent, early: UsgsEvent, nowMs: int) returns (steps: seq<Step>)
    requires late.sourceEventId != early.sourceEventId && 0 < early.updatedMs < late.updatedMs
    requires Acceptable(late, nowMs, setup.toleranceMs) && Acceptable(early, nowMs, setup.toleranceMs)
    ensures Run(setup, steps).Some?
    ensures var s := Run(setup, steps).value;
            s.phase.Idle? && s.recorded == [late, early] && s.cursorMs == Some(early.updatedMs) && !CursorExact(s)
  {
    var crashed;
    steps, crashed := RecordAndCrash(setup, late, nowMs);
    var s;
    steps, s := RecordOne(setup, steps, crashed, early, nowMs);
    assert [late] + [early] == [late, early];
    var done := s.(cursorMs := Some(early.updatedMs), phase := Idle);
    steps := Extend(setup, START, steps, s, SetCursor, done);
    LatestMeaning(done.recorded);
    assert late in done.recorded;
  }
}
