/** When polling an unchanged feed again and again sends nothing twice. */
module PollQuiescence {
  import opened Sequences
  import opened UsgsEvents
  import opened CommitProtocol
  import opened Poller
  import opened PollOutcome

  /** Accepted events of one id all carry one marker: the feed does not hold two versions of it. */
  predicate OneVersionPerId(setup: Setup, feed: seq<UsgsEvent>, nowMs: int) {
    forall d, e :: d in feed && e in feed && d.sourceEventId == e.sourceEventId
      && Acceptable(d, nowMs, setup.toleranceMs) && Acceptable(e, nowMs, setup.toleranceMs)
      ==> setup.codec.Marker(d) == setup.codec.Marker(e)
  }

  /** Every event of the feed that is accepted at `nowMs` counts as a duplicate. */
  predicate Settled(setup: Setup, markers: map<string, string>, feed: seq<UsgsEvent>, nowMs: int) {
    forall e :: e in feed && Acceptable(e, nowMs, setup.toleranceMs) ==> IsDuplicate(setup, markers, e)
  }

  /** The markers a poll leaves that gets acknowledgements for `ids`. */
  function AfterPoll(setup: Setup, markers: map<string, string>, feed: seq<UsgsEvent>, nowMs: int, ids: set<string>)
    : map<string, string>
  {
    Recorded(setup, markers, Confirmed(Sent(setup, markers, feed, nowMs), ids))
  }

  lemma {:induction false} SettledEvent(
      setup: Setup, markers: map<string, string>, feed: seq<UsgsEvent>, nowMs: int, ids: set<string>, e: UsgsEvent)
    requires forall d :: d in Sent(setup, markers, feed, nowMs) ==> d.sourceEventId in ids
    requires OneVersionPerId(setup, feed, nowMs)
    requires e in feed && Acceptable(e, nowMs, setup.toleranceMs)
    ensures IsDuplicate(setup, AfterPoll(setup, markers, feed, nowMs, ids), e)
  {
    var sent := Sent(setup, markers, feed, nowMs);
    var after := AfterPoll(setup, markers, feed, nowMs, ids);
    AllConfirmed(sent, ids);
    RecordedMarker(setup, markers, sent, e.sourceEventId);
    if HasId(sent, e.sourceEventId) {
      var d :| d in sent && d.sourceEventId == e.sourceEventId && setup.codec.Marker(d) == after[e.sourceEventId];
      assert d in feed && Fresh(setup, markers, d, nowMs);
    } else {
      assert e !in sent;
    }
  }

  /**
   * After a fully acknowledged poll every accepted event is settled, exactly when the feed does not
   * hold two accepted versions of one id. With two versions the polls alternate for ever.
   */
  lemma {:induction false} SettledIff(
      setup: Setup, markers: map<string, string>, feed: seq<UsgsEvent>, nowMs: int, ids: set<string>)
    requires forall e :: e in Sent(setup, markers, feed, nowMs) ==> e.sourceEventId in ids
    ensures Settled(setup, AfterPoll(setup, markers, feed, nowMs, ids), feed, nowMs)
            <==> OneVersionPerId(setup, feed, nowMs)
  {
    if OneVersionPerId(setup, feed, nowMs) {
      forall e | e in feed && Acceptable(e, nowMs, setup.toleranceMs)
        ensures IsDuplicate(setup, AfterPoll(setup, markers, feed, nowMs, ids), e)
      {
        SettledEvent(setup, markers, feed, nowMs, ids, e);
      }
    }
  }

  /** With these very markers, a poll of the feed at any time sends no event that was accepted before. */
  lemma {:induction false} SettledFeedIsQuiet(
      setup: Setup, markers: map<string, string>, feed: seq<UsgsEvent>, nowMs: int, laterMs: int)
    requires Settled(setup, markers, feed, nowMs)
    ensures forall e :: e in Sent(setup, markers, feed, laterMs) ==> !Acceptable(e, nowMs, setup.toleranceMs)
  {
    var sent := Sent(setup, markers, feed, laterMs);
    assert forall e :: e in sent ==> e in feed && Fresh(setup, markers, e, laterMs);
  }

  // ---------------------------------------------------------------------------
  // Any number of later polls

  /** A later poll of the feed: its clock, and the ids acknowledged to it. */
  datatype Poll = Poll(nowMs: int, ids: set<string>)

  /** The markers after further polls of one feed, at any times and with any acknowledgements. */
  function AfterPolls(setup: Setup, markers: map<string, string>, feed: seq<UsgsEvent>, polls: seq<Poll>)
    : map<string, string>
  {
    if polls == [] then markers
    else AfterPoll(setup, AfterPolls(setup, markers, feed, DropLast(polls)), feed, Last(polls).nowMs, Last(polls).ids)
  }

  /** A clock reading exists at which the event is accepted. */
  ghost predicate EverAcceptable(setup: Setup, e: UsgsEvent) {
    exists ms :: Acceptable(e, ms, setup.toleranceMs)
  }

  /** No version the feed can ever send contradicts a version accepted at `nowMs`. */
  ghost predicate NoRivals(setup: Setup, feed: seq<UsgsEvent>, nowMs: int) {
    forall d, e :: d in feed && e in feed && d.sourceEventId == e.sourceEventId
      && Acceptable(e, nowMs, setup.toleranceMs) && EverAcceptable(setup, d)
      ==> setup.codec.Marker(d) == setup.codec.Marker(e)
  }

  lemma {:induction false} ConfirmedIsSent(pending: seq<UsgsEvent>, ids: set<string>)
    ensures forall e :: e in Confirmed(pending, ids) ==> e in pending && e.sourceEventId in ids
    ensures forall e :: e in pending && e.sourceEventId in ids ==> e in Confirmed(pending, ids)
    decreases |pending|
  {
    if pending != [] {
      ConfirmedIsSent(DropLast(pending), ids);
      DropLastThenLast(pending);
    }
  }

  /** A poll of a feed without rivals leaves the events accepted before settled. */
  lemma {:induction false} PollKeepsSettled(
      setup: Setup, markers: map<string, string>, feed: seq<UsgsEvent>, nowMs: int, poll: Poll)
    requires NoRivals(setup, feed, nowMs) && Settled(setup, markers, feed, nowMs)
    ensures Settled(setup, AfterPoll(setup, markers, feed, poll.nowMs, poll.ids), feed, nowMs)
  {
    var sent := Sent(setup, markers, feed, poll.nowMs);
    var confirmed := Confirmed(sent, poll.ids);
    var after := AfterPoll(setup, markers, feed, poll.nowMs, poll.ids);
    ConfirmedIsSent(sent, poll.ids);
    forall e | e in feed && Acceptable(e, nowMs, setup.toleranceMs)
      ensures IsDuplicate(setup, after, e)
    {
      RecordedMarker(setup, markers, confirmed, e.sourceEventId);
      if HasId(confirmed, e.sourceEventId) {
        var d :| && d in confirmed && d.sourceEventId == e.sourceEventId
                 && setup.codec.Marker(d) == after[e.sourceEventId];
        assert d in feed && Acceptable(d, poll.nowMs, setup.toleranceMs);
      }
    }
  }

  lemma {:induction false} PollsKeepSettled(
      setup: Setup, markers: map<string, string>, feed: seq<UsgsEvent>, nowMs: int, polls: seq<Poll>)
    requires NoRivals(setup, feed, nowMs) && Settled(setup, markers, feed, nowMs)
    ensures Settled(setup, AfterPolls(setup, markers, feed, polls), feed, nowMs)
    decreases |polls|
  {
    if polls != [] {
      PollsKeepSettled(setup, markers, feed, nowMs, DropLast(polls));
      PollKeepsSettled(setup, AfterPolls(setup, markers, feed, DropLast(polls)), feed, nowMs, Last(polls));
    }
  }

  /** No poll of the feed, after any polls of it, sends an event that was accepted at `nowMs`. */
  ghost predicate StaysQuiet(setup: Setup, markers: map<string, string>, feed: seq<UsgsEvent>, nowMs: int) {
    forall polls, laterMs, e :: e in Sent(setup, AfterPolls(setup, markers, feed, polls), feed, laterMs)
      ==> !Acceptable(e, nowMs, setup.toleranceMs)
  }

  /** A poll that gets `d` acknowledged leaves a settled event of the same id with another marker unsettled. */
  lemma {:induction false} RivalUnsettles(
      setup: Setup, markers: map<string, string>, feed: seq<UsgsEvent>, d: UsgsEvent, e: UsgsEvent, ms: int)
    requires d in feed && e in feed && d.sourceEventId == e.sourceEventId
    requires setup.codec.Marker(d) != setup.codec.Marker(e) && IsDuplicate(setup, markers, e)
    requires Acceptable(d, ms, setup.toleranceMs)
    ensures !IsDuplicate(setup, AfterPoll(setup, markers, feed, ms, {d.sourceEventId}), e)
  {
    var sent := Sent(setup, markers, feed, ms);
    var confirmed := Confirmed(sent, {d.sourceEventId});
    var after := AfterPoll(setup, markers, feed, ms, {d.sourceEventId});
    ConfirmedIsSent(sent, {d.sourceEventId});
    assert d in confirmed;
    RecordedMarker(setup, markers, confirmed, e.sourceEventId);
    var x :| x in confirmed && x.sourceEventId == e.sourceEventId && setup.codec.Marker(x) == after[e.sourceEventId];
    assert Fresh(setup, markers, x, ms);
  }

  lemma {:induction false} QuietMeansNoRivals(
      setup: Setup, markers: map<string, string>, feed: seq<UsgsEvent>, nowMs: int, d: UsgsEvent, e: UsgsEvent)
    requires StaysQuiet(setup, markers, feed, nowMs)
    requires d in feed && e in feed && d.sourceEventId == e.sourceEventId
    requires Acceptable(e, nowMs, setup.toleranceMs) && EverAcceptable(setup, d)
    ensures setup.codec.Marker(d) == setup.codec.Marker(e)
  {
    assert AfterPolls(setup, markers, feed, []) == markers;
    assert e !in Sent(setup, AfterPolls(setup, markers, feed, []), feed, nowMs);
    if setup.codec.Marker(d) != setup.codec.Marker(e) {
      var ms :| Acceptable(d, ms, setup.toleranceMs);
      var once := [Poll(ms, {d.sourceEventId})];
      assert AfterPolls(setup, markers, feed, once) == AfterPoll(setup, markers, feed, ms, {d.sourceEventId}) by {
        assert DropLast(once) == [];
      }
      assert e !in Sent(setup, AfterPolls(setup, markers, feed, once), feed, nowMs);
      RivalUnsettles(setup, markers, feed, d, e, ms);
    }
  }

  /**
   * Take a fully acknowledged poll of a feed, then poll the same feed any number of times, at any
   * clock readings and with any acknowledgements, while no marker expires. None of these polls sends
   * an event the first accepted: exactly when no version of its id that the feed can ever send has
   * another marker.
   */
  lemma {:induction false} LaterPollsAreQuietIff(
      setup: Setup, markers: map<string, string>, feed: seq<UsgsEvent>, nowMs: int, ids: set<string>)
    requires forall e :: e in Sent(setup, markers, feed, nowMs) ==> e.sourceEventId in ids
    ensures StaysQuiet(setup, AfterPoll(setup, markers, feed, nowMs, ids), feed, nowMs)
            <==> NoRivals(setup, feed, nowMs)
  {
    var after := AfterPoll(setup, markers, feed, nowMs, ids);
    if NoRivals(setup, feed, nowMs) {
      assert OneVersionPerId(setup, feed, nowMs);
      SettledIff(setup, markers, feed, nowMs, ids);
      forall polls: seq<Poll>, laterMs, e | e in Sent(setup, AfterPolls(setup, after, feed, polls), feed, laterMs)
        ensures !Acceptable(e, nowMs, setup.toleranceMs)
      {
        PollsKeepSettled(setup, after, feed, nowMs, polls);
        SettledFeedIsQuiet(setup, AfterPolls(setup, after, feed, polls), feed, nowMs, laterMs);
      }
    }
    if StaysQuiet(setup, after, feed, nowMs) {
      forall d, e | d in feed && e in feed && d.sourceEventId == e.sourceEventId
                    && Acceptable(e, nowMs, setup.toleranceMs) && EverAcceptable(setup, d)
        ensures setup.codec.Marker(d) == setup.codec.Marker(e)
      {
        QuietMeansNoRivals(setup, after, feed, nowMs, d, e);
      }
    }
  }

  /** With distinct ids there are no rivals: whatever the first poll accepted is never sent again. */
  lemma {:induction false} DistinctFeedStaysQuiet(
      setup: Setup, markers: map<string, string>, feed: seq<UsgsEvent>, nowMs: int, ids: set<string>,
      polls: seq<Poll>, laterMs: int)
    requires DistinctIds(feed)
    requires forall e :: e in Sent(setup, markers, feed, nowMs) ==> e.sourceEventId in ids
    ensures var later := AfterPolls(setup, AfterPoll(setup, markers, feed, nowMs, ids), feed, polls);
            forall e :: e in Sent(setup, later, feed, laterMs) ==>
              e in feed && !Acceptable(e, nowMs, setup.toleranceMs) && Acceptable(e, laterMs, setup.toleranceMs)
  {
    assert NoRivals(setup, feed, nowMs);
    LaterPollsAreQuietIff(setup, markers, feed, nowMs, ids);
  }
}
