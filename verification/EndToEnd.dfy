/**
 * Ingestion, Job 1 and Job 2 composed: what a run of polls with crashes anywhere leaves in the
 * deduplicated topic.
 */
module EndToEnd {
  import opened Sequences
  import opened UsgsEvents
  import opened CommitProtocol
  import opened CommitHistory
  import opened Normalizer
  import opened Deduplication
  import DedupRecovery
  import DeduplicateFunction
  import PayloadHash

  /** Job 1 over the raw topic: the messages it accepts, each at the clock it handles it, in order. */
  function Job1(c: Codec, topic: seq<Message>, clocks: seq<int>): seq<UsgsEvent>
    requires |clocks| == |topic|
  {
    if topic == [] then []
    else
      var front := Job1(c, DropLast(topic), DropLast(clocks));
      if Accepts(Envelope(c, Last(topic).event), Last(clocks)) then front + [Last(topic).event] else front
  }

  function Canonical(c: Codec): UsgsEvent -> NormalizedEvent {
    (e: UsgsEvent) => Canonicalize(c, e)
  }

  /** A deduplicator whose key is source and id; what it compares is left open. */
  ghost predicate KeyedBySource(job: Operator<NormalizedEvent>) {
    forall n :: job.key(n) == DedupKey(n)
  }

  lemma Job2IsKeyedBySource(fmt: PayloadHash.Format, ttlMs: int)
    ensures KeyedBySource(DeduplicateFunction.Job2(fmt, ttlMs))
  {
  }

  /**
   * Two records handled by Job 2, `wait` milliseconds apart: the second is dropped exactly if it has the
   * source, id and content hash of the first and the wait is shorter than the time to live.
   */
  lemma Job2DropsWithin(
      fmt: PayloadHash.Format, ttlMs: int, m: NormalizedEvent, n: NormalizedEvent, now: int, wait: int)
    ensures var twice := [Sighting(m, now), Sighting(n, now + wait)];
            Emitted(DeduplicateFunction.Job2(fmt, ttlMs), twice) ==
              if && m.source + ":" + m.sourceEventId == n.source + ":" + n.sourceEventId
                 && PayloadHash.Of(fmt, m.content) == PayloadHash.Of(fmt, n.content) && wait < ttlMs
              then [m] else [m, n]
    ensures After(DeduplicateFunction.Job2(fmt, ttlMs), [Sighting(m, now)])
         == map[m.source + ":" + m.sourceEventId :=
                  DedupState(PayloadHash.Of(fmt, m.content), m.sourceVersion, now)]
  {
    SecondIsDroppedIff(DeduplicateFunction.Job2(fmt, ttlMs), m, n, now, now + wait);
    assert DropLast([Sighting(m, now)]) == [];
  }

  /** A deduplicator as it acts on raw events, through Job 1's mapping. */
  function OnRaw(c: Codec, job: Operator<NormalizedEvent>): Operator<UsgsEvent> {
    Through(job, Canonical(c))
  }

  function KeyOf(id: string): string {
    SOURCE + ":" + id
  }

  /** Job 1's clock lags the ingestion clock by no more than the difference of the tolerances. */
  predicate ClocksAgree(setup: Setup, topic: seq<Message>, clocks: seq<int>) {
    && |clocks| == |topic|
    && forall i :: 0 <= i < |topic| ==>
         topic[i].ingestedMs + setup.toleranceMs <= clocks[i] + MAX_FUTURE_SKEW_MS
  }

  /** Of what ingestion stored, Job 1 passes on everything whose id is not blank. */
  lemma {:induction false} Job1Accepts(setup: Setup, topic: seq<Message>, clocks: seq<int>, id: string)
    requires ClocksAgree(setup, topic, clocks)
    requires forall m :: m in topic ==> Checked(setup, m)
    ensures OfId(Job1(setup.codec, topic, clocks), id) == if IsBlank(id) then [] else OfId(Events(topic), id)
    decreases |topic|
  {
    if topic != [] {
      var m := Last(topic);
      assert m in topic && forall d :: d in DropLast(topic) ==> d in topic;
      Job1Accepts(setup, DropLast(topic), DropLast(clocks), id);
      assert Checked(setup, m);
      IngestedIsAcceptedIff(setup.codec, m.event, m.ingestedMs, setup.toleranceMs, Last(clocks));
      OfIdSnoc(Job1(setup.codec, DropLast(topic), DropLast(clocks)), m.event, id);
      OfIdSnoc(Events(DropLast(topic)), m.event, id);
    }
  }

  lemma {:induction false} OfKeyIsOfId(c: Codec, job: Operator<NormalizedEvent>, es: seq<UsgsEvent>, id: string)
    requires KeyedBySource(job)
    ensures OfKey(OnRaw(c, job), es, KeyOf(id)) == OfId(es, id)
    decreases |es|
  {
    if es != [] {
      OfKeyIsOfId(c, job, DropLast(es), id);
      assert OnRaw(c, job).key(Last(es)) == KeyOf(Last(es).sourceEventId);
      KeyOfInjective(Last(es).sourceEventId, id);
    }
  }

  lemma KeyOfInjective(id: string, id': string)
    ensures KeyOf(id) == KeyOf(id') <==> id == id'
  {
    assert id == KeyOf(id)[|SOURCE| + 1..] && id' == KeyOf(id')[|SOURCE| + 1..];
  }

  // ---------------------------------------------------------------------------
  // Versions that only move forward

  /** Later sightings are not older, and one update time names one version. */
  predicate MovesForward(es: seq<UsgsEvent>) {
    forall i, j :: 0 <= i < j < |es| ==>
      && es[i].updatedMs <= es[j].updatedMs
      && (es[i].updatedMs == es[j].updatedMs ==> es[i] == es[j])
  }

  predicate Increasing(es: seq<UsgsEvent>) {
    forall i, j :: 0 <= i < j < |es| ==> es[i].updatedMs < es[j].updatedMs
  }

  lemma ForwardPrefix(es: seq<UsgsEvent>)
    requires es != [] && MovesForward(es)
    ensures MovesForward(DropLast(es))
    ensures forall e :: e in DropLast(es) ==>
              e.updatedMs <= Last(es).updatedMs && (e.updatedMs == Last(es).updatedMs ==> e == Last(es))
  {
  }

  /** A version seen before and seen again now was also the one seen in between. */
  lemma ForwardRepeat(es: seq<UsgsEvent>)
    requires es != [] && MovesForward(es)
    ensures Last(es) in DropLast(es) ==> Last(DropLast(es)) == Last(es)
  {
    if Last(es) in DropLast(es) {
      var i :| 0 <= i < |es| - 1 && es[i] == Last(es);
      assert es[i].updatedMs <= es[|es| - 2].updatedMs <= Last(es).updatedMs;
    }
  }

  lemma {:induction false} SubseqMovesForward(a: seq<UsgsEvent>, b: seq<UsgsEvent>)
    requires Subseq(a, b) && MovesForward(b)
    ensures MovesForward(a)
    decreases |b|
  {
    if a != [] {
      ForwardPrefix(b);
      if Subseq(a, DropLast(b)) {
        SubseqMovesForward(a, DropLast(b));
      } else {
        SubseqMovesForward(DropLast(a), DropLast(b));
        forall i | 0 <= i < |a| - 1
          ensures a[i].updatedMs <= Last(a).updatedMs && (a[i].updatedMs == Last(a).updatedMs ==> a[i] == Last(a))
        {
          assert a[i] in DropLast(a);
          SubseqMember(DropLast(a), DropLast(b), a[i]);
        }
      }
    }
  }

  lemma IncreasingAppend(es: seq<UsgsEvent>, e: UsgsEvent)
    requires Increasing(es) && forall d :: d in es ==> d.updatedMs < e.updatedMs
    ensures Increasing(es + [e])
  {
  }

  /** What is kept before a version with new content is older than that version. */
  lemma CollapsedIsEarlier(op: Operator<UsgsEvent>, es: seq<UsgsEvent>)
    requires es != [] && MovesForward(es)
    requires DropLast(es) == [] || Last(DropLast(es)) != Last(es)
    ensures forall d :: d in Collapse(op, DropLast(es)) ==> d.updatedMs < Last(es).updatedMs
  {
    ForwardPrefix(es);
    ForwardRepeat(es);
    forall d | d in Collapse(op, DropLast(es))
      ensures d in DropLast(es)
    {
      CollapseIsSubseq(op, DropLast(es));
      SubseqMember(Collapse(op, DropLast(es)), DropLast(es), d);
    }
  }

  /** Collapsing versions that move forward leaves each version at most once. */
  lemma {:induction false} CollapseIncreases(op: Operator<UsgsEvent>, es: seq<UsgsEvent>)
    requires MovesForward(es)
    ensures Increasing(Collapse(op, es))
    decreases |es|
  {
    if es != [] {
      assert MovesForward(DropLast(es)) by {
        ForwardPrefix(es);
      }
      CollapseIncreases(op, DropLast(es));
      if !(|es| > 1 && op.hash(es[|es| - 2]) == op.hash(Last(es))) {
        CollapsedIsEarlier(op, es);
        IncreasingAppend(Collapse(op, DropLast(es)), Last(es));
      }
    }
  }

  // ---------------------------------------------------------------------------
  // Effectively once

  /** The events Job 2 is expected to emit for an id: what the topic holds, runs of equal content collapsed. */
  function Expected(setup: Setup, job: Operator<NormalizedEvent>, topic: seq<Message>, id: string)
    : seq<UsgsEvent>
  {
    Collapse(OnRaw(setup.codec, job), OfId(Events(topic), id))
  }

  /**
   * Job 1 and Job 2 at work on a topic: the clock Job 1 reads for each message, and the processing
   * time Job 2 reads for each event it receives.
   */
  datatype Downstream = Downstream(
    job: Operator<NormalizedEvent>, clocks: seq<int>, sightings: seq<Sighting<UsgsEvent>>)
  {
    /**
     * The clocks agree, and Job 2 receives the events of `id` that Job 1 passes on, in their order. Topics
     * are partitioned by id, so how events of other ids lie between is open.
     */
    ghost predicate Consumes(setup: Setup, topic: seq<Message>, id: string) {
      && ClocksAgree(setup, topic, clocks)
      && OfId(Records(sightings), id) == OfId(Job1(setup.codec, topic, clocks), id)
    }

    /** The clocks agree, and Job 2 receives each event of `id` that Job 1 passes on, however often. */
    ghost predicate Receives(setup: Setup, topic: seq<Message>, id: string) {
      && ClocksAgree(setup, topic, clocks)
      && forall e :: e in Job1(setup.codec, topic, clocks) && e.sourceEventId == id ==> e in Records(sightings)
    }

    /** What Job 2 reads, with the times it reads it at. */
    function Input(setup: Setup): seq<Sighting<NormalizedEvent>> {
      MapSightings(Canonical(setup.codec), sightings)
    }

    /** No event of `id` repeats the content before it after Job 2's entry expired. */
    predicate NothingLate(setup: Setup, id: string) {
      InTime(job, Input(setup), KeyOf(id))
    }

    /** What Job 2 emits for one id. */
    function Output(setup: Setup, id: string): seq<NormalizedEvent> {
      OfKey(job, Emitted(job, Input(setup)), KeyOf(id))
    }
  }

  /** The per-id output of the pipeline is the collapsed topic, exactly when nothing of that id comes late. */
  lemma {:induction false} OutputIsExpectedIff(setup: Setup, topic: seq<Message>, d: Downstream, id: string)
    requires forall m :: m in topic ==> Checked(setup, m)
    requires KeyedBySource(d.job) && d.Consumes(setup, topic, id) && !IsBlank(id)
    ensures d.Output(setup, id) == MapAll(Canonical(setup.codec), Expected(setup, d.job, topic, id))
            <==> d.NothingLate(setup, id)
  {
    var f, job, raw := Canonical(setup.codec), d.job, OnRaw(setup.codec, d.job);
    EmittedThrough(job, f, d.sightings);
    OfKeyThrough(job, f, Emitted(raw, d.sightings), KeyOf(id));
    InTimeThrough(job, f, d.sightings, KeyOf(id));
    OutputAgainstCollapsed(raw, d.sightings, KeyOf(id));
    OfKeyIsOfId(setup.codec, d.job, Records(d.sightings), id);
    Job1Accepts(setup, topic, d.clocks, id);
  }

  /**
   * Effectively once. Take any state a run of polls can reach, with crashes at any step, stored but
   * unconfirmed messages and expired markers, and let Job 1 and Job 2 process the topic. For every id of
   * which nothing comes late to Job 2, the output is, in order, some of the versions the polls saw, no
   * two adjacent ones with equal content; and if the versions only move forward, no version appears twice.
   */
  lemma {:induction false} EffectivelyOnce(setup: Setup, s: Sys, d: Downstream, id: string)
    requires Reachable(setup, s)
    requires KeyedBySource(d.job) && d.Consumes(setup, s.topic, id) && !IsBlank(id)
    requires d.NothingLate(setup, id)
    ensures var versions := Expected(setup, d.job, s.topic, id);
            && d.Output(setup, id) == MapAll(Canonical(setup.codec), versions)
            && Subseq(versions, OfId(s.saw, id))
            && NoAdjacentRepeats(d.job, d.Output(setup, id))
            && (MovesForward(OfId(s.saw, id)) ==> Increasing(versions))
  {
    ReachableIsChecked(setup, s);
    OutputIsExpectedIff(setup, s.topic, d, id);
    TopicIsOrdered(setup, s, id);
    CollapsedSubseq(OnRaw(setup.codec, d.job), OfId(Events(s.topic), id), OfId(s.saw, id));
    NoRepeatEmittedIff(d.job, d.Input(setup), KeyOf(id));
  }

  lemma {:induction false} CollapsedSubseq(raw: Operator<UsgsEvent>, stored: seq<UsgsEvent>, saw: seq<UsgsEvent>)
    requires Subseq(stored, saw)
    ensures Subseq(Collapse(raw, stored), saw)
    ensures MovesForward(saw) ==> Increasing(Collapse(raw, stored))
  {
    CollapseIsSubseq(raw, stored);
    SubseqTrans(Collapse(raw, stored), stored, saw);
    if MovesForward(saw) {
      SubseqMovesForward(stored, saw);
      CollapseIncreases(raw, stored);
    }
  }

  lemma CleanlyReachableIsReachable(setup: Setup, s: Sys)
    requires CleanlyReachable(setup, s)
    ensures Reachable(setup, s)
  {
  }

  lemma {:induction false} Job1Keeps(setup: Setup, topic: seq<Message>, clocks: seq<int>, e: UsgsEvent)
    requires ClocksAgree(setup, topic, clocks)
    requires forall m :: m in topic ==> Checked(setup, m)
    requires InTopic(topic, e) && !IsBlank(e.sourceEventId)
    ensures e in Job1(setup.codec, topic, clocks)
    decreases |topic|
  {
    var m := Last(topic);
    assert m in topic && forall d :: d in DropLast(topic) ==> d in topic;
    assert Checked(setup, m);
    IngestedIsAcceptedIff(setup.codec, m.event, m.ingestedMs, setup.toleranceMs, Last(clocks));
    if m.event != e {
      var d :| d in topic && d.event == e;
      assert d in DropLast(topic);
      Job1Keeps(setup, DropLast(topic), DropLast(clocks), e);
    }
  }

  /** What a clean run recorded is in the topic, and Job 1 passes it on. */
  lemma {:induction false} RecordedIsPassedOn(setup: Setup, s: Sys, clocks: seq<int>, e: UsgsEvent)
    requires CleanlyReachable(setup, s) && e in s.recorded && !IsBlank(e.sourceEventId)
    requires ClocksAgree(setup, s.topic, clocks)
    ensures e in Job1(setup.codec, s.topic, clocks)
  {
    CleanlyReachableIsReachable(setup, s);
    ReachableIsChecked(setup, s);
    ReachableIsSafe(setup, s);
    Job1Keeps(setup, s.topic, clocks, e);
  }

  /** The content of every event Job 2 reads is among what it emits for its id, at any times. */
  lemma {:induction false} ReadIsEmitted(setup: Setup, d: Downstream, e: UsgsEvent) returns (i: nat)
    requires KeyedBySource(d.job) && e in Records(d.sightings)
    ensures i < |d.Output(setup, e.sourceEventId)|
    ensures d.job.hash(d.Output(setup, e.sourceEventId)[i]) == d.job.hash(Canonicalize(setup.codec, e))
  {
    var k: nat :| k < |d.sightings| && Records(d.sightings)[k] == e;
    var input := d.Input(setup);
    assert input[k].record == Canonicalize(setup.codec, e);
    EveryContentIsEmitted(d.job, input, k);
    var n :| && n in Emitted(d.job, input) && d.job.key(n) == d.job.key(input[k].record)
             && d.job.hash(n) == d.job.hash(input[k].record);
    OfKeyHolds(d.job, Emitted(d.job, input), n);
    assert d.job.key(n) == KeyOf(e.sourceEventId);
    var out := d.Output(setup, e.sourceEventId);
    i :| i < |out| && out[i] == n;
  }

  /**
   * Nothing confirmed is lost, whatever expires and however often Job 1 repeats: the content of every
   * version a clean run recorded is in the output.
   */
  lemma {:induction false} ConfirmedIsEmitted(setup: Setup, s: Sys, d: Downstream, e: UsgsEvent)
    requires CleanlyReachable(setup, s) && e in s.recorded
    requires KeyedBySource(d.job) && d.Receives(setup, s.topic, e.sourceEventId) && !IsBlank(e.sourceEventId)
    ensures exists n :: && n in d.Output(setup, e.sourceEventId)
                        && d.job.hash(n) == d.job.hash(Canonicalize(setup.codec, e))
  {
    RecordedIsPassedOn(setup, s, d.clocks, e);
    var i := ReadIsEmitted(setup, d, e);
    assert d.Output(setup, e.sourceEventId)[i] in d.Output(setup, e.sourceEventId);
  }

  /** The event's numbers are in `nums`, and the text its content is hashed from is in `texts`. */
  ghost predicate Hashable(c: Codec, fmt: PayloadHash.Format, nums: iset<real>, texts: iset<string>, e: UsgsEvent) {
    e.NumbersIn(nums) && PayloadHash.Canonical(fmt, Canonicalize(c, e).content) in texts
  }

  /** Where the digest does not collide, equal hashes of ingested events are equal contents as read back. */
  lemma {:induction false} EqualHashIsEqualContent(
      c: Codec, fmt: PayloadHash.Format, nums: iset<real>, texts: iset<string>, d: UsgsEvent, e: UsgsEvent)
    requires fmt.Valid(nums) && fmt.CollisionFree(texts)
    requires Hashable(c, fmt, nums, texts, d) && Hashable(c, fmt, nums, texts, e)
    ensures PayloadHash.Of(fmt, Canonicalize(c, d).content) == PayloadHash.Of(fmt, Canonicalize(c, e).content)
            <==> PayloadHash.Reading(Canonicalize(c, d).content) == PayloadHash.Reading(Canonicalize(c, e).content)
  {
    CanonicalContentIsWellFormed(c, d);
    CanonicalContentIsWellFormed(c, e);
    PayloadHash.HashEqualIff(fmt, nums, texts, Canonicalize(c, d).content, Canonicalize(c, e).content);
  }

  /** The content Job 2 reacts to, as the content signature determines it. */
  function ContentOf(n: NormalizedEvent): PayloadHash.Content {
    PayloadHash.Reading(n.content)
  }

  /** What Job 2 outputs for an id is the canonical form of an event it read. */
  lemma {:induction false} OutputIsRead(setup: Setup, d: Downstream, id: string, n: NormalizedEvent)
    requires n in d.Output(setup, id)
    ensures exists e :: e in Records(d.sightings) && n == Canonicalize(setup.codec, e)
  {
    var k := EmittedIsRead(d.job, d.Input(setup), KeyOf(id), n);
    assert Records(d.sightings)[k] in Records(d.sightings);
  }

  /** Job 2 with its own key and hash, on events whose contents it can tell apart. */
  ghost predicate TellsApart(
      setup: Setup, d: Downstream, fmt: PayloadHash.Format, nums: iset<real>, texts: iset<string>)
  {
    && fmt.Valid(nums) && fmt.CollisionFree(texts)
    && (exists ttlMs :: d.job == DeduplicateFunction.Job2(fmt, ttlMs))
    && forall e :: e in Records(d.sightings) ==> Hashable(setup.codec, fmt, nums, texts, e)
  }

  /** The hash Job 2 compares distinguishes exactly the contents, for records of events it read. */
  lemma {:induction false} HashIsContent(
      setup: Setup, d: Downstream, fmt: PayloadHash.Format, nums: iset<real>, texts: iset<string>,
      m: NormalizedEvent, n: NormalizedEvent)
    requires TellsApart(setup, d, fmt, nums, texts)
    requires exists e :: e in Records(d.sightings) && m == Canonicalize(setup.codec, e)
    requires exists e :: e in Records(d.sightings) && n == Canonicalize(setup.codec, e)
    ensures d.job.hash(m) == d.job.hash(n) <==> ContentOf(m) == ContentOf(n)
  {
    var a :| a in Records(d.sightings) && m == Canonicalize(setup.codec, a);
    var b :| b in Records(d.sightings) && n == Canonicalize(setup.codec, b);
    EqualHashIsEqualContent(setup.codec, fmt, nums, texts, a, b);
  }

  lemma OutputHashIsContent(
      setup: Setup, d: Downstream, fmt: PayloadHash.Format, nums: iset<real>, texts: iset<string>, id: string,
      m: NormalizedEvent, n: NormalizedEvent)
    requires TellsApart(setup, d, fmt, nums, texts) && m in d.Output(setup, id) && n in d.Output(setup, id)
    ensures d.job.hash(m) == d.job.hash(n) <==> ContentOf(m) == ContentOf(n)
  {
    OutputIsRead(setup, d, id, m);
    OutputIsRead(setup, d, id, n);
    HashIsContent(setup, d, fmt, nums, texts, m, n);
  }

  lemma TellsApartByKey(setup: Setup, d: Downstream, fmt: PayloadHash.Format, nums: iset<real>, texts: iset<string>)
    requires TellsApart(setup, d, fmt, nums, texts)
    ensures KeyedBySource(d.job)
  {
    var ttlMs :| d.job == DeduplicateFunction.Job2(fmt, ttlMs);
    Job2IsKeyedBySource(fmt, ttlMs);
  }

  lemma RepeatsByContent(job: Operator<NormalizedEvent>, out: seq<NormalizedEvent>)
    requires forall m, n :: m in out && n in out ==> (job.hash(m) == job.hash(n) <==> ContentOf(m) == ContentOf(n))
    ensures NoAdjacentRepeats(job, out) <==> forall i :: 0 < i < |out| ==> ContentOf(out[i - 1]) != ContentOf(out[i])
  {
    forall i | 0 < i < |out|
      ensures job.hash(out[i - 1]) == job.hash(out[i]) <==> ContentOf(out[i - 1]) == ContentOf(out[i])
    {
      assert out[i - 1] in out && out[i] in out;
    }
  }

  /**
   * Job 2 itself, in terms of contents: no two adjacent outputs of an id have the same content, exactly
   * when nothing of that id comes late.
   */
  lemma {:induction false} AdjacentContentsDifferIff(
      setup: Setup, d: Downstream, fmt: PayloadHash.Format, nums: iset<real>, texts: iset<string>, id: string)
    requires TellsApart(setup, d, fmt, nums, texts)
    ensures var out := d.Output(setup, id);
            (forall i :: 0 < i < |out| ==> ContentOf(out[i - 1]) != ContentOf(out[i])) <==> d.NothingLate(setup, id)
  {
    var out := d.Output(setup, id);
    forall m, n | m in out && n in out
      ensures d.job.hash(m) == d.job.hash(n) <==> ContentOf(m) == ContentOf(n)
    {
      OutputHashIsContent(setup, d, fmt, nums, texts, id, m, n);
    }
    RepeatsByContent(d.job, out);
    NoRepeatEmittedIff(d.job, d.Input(setup), KeyOf(id));
  }

  /** The content of every version a clean run recorded is among Job 2's outputs for its id, whatever expires. */
  lemma {:induction false} ConfirmedContentIsOutput(
      setup: Setup, s: Sys, d: Downstream, fmt: PayloadHash.Format, nums: iset<real>, texts: iset<string>,
      e: UsgsEvent) returns (i: nat)
    requires CleanlyReachable(setup, s) && e in s.recorded && !IsBlank(e.sourceEventId)
    requires TellsApart(setup, d, fmt, nums, texts) && d.Receives(setup, s.topic, e.sourceEventId)
    ensures i < |d.Output(setup, e.sourceEventId)|
    ensures ContentOf(d.Output(setup, e.sourceEventId)[i]) == ContentOf(Canonicalize(setup.codec, e))
  {
    TellsApartByKey(setup, d, fmt, nums, texts);
    RecordedIsPassedOn(setup, s, d.clocks, e);
    i := ReadIsEmitted(setup, d, e);
    OutputIsRead(setup, d, e.sourceEventId, d.Output(setup, e.sourceEventId)[i]);
    HashIsContent(setup, d, fmt, nums, texts, d.Output(setup, e.sourceEventId)[i], Canonicalize(setup.codec, e));
  }

  /**
   * At least once, whatever fails. Polls may crash at any step and Job 2 may crash and restart from
   * its checkpoint any number of times, losing unflushed output, and its entries may expire: once it
   * has read the whole of a log that holds what Job 1 passes on of an id, however often, among whatever
   * else its partition holds, the content of every version of that id that a clean run of polls recorded
   * is in its output.
   */
  lemma {:induction false} ConfirmedSurvivesRestarts(
      setup: Setup, s: Sys, job: Operator<NormalizedEvent>, log: seq<UsgsEvent>, clocks: seq<int>,
      j: DedupRecovery.Job, e: UsgsEvent)
    requires CleanlyReachable(setup, s) && e in s.recorded && !IsBlank(e.sourceEventId)
    requires ClocksAgree(setup, s.topic, clocks)
    requires forall d :: d in Job1(setup.codec, s.topic, clocks) && d.sourceEventId == e.sourceEventId ==> d in log
    requires KeyedBySource(job) && DedupRecovery.Reachable(OnRaw(setup.codec, job), log, j) && j.offset == |log|
    ensures exists p: nat :: && p in DedupRecovery.Output(j) && p < |log|
                             && log[p].sourceEventId == e.sourceEventId
                             && job.hash(Canonicalize(setup.codec, log[p])) == job.hash(Canonicalize(setup.codec, e))
  {
    RecordedIsPassedOn(setup, s, clocks, e);
    var i: nat :| i < |log| && log[i] == e;
    var op := OnRaw(setup.codec, job);
    DedupRecovery.EveryContentIsOutput(op, log, j, i);
    var p: nat :| p in DedupRecovery.Output(j) && p < |log|
                  && op.key(log[p]) == op.key(e) && op.hash(log[p]) == op.hash(e);
    assert op.key(log[p]) == KeyOf(log[p].sourceEventId) && op.key(e) == KeyOf(e.sourceEventId);
    KeyOfInjective(log[p].sourceEventId, e.sourceEventId);
  }
}
