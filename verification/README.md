# SentinelChain: idempotency, recovery and load, proved

A Dafny 4.11 model of SentinelChain's at-least-once pipeline. It follows an earthquake report from the
USGS feed to the impact candidates, and proves what the pipeline promises when things fail.

- **Ingestion** (`UsgsEvents`, `CommitProtocol`, `CommitHistory`, `Poller`, `PollOutcome`,
  `PollQuiescence`). The commit protocol is a step machine: each write to the broker, the marker store and
  the cursor is one step, the broker acts between any two, and the process may crash or abandon a poll at
  any point. The poll loop is a class whose methods are proved to be runs of that machine; `PollOutcome`
  says what a poll leaves, given what the broker did.
- **Job 1** (`Normalizer`) and **Job 2** (`PayloadHash`, `Deduplication`, `DeduplicateFunction`,
  `DedupRecovery`). The keyed deduplicator is proved equal to a stateless rule; a second machine adds
  checkpoints, crashes and lost output. `EndToEnd` composes ingestion, Job 1 and Job 2.
- **Job 4** (`FacilityState`, `GeoCorrelation`, `Haversine`). The broadcast facility map, its convergence
  under interleaving and log compaction, and the exact candidates of each event.
- **Resilience** (`Retry`, `CircuitBreaker`, `UsgsClient`). The retry loop, the breaker under overlapping
  calls, and the bound on upstream load in an outage.
- **Simulator** (`Simulator`). Stock with rounding, and the shipment lifecycle.

`Sequences` and `RealArithmetic` hold shared facts. `dafny verify dfyconfig.toml` checks everything.

What the code cannot see is a parameter: SHA-256, number, ISO-time and JSON rendering, sine, cosine, square
root and arctangent, clocks, random draws, the broker's behaviour and the feed. Where a proof needs more than
that such a function exists, the need is written out as a predicate (`Codec.Faithful`, `Format.Valid`,
`Format.CollisionFree`, `Maths.Valid`). The first three take the numbers, events or texts at hand as a
parameter: a rendering must tell those apart, not every real number. `Renderings` gives renderings that do, on
the numbers with at most four decimals.

## Where code and documentation differ

The model follows the code.

- `docs/data-contracts/events-deduplicated.md` says a replay after a restart is still dropped. The operator
  compares with the latest content only: `ReplayIsSilentIff` says exactly which replays are silent.
- The producer's module comment says delivery is tracked per message. It is tracked per id:
  `ConfirmationIsExactIff` says which flushes confirm rightly all the same, and `CarryOverConfirmsUnstored` is
  a run that goes wrong.
- `parse_feed` is documented not to drop a whole batch for one bad feature. A date outside the range of
  `datetime` raises an exception `parse_feed` does not catch, which does: `ParseFeed`, `DateFailureIff`,
  `BadDateStopsTheFeed`.
- The breaker is documented to allow a trial call when half open. It allows any number of overlapping ones:
  `OverlappingCallsAllRun`.
- The current-state topics are documented to let a job rebuild its state from the compacted log. A job that
  pauses while the log is compacted can miss a delete: `OvertakenReaderConvergesIff`, `PausedReaderMissesDelete`.
- Ingestion rejects an empty id, Job 1 a blank one: `IngestedIsAcceptedIff`.
- The cursor is not always the latest recorded update time after a crash: `CursorExactIff` says exactly when it
  is, and `CrashLosesCursor` is a run after which it is not.

## Model

| member | source | states |
|---|---|---|
| EndToEnd.EffectivelyOnce | services/ingestion-usgs/src/ingestion_usgs/poller.py:84-117 | for every run of polls with crashes between any two writes, unconfirmed stores and expired markers, and Job 2 reading in any order that keeps each id's order, the deduplicated output of each id of which nothing repeats an expired entry is an in-order subsequence of the versions the polls saw, has no two adjacent equal contents, and, when versions only move forward, holds each version at most once |
| EndToEnd.ConfirmedIsEmitted | services/ingestion-usgs/src/ingestion_usgs/poller.py:108-112 | every version whose marker a clean run recorded has its hash in the deduplicated output, in whatever order, at whatever times and however often Job 2 receives what Job 1 passes on |
| EndToEnd.ConfirmedContentIsOutput | flink/jobs/event-deduplicator/src/main/java/com/sentinelchain/flink/deduplicator/DeduplicatorJob.java:72-86 | the same for Job 2 with its own key and hash: the content itself, as the signature determines it, is in the output, whatever expires |
| EndToEnd.AdjacentContentsDifferIff | flink/jobs/event-deduplicator/src/main/java/com/sentinelchain/flink/deduplicator/DeduplicateFunction.java:43-85 | for Job 2 with its own key and hash, no two adjacent outputs of an id have the same content, exactly when no event of the id repeats the content before it after its entry expired |
| EndToEnd.ConfirmedSurvivesRestarts | flink/jobs/event-deduplicator/src/main/java/com/sentinelchain/flink/deduplicator/DeduplicateFunction.java:59-91 | the same when Job 2, reading a log that holds what Job 1 passes on of the id, however often, crashes and restores from its checkpoint any number of times, loses unflushed output and lets entries expire |
| EndToEnd.OutputIsExpectedIff | flink/jobs/event-deduplicator/src/main/java/com/sentinelchain/flink/deduplicator/DeduplicatorJob.java:72-78 | polls, Job 1 and Job 2 composed, with only the order within each id kept between the jobs: per id the output equals the topic with runs of equal content collapsed, exactly when no event of the id repeats the content before it after its entry expired |
| EndToEnd.Job1Accepts | flink/jobs/external-event-normalizer/src/main/java/com/sentinelchain/flink/normalizer/UsgsNormalization.java:31-62 | of the stored topic Job 1 passes exactly the events whose id is not blank, in order, if its clock lags by at most the difference of the two tolerances |
| EndToEnd.CollapseIncreases | flink/jobs/event-deduplicator/src/main/java/com/sentinelchain/flink/deduplicator/Deduplication.java:29-34 | collapsing a stream of versions that only move forward leaves strictly increasing update times |
| EndToEnd.EqualHashIsEqualContent | flink/jobs/event-deduplicator/src/main/java/com/sentinelchain/flink/deduplicator/PayloadHash.java:26-41 | for ingested events among which the digest does not collide, equal content hashes mean equal contents as read back, and conversely |
| EndToEnd.Job2DropsWithin | flink/jobs/event-deduplicator/src/main/java/com/sentinelchain/flink/deduplicator/DeduplicateFunction.java:43-49 | of two records with the same source, id and content hash the second is dropped exactly when it comes less than the time to live after the first; anything else passes |
| CommitProtocol.MarkersBelongToStoredVersions | services/ingestion-usgs/src/ingestion_usgs/poller.py:108-112 | over all runs with crashes anywhere in which each flush starts in a state that cannot confirm wrongly, a stored marker is that of an acknowledged version, and that version is in the topic |
| CommitProtocol.CleanRunIsSafe | services/ingestion-usgs/src/ingestion_usgs/poller.py:104-118 | inductive invariant of the step machine: acknowledged events are stored, everything about to be confirmed is acknowledged, everything recorded is acknowledged |
| CommitProtocol.UnackedIsSentAgain | services/ingestion-usgs/src/ingestion_usgs/poller.py:91-99 | a valid event that was never acknowledged, and that its marker tells from the acknowledged ones, is sent again by whichever poll meets it next |
| CommitProtocol.ExpiredIsSentAgain | services/ingestion-usgs/src/ingestion_usgs/poller.py:91-99 | a valid event whose marker expired is sent again by the poll that meets it |
| CommitProtocol.Interruptions | services/ingestion-usgs/src/ingestion_usgs/poller.py:57-72 | a crash can come in any state, an exception in any scan or commit, an expiry at any time; each loses exactly the queue, the poll or the marker |
| CommitProtocol.OnlyScansSee | services/ingestion-usgs/src/ingestion_usgs/poller.py:84-99 | the history of events seen grows by exactly the scanned events that pass the checks, duplicates included |
| CommitProtocol.ConfirmationIsExactIff | services/ingestion-usgs/src/ingestion_usgs/producer.py:38-45 | of the states a flush starts in: every way the broker can store, acknowledge and fail messages confirms acknowledged events only, exactly when each pending event is acknowledged already or no other version of its id is queued |
| CommitProtocol.DisciplinedRunIsClean | services/ingestion-usgs/src/ingestion_usgs/producer.py:92-102 | distinct ids per feed and an empty queue at the start of each poll make every flush clean |
| CommitProtocol.CarryOverConfirmsUnstored | services/ingestion-usgs/src/ingestion_usgs/producer.py:99-102 | a run with a message carried over records the marker of a version the broker never stored |
| CommitHistory.TopicIsOrdered | services/ingestion-usgs/src/ingestion_usgs/producer.py:47-63 | over every run, the topic holds for each id a subsequence of the versions polls saw, in that order |
| CommitHistory.TopicIsChecked | services/ingestion-usgs/src/ingestion_usgs/poller.py:84-96 | everything queued or stored passed the quality checks at the time it was sent |
| CommitHistory.CursorNeverDecreases | services/ingestion-usgs/src/ingestion_usgs/poller.py:107-117 | the cursor never goes back in any run, crashes included |
| CommitHistory.CursorIsLatestRecorded | services/ingestion-usgs/src/ingestion_usgs/poller.py:107-117 | the cursor is at most the latest update time ever recorded, and equal to it between polls of an uninterrupted run |
| CommitHistory.CursorIsLatestKept | services/ingestion-usgs/src/ingestion_usgs/poller.py:107-117 | after every run, with any interruptions: the cursor is the latest update time among the events whose poll reached its cursor write, the running maximum adds those of the poll in progress, and every recorded event is one of these or was lost to an interruption |
| CommitHistory.CursorExactIff | services/ingestion-usgs/src/ingestion_usgs/poller.py:107-117 | after every run, with any interruptions: the cursor is the latest recorded update time exactly when no event whose poll was interrupted before its cursor write is later than all others |
| CommitHistory.CrashLosesCursor | services/ingestion-usgs/src/ingestion_usgs/poller.py:110-117 | a run with a crash between marker and cursor write after which an undisturbed poll leaves the cursor earlier than the latest recorded time |
| Poller.Poller.Process | services/ingestion-usgs/src/ingestion_usgs/poller.py:67-128 | one poll is an undisturbed run of the commit protocol, and `IsPoll`: queue, topic, markers, cursor, audit records and all five counters are what the stored markers and the broker script call for |
| Poller.Poller.PollOnce | services/ingestion-usgs/src/ingestion_usgs/poller.py:57-72 | a failed fetch or parse changes nothing; otherwise one whole poll runs on the parsed events, with the same account of stores, audits and counters as `Process` |
| Poller.Poller.ScanFeed | services/ingestion-usgs/src/ingestion_usgs/poller.py:84-99 | sends, in feed order, exactly the valid events whose stored marker does not match, audits exactly the invalid ones; invalid, duplicate and pending add up |
| Poller.Poller.CommitPending | services/ingestion-usgs/src/ingestion_usgs/poller.py:107-117 | records exactly the delivered pending events in order, then the cursor, as protocol steps |
| Poller.RawEventProducer.FlushAndConfirm | services/ingestion-usgs/src/ingestion_usgs/producer.py:92-102 | the flush leaves queue and topic as the broker script does, step by step, and is a run of the protocol; the delivered ids are handed out and reset, and what remains counts the messages of both topics |
| Poller.ActIsStep | services/ingestion-usgs/src/ingestion_usgs/producer.py:38-45 | what the broker does to the producer is what the protocol's steps do: possible in one exactly when possible in the other, with the same queue, topic and delivered ids |
| Poller.RawEventProducer.OnDelivery | services/ingestion-usgs/src/ingestion_usgs/producer.py:38-45 | only a delivery without error adds the id |
| Poller.RawEventProducer.ProduceEvent | services/ingestion-usgs/src/ingestion_usgs/producer.py:47-63 | appends the event, unstored, at the end of the queue |
| Poller.RawEventProducer.ProduceDataQuality | services/ingestion-usgs/src/ingestion_usgs/producer.py:65-90 | queues one audit record with its id, its reasons and the payload, and touches nothing else |
| Poller.CursorStore.SeenMarker | services/ingestion-usgs/src/ingestion_usgs/cursor.py:63-64 | the stored marker of an id, if any |
| Poller.CursorStore.Record | services/ingestion-usgs/src/ingestion_usgs/cursor.py:66-67 | overwrites the marker of one id and no other |
| Poller.CursorStore.SetCursorMs | services/ingestion-usgs/src/ingestion_usgs/cursor.py:72-73 | overwrites the cursor and no marker |
| PollQuiescence.SettledIff | services/ingestion-usgs/src/ingestion_usgs/poller.py:84-112 | after a fully acknowledged poll every accepted event counts as a duplicate exactly when the feed does not hold two accepted versions of one id |
| PollQuiescence.DistinctFeedStaysQuiet | services/ingestion-usgs/src/ingestion_usgs/poller.py:84-112 | with distinct ids, no later poll of the feed sends anything the fully acknowledged poll accepted, only what has become acceptable since |
| PollQuiescence.LaterPollsAreQuietIff | services/ingestion-usgs/src/ingestion_usgs/poller.py:84-112 | after a fully acknowledged poll, no later poll of the same feed, after any number of polls at any times and with any acknowledgements, sends an event it accepted: exactly when no version of its id that the feed can ever send has another marker |
| PollOutcome.AnsweredPoll | services/ingestion-usgs/src/ingestion_usgs/poller.py:104-118 | a poll whose flush stores and acknowledges everything leaves no event queued, has all it sent in the topic, records the marker of each, counts each as produced and moves the cursor |
| PollOutcome.UnansweredPoll | services/ingestion-usgs/src/ingestion_usgs/poller.py:104-118 | a poll whose flush gets no answer changes no marker, cursor or topic and leaves what it sent queued |
| PollOutcome.IdlePoll | services/ingestion-usgs/src/ingestion_usgs/poller.py:104-118 | a poll with nothing to send and nothing to turn away leaves every store as it is and counts all its events as duplicates |
| PollOutcome.PollAccount | services/ingestion-usgs/src/ingestion_usgs/poller.py:74-106 | whatever the broker does: all five counters, the audit records written, and the audit queue a poll leaves |
| PollOutcome.SentInOrder | services/ingestion-usgs/src/ingestion_usgs/poller.py:84-99 | a poll sends the fresh events of its feed in feed order, each as often as the feed holds it |
| PollOutcome.ConfirmedInOrder | services/ingestion-usgs/src/ingestion_usgs/poller.py:108-112 | it confirms the pending events with a delivered id, in order, each as often as pending |
| PollOutcome.RecordedIsLast | services/ingestion-usgs/src/ingestion_usgs/poller.py:108-112 | of several confirmed versions of one id the marker of the last one stays |
| PollOutcome.FailedAreDropped | services/ingestion-usgs/src/ingestion_usgs/producer.py:38-45 | messages the broker fails leave the queue and hand out no id |
| PollOutcome.AuditAnswered | services/ingestion-usgs/src/ingestion_usgs/producer.py:92-102 | each answer for an audit message takes exactly that one off its queue |
| PollOutcome.EverythingAnswered | services/ingestion-usgs/src/ingestion_usgs/producer.py:92-102 | a broker that stores and acknowledges every queued message empties the queue, appends each to the topic once and hands out all ids |
| PollOutcome.DeliveredIsInTopic | services/ingestion-usgs/src/ingestion_usgs/producer.py:38-45 | whatever the broker does, an id is handed out as delivered only if the topic holds a message of it |
| PollOutcome.CommitLeaves | services/ingestion-usgs/src/ingestion_usgs/poller.py:107-117 | a commit marks each confirmed id as one of its confirmed events and no other id; the cursor never falls and is no earlier than any of them |
| PollOutcome.ParseAuditSays | services/ingestion-usgs/src/ingestion_usgs/poller.py:77-79 | one audit record per malformed feature, in order: its id where known, the problem, no payload |
| PollOutcome.EventAuditSays | services/ingestion-usgs/src/ingestion_usgs/poller.py:85-89 | one audit record per event that fails a check, in feed order: its id, its payload, and exactly the rules it breaks |
| UsgsEvents.ParseFeed | services/ingestion-usgs/src/ingestion_usgs/parser.py:143-163 | fails exactly when there is no feature array or some feature, told from its JSON, stops the feed; otherwise events and errors are those of the features in order, one each, and the documented features of any events with good ids and dates parse back to these events |
| UsgsEvents.DateFailureIff | services/ingestion-usgs/src/ingestion_usgs/parser.py:74-140 | a feature raises an exception `parse_feed` does not catch exactly when everything looked at before its dates is well shaped, its time is a number, and its time or update time is a number no `datetime` can hold |
| UsgsEvents.BadDateStopsTheFeed | services/ingestion-usgs/src/ingestion_usgs/parser.py:74-79 | among features that stop no feed, one more with any time is parsed along with them exactly when that time is in range |
| UsgsEvents.FeatureRoundTrip | services/ingestion-usgs/src/ingestion_usgs/parser.py:96-140 | an event is parsed back from its documented feature exactly when its dates are in range |
| UsgsEvents.FeedRoundTrip | services/ingestion-usgs/src/ingestion_usgs/parser.py:143-163 | the documented features of any events with ids and good dates parse to exactly these events in order, with no error |
| UsgsEvents.EventAt | services/ingestion-usgs/src/ingestion_usgs/parser.py:153-163 | the event of each feature that parses stands unchanged among the events, at the place given by the number of features before it that parse |
| UsgsEvents.ErrorAt | services/ingestion-usgs/src/ingestion_usgs/parser.py:153-163 | the same for the error of each malformed feature |
| UsgsEvents.EventsAreConserved | services/ingestion-usgs/src/ingestion_usgs/parser.py:153-163 | each event occurs as often as features parse to it |
| UsgsEvents.ErrorsAreConserved | services/ingestion-usgs/src/ingestion_usgs/parser.py:153-163 | each error occurs as often as features fail with it |
| UsgsEvents.ParsedFrom | services/ingestion-usgs/src/ingestion_usgs/parser.py:96-140 | every field of a parsed event comes from its own place in the JSON; texts of another type are none |
| UsgsEvents.MalformedNames | services/ingestion-usgs/src/ingestion_usgs/parser.py:96-140 | a parse error carries the feature's id where there is one and names the first thing that is wrong |
| UsgsEvents.NotANumberNames | services/ingestion-usgs/src/ingestion_usgs/parser.py:123-132 | of longitude, latitude, depth and magnitude the first that is not a number gives the error its field |
| UsgsEvents.DatetimeSpan | services/ingestion-usgs/src/ingestion_usgs/parser.py:74-79 | the accepted dates are those from the start of year 1 to the end of year 9999 of the Gregorian calendar |
| UsgsEvents.CheckEvent | services/ingestion-usgs/src/ingestion_usgs/quality.py:18-50 | lists exactly the rules the event breaks; empty exactly when it is acceptable |
| UsgsEvents.ReasonsInOrder | services/ingestion-usgs/src/ingestion_usgs/quality.py:33-48 | what it lists is in the order of the checks, each rule at most once |
| UsgsEvents.AcceptableIff | services/ingestion-usgs/src/ingestion_usgs/quality.py:18-50 | the checks in numbers: a non-empty id, coordinates on the globe, a magnitude from -2 to 12, and a time no later than now plus the tolerance |
| UsgsEvents.AcceptableLater | services/ingestion-usgs/src/ingestion_usgs/quality.py:47-48 | an accepted event stays acceptable as time passes |
| UsgsEvents.MarkerInjective | services/ingestion-usgs/src/ingestion_usgs/cursor.py:22-24 | a marker determines version and hash when the hash has no colon |
| UsgsEvents.MarkerIdentifiesEvent | services/ingestion-usgs/src/ingestion_usgs/parser.py:68-71 | among events that JSON and digest tell apart, two share a marker only if they are the same event |
| Normalizer.Validate | flink/jobs/external-event-normalizer/src/main/java/com/sentinelchain/flink/normalizer/UsgsNormalization.java:31-62 | lists exactly the rules the raw record violates; empty exactly when it is accepted |
| Normalizer.ViolationsInOrder | flink/jobs/external-event-normalizer/src/main/java/com/sentinelchain/flink/normalizer/UsgsNormalization.java:31-62 | what it lists is in the order of the checks, each rule at most once |
| Normalizer.IngestedIsAcceptedIff | flink/jobs/external-event-normalizer/src/main/java/com/sentinelchain/flink/normalizer/UsgsNormalization.java:34-59 | an event ingestion accepted is accepted by Job 1 exactly when its id is not blank |
| Normalizer.AcceptsIff | flink/jobs/external-event-normalizer/src/main/java/com/sentinelchain/flink/normalizer/UsgsNormalization.java:31-62 | the checks of Job 1 in numbers: a non-blank id, coordinates on the globe, a magnitude from -2 to 12 if there is one, a time no later than an hour from now |
| Normalizer.BlankMeaning | flink/jobs/external-event-normalizer/src/main/java/com/sentinelchain/flink/normalizer/UsgsNormalization.java:34-36 | a blank id consists of the 25 white-space characters of `Character.isWhitespace` only |
| Normalizer.NormalizedCarriesRaw | flink/jobs/external-event-normalizer/src/main/java/com/sentinelchain/flink/normalizer/UsgsNormalization.java:65-96 | the canonical record carries every field of the raw record unchanged, is active, and has the scale `magnitude_mw` exactly when it has a magnitude |
| Normalizer.CanonicalCarriesEvent | flink/jobs/external-event-normalizer/src/main/java/com/sentinelchain/flink/normalizer/UsgsNormalization.java:65-96 | from ingestion through Job 1: time, place, magnitude, depth, texts, id and version of the canonical record are the event's own |
| Normalizer.SameContentIff | flink/jobs/event-deduplicator/src/main/java/com/sentinelchain/flink/deduplicator/PayloadHash.java:26-41 | two ingested events have contents that read alike exactly when time, coordinates, magnitude and depth are equal and place and URL join alike; the update time plays no part |
| Normalizer.AcceptedContentIsInRange | flink/jobs/external-event-normalizer/src/main/java/com/sentinelchain/flink/normalizer/UsgsNormalization.java:65-96 | the canonical record of an accepted raw record is in range and typed where it has a magnitude |
| Normalizer.CanonicalContentIsWellFormed | flink/jobs/external-event-normalizer/src/main/java/com/sentinelchain/flink/normalizer/UsgsNormalization.java:70-79 | the canonical record always satisfies what the content signature relies on |
| Normalizer.DedupKeyInjective | flink/jobs/event-deduplicator/src/main/java/com/sentinelchain/flink/deduplicator/DeduplicatorJob.java:84-86 | within one source the dedup key identifies the event |
| DeduplicateFunction.DeduplicateFunction.ProcessElement | flink/jobs/event-deduplicator/src/main/java/com/sentinelchain/flink/deduplicator/DeduplicateFunction.java:58-85 | the operator object follows the run over its history: state, output and counters, and it emits exactly when the record does not repeat its predecessor |
| DeduplicateFunction.DeduplicateFunction.Handle | flink/jobs/event-deduplicator/src/main/java/com/sentinelchain/flink/deduplicator/DeduplicateFunction.java:61-84 | three-way decision, emission, state write and the counter that moves, against the step function |
| DeduplicateFunction.DeduplicateFunction.Remember | flink/jobs/event-deduplicator/src/main/java/com/sentinelchain/flink/deduplicator/DeduplicateFunction.java:87-91 | overwrites the state of one key with hash, version and time |
| Deduplication.StateIsLastRecord | flink/jobs/event-deduplicator/src/main/java/com/sentinelchain/flink/deduplicator/DeduplicateFunction.java:59-91 | over any interleaving of keys the state holds, per key, the content and time of its last record |
| Deduplication.VersionIsLastEmitted | flink/jobs/event-deduplicator/src/main/java/com/sentinelchain/flink/deduplicator/DeduplicateFunction.java:79-91 | the version in a key's entry is that of the last record the key emitted, at any times |
| Deduplication.DropsExactlyRepeats | flink/jobs/event-deduplicator/src/main/java/com/sentinelchain/flink/deduplicator/DeduplicateFunction.java:43-49 | a record is dropped exactly when the preceding record of its key has the same hash and arrived less than one TTL earlier |
| Deduplication.RunRefinesStatelessRule | flink/jobs/event-deduplicator/src/main/java/com/sentinelchain/flink/deduplicator/DeduplicateFunction.java:59-85 | the stateful run emits exactly what the stateless rule keeps |
| Deduplication.OutputIsCollapsedInputIff | flink/jobs/event-deduplicator/src/main/java/com/sentinelchain/flink/deduplicator/DeduplicateFunction.java:59-85 | each key's output is its input with runs of equal content collapsed, over any interleaving, exactly when no record of that key repeats the content before it after its entry expired |
| Deduplication.EveryContentIsEmitted | flink/jobs/event-deduplicator/src/main/java/com/sentinelchain/flink/deduplicator/DeduplicateFunction.java:59-85 | at any times, with any expiry, the content of every record is among what its key emitted |
| Deduplication.NoRepeatEmittedIff | flink/jobs/event-deduplicator/src/main/java/com/sentinelchain/flink/deduplicator/DeduplicateFunction.java:43-85 | a key's output never repeats a content back to back exactly when no record of that key repeats the content before it after its entry expired |
| Deduplication.CollapseMeaning | flink/jobs/event-deduplicator/src/main/java/com/sentinelchain/flink/deduplicator/Deduplication.java:14-21 | collapsing leaves no adjacent repeats and loses no content |
| Deduplication.CollapseIsSubseq | flink/jobs/event-deduplicator/src/main/java/com/sentinelchain/flink/deduplicator/Deduplication.java:14-21 | collapsing reorders and invents nothing |
| Deduplication.Idempotent | flink/jobs/event-deduplicator/src/main/java/com/sentinelchain/flink/deduplicator/DeduplicateFunction.java:59-85 | running the operator on the output of a run without late repeats changes nothing, at any times |
| Deduplication.ReplayIsSilentIff | flink/jobs/event-deduplicator/src/main/java/com/sentinelchain/flink/deduplicator/Deduplication.java:29-34 | without late repeats, a replayed block is dropped whole exactly when each of its records carries the content its key had last |
| Deduplication.ReplayOfTwoVersionsReEmits | flink/jobs/event-deduplicator/src/main/java/com/sentinelchain/flink/deduplicator/Deduplication.java:29-34 | replaying two versions of one key emits both again |
| Deduplication.EmittedThrough | flink/jobs/external-event-normalizer/src/main/java/com/sentinelchain/flink/normalizer/UsgsNormalization.java:65-96 | deduplicating mapped records is deduplicating by composed key and hash, then mapping |
| DedupRecovery.RecoveryLosesNothing | flink/jobs/event-deduplicator/src/main/java/com/sentinelchain/flink/deduplicator/DeduplicateFunction.java:59-91 | with any crashes, restores and expired entries, contents per key equal at the same offset those of a run that never crashed and read no expired repeat, whose output is a subsequence; the versions are equal too if the crashing run read none |
| DedupRecovery.CaughtUpOutputIsCurrent | flink/jobs/event-deduplicator/src/main/java/com/sentinelchain/flink/deduplicator/DeduplicateFunction.java:59-91 | once caught up, the last output of every key carries the content of its last input, whatever crashed and expired |
| DedupRecovery.EveryContentIsOutput | flink/jobs/event-deduplicator/src/main/java/com/sentinelchain/flink/deduplicator/DeduplicateFunction.java:59-91 | every content read past is in the output, whatever was lost, replayed and expired |
| DedupRecovery.CrashThenCatchUp | flink/jobs/event-deduplicator/src/main/java/com/sentinelchain/flink/deduplicator/DeduplicateFunction.java:39-50 | after any run a crash can keep any part of the unflushed output; it restores the checkpoint, keeps all that was flushed, and the job can read on to the end of the log |
| DedupRecovery.RunKeepsInv | flink/jobs/event-deduplicator/src/main/java/com/sentinelchain/flink/deduplicator/DeduplicateFunction.java:39-50 | the invariant of the checkpoint machine over all runs, at any processing times |
| DedupRecovery.UninterruptedOutput | flink/jobs/event-deduplicator/src/main/java/com/sentinelchain/flink/deduplicator/DeduplicateFunction.java:67-83 | without a crash and without expired repeats the output is exactly the offsets that bring new content |
| PayloadHash.FieldIsConcatenation | flink/jobs/event-deduplicator/src/main/java/com/sentinelchain/flink/deduplicator/PayloadHash.java:28-39 | joining a field and the rest is appending field, separator and rest |
| PayloadHash.CanonicalIsBarred | flink/jobs/event-deduplicator/src/main/java/com/sentinelchain/flink/deduplicator/PayloadHash.java:26-41 | the canonical string is the nine texts, in this order, with a bar between each two |
| PayloadHash.CanonicalEqualIff | flink/jobs/event-deduplicator/src/main/java/com/sentinelchain/flink/deduplicator/PayloadHash.java:26-41 | two contents share a canonical string exactly when they read back alike, with any number of separators in the free texts, for any set of numbers that render apart |
| PayloadHash.ReadingEqualIff | flink/jobs/event-deduplicator/src/main/java/com/sentinelchain/flink/deduplicator/PayloadHash.java:26-41 | two contents read alike exactly when all but the free texts is equal and those join alike |
| PayloadHash.UnambiguousContentIsDetermined | flink/jobs/event-deduplicator/src/main/java/com/sentinelchain/flink/deduplicator/PayloadHash.java:26-41 | the string determines all nine fields when the URL has no separator and neither text is the word null |
| PayloadHash.ReadsAsItselfIff | flink/jobs/event-deduplicator/src/main/java/com/sentinelchain/flink/deduplicator/PayloadHash.java:36-37 | exactly those contents read back as themselves |
| PayloadHash.HashEqualIff | flink/jobs/event-deduplicator/src/main/java/com/sentinelchain/flink/deduplicator/PayloadHash.java:26-41 | where the digest does not collide the same holds of the hashes |
| PayloadHash.SeparatorInUrlCollides | flink/jobs/event-deduplicator/src/main/java/com/sentinelchain/flink/deduplicator/PayloadHash.java:36-37 | two different contents with a separator in the URL hash alike |
| PayloadHash.HexString | flink/jobs/event-deduplicator/src/main/java/com/sentinelchain/flink/deduplicator/PayloadHash.java:43-52 | the loop over signed bytes yields the hex text of the digest, two digits a byte |
| PayloadHash.HexRoundTrip | flink/jobs/event-deduplicator/src/main/java/com/sentinelchain/flink/deduplicator/PayloadHash.java:47-52 | the hex text decodes back to the digest for all signed bytes and contains only hex digits |
| Retry.RetryAsync | libs/common/src/sentinelchain_common/resilience.py:37-60 | calls exactly as often as the attempts' outcomes and the limit say, up to the first success, first other error or the last attempt, reports that outcome, and sleeps at most the geometric sum and the cap times the retries |
| Retry.SleepBound | libs/common/src/sentinelchain_common/resilience.py:29-34 | total sleep over n retries is at most base*(2^n-1) and n*max_delay |
| Retry.DelaysDoNotShrink | libs/common/src/sentinelchain_common/resilience.py:29-34 | without jitter delays never shrink |
| Retry.BackoffDoubles | libs/common/src/sentinelchain_common/resilience.py:29-34 | without jitter the first delay is the base and each later one twice the one before, up to the cap, which is reached exactly when the power of two says |
| Retry.JitterScales | libs/common/src/sentinelchain_common/resilience.py:29-34 | with jitter a delay is the drawn fraction of the one without |
| Retry.SleepIsGeometric | libs/common/src/sentinelchain_common/resilience.py:29-34 | until the cap bites the sleep before n retries is exactly base*(2^n-1) |
| Retry.StopsAt | libs/common/src/sentinelchain_common/resilience.py:49-60 | the number of calls is the first attempt that asks for no retry, or the limit |
| CircuitBreaker.CircuitBreaker.AllowCall | libs/common/src/sentinelchain_common/resilience.py:97-103 | admits, rejects or half-opens as the reset timeout says |
| CircuitBreaker.CircuitBreaker.OnSuccess | libs/common/src/sentinelchain_common/resilience.py:105-108 | closes and forgets |
| CircuitBreaker.CircuitBreaker.OnFailureAt | libs/common/src/sentinelchain_common/resilience.py:110-114 | counts, and opens at the threshold or from half-open |
| CircuitBreaker.CircuitBreaker.Call | libs/common/src/sentinelchain_common/resilience.py:116-128 | one whole call: gate, then the ending's effect, excluded errors having none |
| CircuitBreaker.OpensAtStreak | libs/common/src/sentinelchain_common/resilience.py:105-128 | calls in sequence: the breaker counts the failures in a row, forgets them at a success, does not count excluded errors, and opens, at the time of that failure, exactly when they reach the threshold |
| CircuitBreaker.SuccessForgets | libs/common/src/sentinelchain_common/resilience.py:105-108 | in every interleaving a call that ends well leaves the breaker closed with no failure and no opening time |
| CircuitBreaker.ExcludedIsNeutral | libs/common/src/sentinelchain_common/resilience.py:119-123 | in every interleaving an excluded error leaves the breaker as it was |
| CircuitBreaker.TrialDecides | libs/common/src/sentinelchain_common/resilience.py:97-114 | an open breaker lets nothing through before its reset timeout; from then on one call decides whether it closes, opens again at its own time, or stays half open |
| CircuitBreaker.NotTwoInARow | libs/common/src/sentinelchain_common/resilience.py:105-114 | with a threshold of two, a failure, a success and a failure leave it closed |
| CircuitBreaker.Run | libs/common/src/sentinelchain_common/resilience.py:98-99 | over every interleaving and for every threshold an open breaker knows when it opened: the assertion never fails |
| CircuitBreaker.AlwaysConsistentIff | libs/common/src/sentinelchain_common/resilience.py:97-128 | counter, state and opening time agree in every interleaving of overlapping calls exactly when the threshold is at least one |
| CircuitBreaker.OverlappingCallsAllRun | libs/common/src/sentinelchain_common/resilience.py:97-103 | a breaker that is not open, half-open included, admits any number of overlapping calls |
| CircuitBreaker.OutageLoadBound | libs/common/src/sentinelchain_common/resilience.py:97-128 | sequential failing calls run at most threshold + floor(T / reset_timeout) times, T since the breaker first opened |
| CircuitBreaker.OverlappingOutageBound | libs/common/src/sentinelchain_common/resilience.py:97-128 | failing calls of which never more than m overlap run at most threshold + m - 1 + m * floor(T / reset_timeout) times, T since the breaker first opened |
| CircuitBreaker.OutageLoadBoundIsTight | libs/common/src/sentinelchain_common/resilience.py:97-128 | the bound is attained for every number of runs |
| CircuitBreaker.OverlappingOutageBoundIsTight | libs/common/src/sentinelchain_common/resilience.py:97-128 | for every m and every number of reset timeouts a run of overlapping calls attains that bound |
| UsgsClient.UsgsClient.FetchFeed | services/ingestion-usgs/src/ingestion_usgs/client.py:34-44 | retry inside the breaker: a rejected fetch makes no request, an admitted one makes those of its retry loop and counts once |
| UsgsClient.FetchIsOneCall | services/ingestion-usgs/src/ingestion_usgs/client.py:34-44 | a fetch whose k-th request is the first not to be retried sends k requests and counts once: a success closes the breaker, anything else is one failure more |
| UsgsClient.RejectedFetch | services/ingestion-usgs/src/ingestion_usgs/client.py:44-44 | a rejected fetch sends nothing and leaves the breaker as it is |
| UsgsClient.OutageRequestBound | services/ingestion-usgs/src/ingestion_usgs/client.py:44-44 | over every run of fetches none of which returns a feed, the HTTP requests are at most max_attempts times the breaker's bound |
| UsgsClient.RequestsPerExecution | services/ingestion-usgs/src/ingestion_usgs/client.py:34-44 | in an outage the client's breaker goes the way of one whose calls all fail; requests are at most max_attempts per call that ran, and exactly that many if every attempt asks for a retry |
| FacilityState.EncodedUpdateDecodes | flink/jobs/event-geo-correlator/src/main/java/com/sentinelchain/flink/geo/FacilityUpdateDeserializer.java:33-64 | every update is decoded from its record, and from the value alone when the key is absent |
| FacilityState.DecodedRow | flink/jobs/event-geo-correlator/src/main/java/com/sentinelchain/flink/geo/FacilityUpdateDeserializer.java:44-69 | what a row decodes to, field by field, missing, null and nested values included |
| FacilityState.DecodesToNothingIff | flink/jobs/event-geo-correlator/src/main/java/com/sentinelchain/flink/geo/FacilityUpdateDeserializer.java:33-64 | a record decodes to nothing exactly when neither key nor value names a facility, and fails exactly when one is unreadable |
| FacilityState.KeyDecidesFacility | flink/jobs/event-geo-correlator/src/main/java/com/sentinelchain/flink/geo/FacilityUpdateDeserializer.java:54-64 | a key that names a facility decides which one the record is about; it is a tombstone exactly when the value is null |
| FacilityState.FoldIsLastWrite | flink/jobs/event-geo-correlator/src/main/java/com/sentinelchain/flink/geo/GeoCorrelationFunction.java:64-72 | the map holds each facility's last effect under the facility's own id |
| FacilityState.EntryIsLastUpsert | flink/jobs/event-geo-correlator/src/main/java/com/sentinelchain/flink/geo/GeoCorrelationFunction.java:64-72 | the map entry of a facility is, field by field, its last upsert, and absent when its last update is a tombstone |
| FacilityState.SameMapIff | flink/jobs/event-geo-correlator/src/main/java/com/sentinelchain/flink/geo/GeoCorrelationFunction.java:64-72 | two changelogs converge exactly when they leave the same for every facility |
| FacilityState.CompactedPartitionsConverge | flink/jobs/event-geo-correlator/src/main/java/com/sentinelchain/flink/geo/GeoCorrelationFunction.java:64-72 | if partitions that mention a facility agree on it, any interleaving of their compacted forms ends with the map of every update ever appended, in any interleaving |
| FacilityState.OrderDoesNotMatterIff | flink/jobs/event-geo-correlator/src/main/java/com/sentinelchain/flink/geo/GeoCorrelationFunction.java:64-72 | for any partitions, all ways of reading them to the end leave one map exactly when any two that mention a facility leave the same for it |
| FacilityState.SameProgressSameMap | flink/jobs/event-geo-correlator/src/main/java/com/sentinelchain/flink/geo/GeoCorrelationFunction.java:24-29 | instances that read equally far in every partition hold the same map |
| FacilityState.RemovalIsInvisibleIff | flink/jobs/event-geo-correlator/src/main/java/com/sentinelchain/flink/geo/GeoCorrelationFunction.java:64-72 | exactly which single removals leave the map unchanged |
| FacilityState.LogGrowsAndShrinks | flink/sql/operational_current_state.sql:4-6 | in any state of the log any update can be appended, and every update overwritten by a later one of its facility can be removed |
| FacilityState.CompactionIsInvisible | flink/jobs/event-geo-correlator/src/main/java/com/sentinelchain/flink/geo/GeoCorrelationFunction.java:64-72 | appends and compactions in any alternation keep the map |
| FacilityState.OvertakenReaderConvergesIff | flink/sql/operational_current_state.sql:4-6 | a reader concurrent with compaction, in every alternation of appends, compactions and reads, converges to the map of all updates exactly when it missed no facility: one it held, whose tombstone went unread and that had no update since |
| FacilityState.PausedReaderMissesDelete | flink/sql/operational_current_state.sql:4-6 | a run in which a paused reader keeps a deleted facility |
| FacilityState.SplitFacilityDiverges | flink/jobs/event-geo-correlator/src/main/java/com/sentinelchain/flink/geo/GeoCorrelationFunction.java:64-72 | two updates of one facility with different effects, one in each of two partitions: the two orders of reading leave different maps |
| GeoCorrelation.GeoCorrelationFunction.ProcessBroadcastElement | flink/jobs/event-geo-correlator/src/main/java/com/sentinelchain/flink/geo/GeoCorrelationFunction.java:64-72 | keeps the map equal to the last-write-wins fold of the updates received |
| GeoCorrelation.GeoCorrelationFunction.ProcessElement | flink/jobs/event-geo-correlator/src/main/java/com/sentinelchain/flink/geo/GeoCorrelationFunction.java:76-104 | lists exactly one candidate per affected facility of the map of the updates before the event: those within 250, 120 and 50 km of an earthquake of magnitude at least 7, 6 and 5; the event counts as correlated exactly when there is one |
| GeoCorrelation.ListedCandidates | flink/jobs/event-geo-correlator/src/main/java/com/sentinelchain/flink/geo/ImpactCandidates.java:20-54 | such a batch has distinct ids, every candidate can be recomputed from its own fields, names this event in all its fields and a facility this event affects where its last update puts it, and no affected facility is missing |
| GeoCorrelation.RadiusBands | flink/jobs/event-geo-correlator/src/main/java/com/sentinelchain/flink/geo/ImpactThreshold.java:18-44 | 250 km from magnitude 7, 120 km from 6, 50 km from 5, none below, without a magnitude, or for anything but an earthquake |
| GeoCorrelation.ListedIffInReach | flink/jobs/event-geo-correlator/src/main/java/com/sentinelchain/flink/geo/ImpactCandidates.java:20-54 | a batch lists exactly the facilities within 250, 120 and 50 km of an earthquake of magnitude at least 7, 6 and 5 |
| GeoCorrelation.SeverityIsMonotone | flink/jobs/event-geo-correlator/src/main/java/com/sentinelchain/flink/geo/ImpactThreshold.java:30-44 | a stronger quake keeps every candidate and lowers no score; scores lie in [0, 1] |
| GeoCorrelation.ScoreRange | flink/jobs/event-geo-correlator/src/main/java/com/sentinelchain/flink/geo/GeoScore.java:14-20 | the score lies in [0, 1], is 1 at no distance and 0 from the radius on, and, inside it, gives the distance back |
| GeoCorrelation.ImpactIdIdentifiesIff | flink/jobs/event-geo-correlator/src/main/java/com/sentinelchain/flink/geo/ImpactCandidates.java:32-32 | impact ids of a set of facilities identify event and facility, whatever the event ids, exactly when no facility id is another one behind a colon or ends in another one behind two |
| GeoCorrelation.ColonCollides | flink/jobs/event-geo-correlator/src/main/java/com/sentinelchain/flink/geo/ImpactCandidates.java:32-32 | an explicit pair: event `a` with facility `b::c`, and event `a::b` with facility `c`, share an impact id |
| GeoCorrelation.DistanceIsDefined | flink/jobs/event-geo-correlator/src/main/java/com/sentinelchain/flink/geo/GeoCorrelationFunction.java:94-96 | in exact arithmetic no facility is ever skipped for an undefined distance |
| Haversine.TermInUnitInterval | flink/common/src/main/java/com/sentinelchain/flink/common/geo/Haversine.java:17-28 | for any coordinates, in range or not, the term lies in [0, 1], so both roots are defined |
| Haversine.Symmetric | flink/common/src/main/java/com/sentinelchain/flink/common/geo/Haversine.java:17-28 | term and distance are symmetric in the two points |
| Haversine.ZeroAtSamePoint | flink/common/src/main/java/com/sentinelchain/flink/common/geo/Haversine.java:17-28 | the term is zero for coinciding points |
| Haversine.TermIsQuarterOfChordSquared | flink/common/src/main/java/com/sentinelchain/flink/common/geo/Haversine.java:17-27 | the term is a quarter of the squared distance between the two points' unit vectors |
| Haversine.ArcLength | flink/common/src/main/java/com/sentinelchain/flink/common/geo/Haversine.java:27-27 | a term that is the squared sine of half an angle gives that angle times 6371.0088 km |
| Haversine.DistanceAlongCircle | flink/common/src/main/java/com/sentinelchain/flink/common/geo/Haversine.java:17-28 | along a meridian, and along the equator, the distance is the angle between the points times 6371.0088 km |
| Haversine.NoDistance | flink/common/src/main/java/com/sentinelchain/flink/common/geo/Haversine.java:17-28 | coinciding points are 0 km apart |
| Simulator.StockIsSound | services/supply-chain-simulator/src/supply_chain_simulator/simulator.py:41-55 | stock stays on the 0.0001 grid, never negative, never rising |
| Simulator.ExactStockIsWhatIsLeft | services/supply-chain-simulator/src/supply_chain_simulator/simulator.py:52-55 | without rounding, what is left after consuming amounts one by one is the start less their sum, or zero |
| Simulator.StockIsWhatIsLeft | services/supply-chain-simulator/src/supply_chain_simulator/simulator.py:92-106 | after n ticks the stored stock is within n/20000 of that |
| Simulator.RoundingDrift | services/supply-chain-simulator/src/supply_chain_simulator/simulator.py:95-105 | after n ticks the stock is within n/20000 of the unrounded process |
| Simulator.RoundBounds | services/supply-chain-simulator/src/supply_chain_simulator/simulator.py:102-102 | rounding lands on the grid, within half a step, and never above a grid point it started below |
| Simulator.RoundsToNearestEven | services/supply-chain-simulator/src/supply_chain_simulator/simulator.py:102-102 | rounding goes to the nearest integer and, between two, to the even one |
| Simulator.ConsumptionRange | services/supply-chain-simulator/src/supply_chain_simulator/simulator.py:52-54 | a tick consumes the pro-rated usage give or take 40 per cent, a whole day without jitter exactly the daily usage, in proportion to the draw |
| Simulator.Simulator.ConsumeInventory | services/supply-chain-simulator/src/supply_chain_simulator/simulator.py:92-106 | every row gets its consumed and rounded stock, one write each |
| Simulator.Simulator.ProgressShipments | services/supply-chain-simulator/src/supply_chain_simulator/simulator.py:108-144 | touching a sample is a run of the lifecycle; writes are touches plus inserted events |
| Simulator.Simulator.TouchOne | services/supply-chain-simulator/src/supply_chain_simulator/simulator.py:121-143 | one shipment's drift, advance, arrival and event |
| Simulator.SampleSize | services/supply-chain-simulator/src/supply_chain_simulator/simulator.py:110-120 | a tick touches different active shipments: none of none, one of one, otherwise half of them rounded down |
| Simulator.EventsFormPath | services/supply-chain-simulator/src/supply_chain_simulator/simulator.py:32-38 | a shipment's inserted events form a contiguous path to its current status, at most four |
| Simulator.AdvanceFollowsFlow | services/supply-chain-simulator/src/supply_chain_simulator/simulator.py:63-68 | a status moves exactly when it has a successor and the draw is below 0.3, and then to its successor |
| Simulator.RanksMatchEvents | services/supply-chain-simulator/src/supply_chain_simulator/simulator.py:63-68 | sum of lifecycle ranks minus inserted events is constant |
| Simulator.DeliveredHasArrival | services/supply-chain-simulator/src/supply_chain_simulator/simulator.py:124-127 | a delivered shipment has an arrival time |
| Simulator.ArrivalIsDeliveryEvent | services/supply-chain-simulator/src/supply_chain_simulator/simulator.py:124-138 | a shipment delivered in the course of the run arrived when its delivery event occurred; until then its arrival time is untouched |
| Simulator.UpdatedWhenTouched | services/supply-chain-simulator/src/supply_chain_simulator/simulator.py:142-142 | a row was last updated when it was last touched |
| Simulator.FinalIsUntouched | services/supply-chain-simulator/src/supply_chain_simulator/simulator.py:110-114 | in every run a row found delivered or cancelled is the same at the end |
| Simulator.EtaDriftBound | services/supply-chain-simulator/src/supply_chain_simulator/simulator.py:58-60 | after n touches an ETA has moved by between -30n and +90n minutes |
| Simulator.EtaIsDrifted | services/supply-chain-simulator/src/supply_chain_simulator/simulator.py:58-60 | an ETA has moved by exactly the drifts drawn for its shipment; a missing one stays missing |

## Left out

- Kafka, Redis, Postgres, HTTP, Avro and the Schema Registry as such: they appear only as append, store, acknowledge, get, set, expire, checkpoint and restore steps.
- A message still travelling when the ingestion process dies and stored by the broker after the restarted process has sent: a crash drops what is not stored.
- An exception raised inside the flush itself: a poll can be abandoned while scanning or committing, and the process can crash anywhere.
- The envelope's random message id and trace id between ingestion and Job 2: they take no part in keys, hashes or markers.
- The time-to-live clock of Flink's state backend: it is taken to read the same time as the processing clock used for `lastSeenAt`.
- Floating-point rounding, NaN and infinities in coordinates and magnitudes: arithmetic is over exact reals, except that an undefined distance is kept as such.
- The conversion of epoch milliseconds to `datetime` and back: times are whole milliseconds.
- Numeric text in facility JSON that is a quoted number: a scalar carries its number directly.
- Job 3's SQL: its output changelog is the correlator's input.
- Facility pausing in the simulator, logging, metrics, health servers, settings, migrations, seed data and the LLM client: plumbing, or decisions without state to reason about.
- The wording of audit reasons, and which audit messages the broker stores: an audit record carries the broken rules and the event.
- `operation_id`: one digest of joined strings, with the same separator question as the content signature.
- CommitProtocol.MarkersBelongToStoredVersions: is about runs whose flushes are clean, because otherwise it is false; ConfirmationIsExactIff says that a flush that is not clean can confirm wrongly, and DisciplinedRunIsClean which polls are clean.
- Retry.RetryAsync: assumes delays that are not negative and random factors between 0 and 1.
- PollQuiescence.LaterPollsAreQuietIff: is about polls between which no marker expires, because an expired marker makes its event count as new.
- FacilityState.OvertakenReaderConvergesIff: lets the broker compact a tombstone at any time; the retention time that delays this in practice is a setting.
- Simulator.EventsFormPath: counts the events inserted during the run, so it starts with none.
- EndToEnd.EffectivelyOnce: is about a Job 2 that is not restarted and an id of which no event repeats an expired entry, because either lets Job 2 emit a version again; nothing is lost even then, which ConfirmedIsEmitted and ConfirmedSurvivesRestarts show.
- CircuitBreaker.OutageLoadBound: is about calls one after another; OverlappingOutageBound covers up to m at once, and without a limit on the overlap there is no bound, which OverlappingCallsAllRun shows.
