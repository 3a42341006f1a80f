/** The raw envelope written by ingestion, and Job 1, which validates it and makes it canonical. */
module Normalizer {
  import opened Wrappers
  import opened Sequences
  import opened UsgsEvents
  import opened PayloadHash

  datatype RawRecord = RawRecord(
    source: string, sourceEventId: Option<string>, sourceVersion: Option<string>, eventTime: int,
    latitude: Option<real>, longitude: Option<real>, magnitude: Option<real>,
    depthKm: Option<real>, place: Option<string>, sourceUrl: Option<string>)

  datatype NormalizedEvent = NormalizedEvent(
    source: string, sourceEventId: string, sourceVersion: Option<string>, content: Content)

  const SOURCE := "usgs"
  const SEVERITY_SCALE := "magnitude_mw"
  const MAX_FUTURE_SKEW_MS := 3600000

  /** The envelope ingestion produces for an event. */
  function Envelope(c: Codec, e: UsgsEvent): RawRecord {
    RawRecord(SOURCE, Some(e.sourceEventId), Some(c.SourceVersion(e)), e.eventTimeMs,
              Some(e.latitude), Some(e.longitude), e.magnitude, e.depthKm, e.place, e.sourceUrl)
  }

  /** White space as Java's `isBlank` sees it. */
  predicate IsWhitespace(ch: char) {
    var n := ch as int;
    || 0x9 <= n <= 0xD || 0x1C <= n <= 0x20
    || n == 0x1680 || (0x2000 <= n <= 0x200A && n != 0x2007)
    || n == 0x2028 || n == 0x2029 || n == 0x205F || n == 0x3000
  }

  predicate IsBlank(s: string) {
    forall ch :: ch in s ==> IsWhitespace(ch)
  }

  datatype Violation =
    | MissingSourceEventId | BadLatitude | BadLongitude | BadMagnitude | EventTimeInFuture

  predicate Violates(raw: RawRecord, v: Violation, nowMs: int) {
    match v
    case MissingSourceEventId => raw.sourceEventId.None? || IsBlank(raw.sourceEventId.value)
    case BadLatitude => raw.latitude.None? || raw.latitude.value < -90.0 || raw.latitude.value > 90.0
    case BadLongitude => raw.longitude.None? || raw.longitude.value < -180.0 || raw.longitude.value > 180.0
    case BadMagnitude =>
      raw.magnitude.Some? && (raw.magnitude.value < MIN_MAGNITUDE || raw.magnitude.value > MAX_MAGNITUDE)
    case EventTimeInFuture => raw.eventTime > nowMs + MAX_FUTURE_SKEW_MS
  }

  predicate Accepts(raw: RawRecord, nowMs: int) {
    forall v :: !Violates(raw, v, nowMs)
  }

  /** The place of a rule among the checks. */
  function CheckNumber(v: Violation): nat {
    match v
    case MissingSourceEventId => 0
    case BadLatitude => 1
    case BadLongitude => 2
    case BadMagnitude => 3
    case EventTimeInFuture => 4
  }

  predicate InCheckOrder(reasons: seq<Violation>) {
    forall i, j :: 0 <= i < j < |reasons| ==> CheckNumber(reasons[i]) < CheckNumber(reasons[j])
  }

  /** `reasons`, and `rule` if the record violates it. */
  function AddIfViolated(reasons: seq<Violation>, raw: RawRecord, rule: Violation, nowMs: int): (r: seq<Violation>)
    ensures forall v :: v in r <==> v in reasons || (v == rule && Violates(raw, rule, nowMs))
  {
    if Violates(raw, rule, nowMs) then reasons + [rule] else reasons
  }

  function PlaceViolations(raw: RawRecord, nowMs: int): seq<Violation> {
    AddIfViolated(AddIfViolated(AddIfViolated([], raw, MissingSourceEventId, nowMs),
      raw, BadLatitude, nowMs), raw, BadLongitude, nowMs)
  }

  /** The rules the record violates, in the order of the checks. */
  function Violations(raw: RawRecord, nowMs: int): (reasons: seq<Violation>)
    ensures forall v :: v in reasons <==> Violates(raw, v, nowMs)
    ensures reasons == [] <==> Accepts(raw, nowMs)
  {
    var reasons := AddIfViolated(AddIfViolated(PlaceViolations(raw, nowMs), raw, BadMagnitude, nowMs),
      raw, EventTimeInFuture, nowMs);
    assert reasons != [] ==> reasons[0] in reasons;
    reasons
  }

  lemma AddKeepsOrder(reasons: seq<Violation>, raw: RawRecord, rule: Violation, nowMs: int)
    requires InCheckOrder(reasons) && forall v :: v in reasons ==> CheckNumber(v) < CheckNumber(rule)
    ensures InCheckOrder(AddIfViolated(reasons, raw, rule, nowMs))
  {
  }

  /** Each violated rule is listed once, in the order of the checks. */
  lemma ViolationsInOrder(raw: RawRecord, nowMs: int)
    ensures InCheckOrder(Violations(raw, nowMs))
  {
    var id := AddIfViolated([], raw, MissingSourceEventId, nowMs);
    var latitude := AddIfViolated(id, raw, BadLatitude, nowMs);
    var longitude := AddIfViolated(latitude, raw, BadLongitude, nowMs);
    var magnitude := AddIfViolated(longitude, raw, BadMagnitude, nowMs);
    AddKeepsOrder([], raw, MissingSourceEventId, nowMs);
    AddKeepsOrder(id, raw, BadLatitude, nowMs);
    AddKeepsOrder(latitude, raw, BadLongitude, nowMs);
    AddKeepsOrder(longitude, raw, BadMagnitude, nowMs);
    AddKeepsOrder(magnitude, raw, EventTimeInFuture, nowMs);
  }

  method Validate(raw: RawRecord, nowMs: int) returns (reasons: seq<Violation>)
    ensures reasons == Violations(raw, nowMs)
    ensures forall v :: v in reasons <==> Violates(raw, v, nowMs)
    ensures reasons == [] <==> Accepts(raw, nowMs)
  {
    reasons := [];
    if raw.sourceEventId.None? || IsBlank(raw.sourceEventId.value) {
      reasons := [MissingSourceEventId];
    }
    assert reasons == AddIfViolated([], raw, MissingSourceEventId, nowMs);
    if raw.latitude.None? || raw.latitude.value < -90.0 || raw.latitude.value > 90.0 {
      reasons := reasons + [BadLatitude];
    }
    if raw.longitude.None? || raw.longitude.value < -180.0 || raw.longitude.value > 180.0 {
      reasons := reasons + [BadLongitude];
    }
    assert reasons == PlaceViolations(raw, nowMs);
    if raw.magnitude.Some? && (raw.magnitude.value < MIN_MAGNITUDE || raw.magnitude.value > MAX_MAGNITUDE) {
      reasons := reasons + [BadMagnitude];
    }
    if raw.eventTime > nowMs + MAX_FUTURE_SKEW_MS {
      reasons := reasons + [EventTimeInFuture];
    }
  }

  function ToNormalized(raw: RawRecord): NormalizedEvent
    requires raw.sourceEventId.Some? && raw.latitude.Some? && raw.longitude.Some?
  {
    NormalizedEvent(raw.source, raw.sourceEventId.value, raw.sourceVersion,
      Content(raw.eventTime, raw.latitude.value, raw.longitude.value, raw.magnitude,
              if raw.magnitude.Some? then Some(SEVERITY_SCALE) else None,
              raw.depthKm, raw.place, raw.sourceUrl, "active"))
  }

  /** The canonical record of an ingested event. */
  function Canonicalize(c: Codec, e: UsgsEvent): NormalizedEvent {
    ToNormalized(Envelope(c, e))
  }

  /**
   * An event that passed ingestion's checks at `ingestedMs` passes Job 1's, at any clock reading that
   * lags by no more than the difference of the two tolerances, exactly when its id is not blank.
   */
  lemma IngestedIsAcceptedIff(c: Codec, e: UsgsEvent, ingestedMs: int, toleranceMs: int, nowMs: int)
    requires Acceptable(e, ingestedMs, toleranceMs)
    requires ingestedMs + toleranceMs <= nowMs + MAX_FUTURE_SKEW_MS
    ensures Accepts(Envelope(c, e), nowMs) <==> !IsBlank(e.sourceEventId)
  {
    var raw := Envelope(c, e);
    assert forall r :: !Breaks(e, r, ingestedMs, toleranceMs);
    assert !Breaks(e, LatitudeOutOfRange, ingestedMs, toleranceMs);
    assert !Breaks(e, LongitudeOutOfRange, ingestedMs, toleranceMs);
    assert !Breaks(e, MagnitudeOutOfRange, ingestedMs, toleranceMs);
    assert !Breaks(e, TooFarInFuture, ingestedMs, toleranceMs);
    assert Violates(raw, MissingSourceEventId, nowMs) <==> IsBlank(e.sourceEventId);
    forall v | v != MissingSourceEventId
      ensures !Violates(raw, v, nowMs)
    {
    }
  }

  /** Whatever Job 1 accepts, the canonical record it writes is in range, and typed where it has a magnitude. */
  lemma AcceptedContentIsInRange(raw: RawRecord, nowMs: int)
    requires Accepts(raw, nowMs)
    ensures raw.sourceEventId.Some? && raw.latitude.Some? && raw.longitude.Some?
    ensures var n := ToNormalized(raw);
            && !IsBlank(n.sourceEventId)
            && -90.0 <= n.content.latitude <= 90.0 && -180.0 <= n.content.longitude <= 180.0
            && (n.content.severity.Some? ==> MIN_MAGNITUDE <= n.content.severity.value <= MAX_MAGNITUDE)
            && (n.content.severity.Some? <==> n.content.severityScale.Some?)
            && n.content.eventTime <= nowMs + MAX_FUTURE_SKEW_MS
  {
    assert !Violates(raw, MissingSourceEventId, nowMs) && !Violates(raw, BadLatitude, nowMs);
    assert !Violates(raw, BadLongitude, nowMs) && !Violates(raw, BadMagnitude, nowMs);
    assert !Violates(raw, EventTimeInFuture, nowMs);
  }

  /** Job 1 changes no data: the canonical record carries what the raw record holds, and marks it active. */
  lemma NormalizedCarriesRaw(raw: RawRecord)
    requires raw.sourceEventId.Some? && raw.latitude.Some? && raw.longitude.Some?
    ensures var n := ToNormalized(raw);
            && n.source == raw.source && Some(n.sourceEventId) == raw.sourceEventId
            && n.sourceVersion == raw.sourceVersion && n.content.eventTime == raw.eventTime
            && Some(n.content.latitude) == raw.latitude && Some(n.content.longitude) == raw.longitude
            && n.content.severity == raw.magnitude && n.content.depthKm == raw.depthKm
            && n.content.place == raw.place && n.content.sourceUrl == raw.sourceUrl
            && n.content.severityScale == (if raw.magnitude.Some? then Some("magnitude_mw") else None)
            && n.content.status == "active"
  {
  }

  /** Ingestion and Job 1 together: the canonical record carries the event's own data. */
  lemma CanonicalCarriesEvent(c: Codec, e: UsgsEvent)
    ensures var n := Canonicalize(c, e);
            && n.source == "usgs" && n.sourceEventId == e.sourceEventId
            && n.sourceVersion == Some(c.isoformat(e.updatedMs)) && n.content.eventTime == e.eventTimeMs
            && n.content.latitude == e.latitude && n.content.longitude == e.longitude
            && n.content.severity == e.magnitude && n.content.depthKm == e.depthKm
            && n.content.place == e.place && n.content.sourceUrl == e.sourceUrl
            && n.content.severityScale == (if e.magnitude.Some? then Some("magnitude_mw") else None)
            && n.content.status == "active"
  {
    NormalizedCarriesRaw(Envelope(c, e));
  }

  /**
   * What Job 2 takes two versions to differ in: their contents read alike exactly when time, place on
   * the map, magnitude and depth are equal and place name and URL join alike. The update time is not
   * among it.
   */
  lemma {:induction false} SameContentIff(c: Codec, d: UsgsEvent, e: UsgsEvent)
    ensures PayloadHash.Reading(Canonicalize(c, d).content) == PayloadHash.Reading(Canonicalize(c, e).content) <==>
            && d.eventTimeMs == e.eventTimeMs && d.latitude == e.latitude && d.longitude == e.longitude
            && d.magnitude == e.magnitude && d.depthKm == e.depthKm
            && Text(d.place) + "|" + Text(d.sourceUrl) == Text(e.place) + "|" + Text(e.sourceUrl)
  {
    CanonicalCarriesEvent(c, d);
    CanonicalCarriesEvent(c, e);
    PayloadHash.ReadingEqualIff(Canonicalize(c, d).content, Canonicalize(c, e).content);
  }

  /** What Job 1 accepts, in numbers: an hour of clock skew, and a magnitude between -2 and 12 if there is one. */
  lemma AcceptsIff(raw: RawRecord, nowMs: int)
    ensures Accepts(raw, nowMs) <==>
            && raw.sourceEventId.Some? && !IsBlank(raw.sourceEventId.value)
            && raw.latitude.Some? && -90.0 <= raw.latitude.value <= 90.0
            && raw.longitude.Some? && -180.0 <= raw.longitude.value <= 180.0
            && (raw.magnitude.Some? ==> -2.0 <= raw.magnitude.value <= 12.0)
            && raw.eventTime <= nowMs + 60 * 60 * 1000
  {
    if Accepts(raw, nowMs) {
      assert !Violates(raw, MissingSourceEventId, nowMs) && !Violates(raw, BadLatitude, nowMs);
      assert !Violates(raw, BadLongitude, nowMs) && !Violates(raw, BadMagnitude, nowMs);
      assert !Violates(raw, EventTimeInFuture, nowMs);
    }
  }

  /** A blank id has no visible character: letters and digits are not white space, nor are no-break spaces. */
  lemma BlankMeaning(s: string, ch: char)
    ensures IsBlank("") && IsBlank(" \t\n\r")
    ensures (exists ch :: ch in s && ('!' <= ch <= '~' || ch in ['\U{A0}', '\U{2007}', '\U{202F}'])) ==> !IsBlank(s)
    ensures IsBlank([ch]) <==> ch as int in {
              0x9, 0xA, 0xB, 0xC, 0xD, 0x1C, 0x1D, 0x1E, 0x1F, 0x20, 0x1680, 0x2000, 0x2001, 0x2002, 0x2003, 0x2004,
              0x2005, 0x2006, 0x2008, 0x2009, 0x200A, 0x2028, 0x2029, 0x205F, 0x3000}
    ensures IsBlank(s) <==> s == "" || (IsWhitespace(Last(s)) && IsBlank(DropLast(s)))
  {
    assert IsBlank([ch]) <==> IsWhitespace([ch][0]);
    if s != "" {
      DropLastThenLast(s);
    }
  }

  /** What Job 1 writes always satisfies what the content signature relies on. */
  lemma CanonicalContentIsWellFormed(c: Codec, e: UsgsEvent)
    ensures PayloadHash.WellFormed(Canonicalize(c, e).content)
  {
    assert SEP !in SEVERITY_SCALE && SEP !in NULL && SEP !in "active";
    assert SEVERITY_SCALE[0] != NULL[0];
  }

  /** The dedup key of Job 2. */
  function DedupKey(n: NormalizedEvent): string {
    n.source + ":" + n.sourceEventId
  }

  /** Within one source the key identifies the event. */
  lemma DedupKeyInjective(m: NormalizedEvent, n: NormalizedEvent)
    requires m.source == n.source
    ensures DedupKey(m) == DedupKey(n) <==> m.sourceEventId == n.sourceEventId
  {
    if DedupKey(m) == DedupKey(n) {
      assert m.sourceEventId == DedupKey(m)[|m.source| + 1..];
      assert n.sourceEventId == DedupKey(n)[|n.source| + 1..];
    }
  }
}
