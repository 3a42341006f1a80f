/** The ingestion service's event: parsing the feed, quality checks, and the dedup marker. */
module UsgsEvents {
  import opened Wrappers
  import opened Sequences
  import PayloadHash

  datatype UsgsEvent = UsgsEvent(
    sourceEventId: string, magnitude: Option<real>, latitude: real, longitude: real,
    depthKm: Option<real>, place: Option<string>, eventTimeMs: int, updatedMs: int,
    sourceUrl: Option<string>)
  {
    ghost predicate NumbersIn(nums: iset<real>) {
      && latitude in nums && longitude in nums
      && (magnitude.Some? ==> magnitude.value in nums)
      && (depthKm.Some? ==> depthKm.value in nums)
    }
  }

  // ---------------------------------------------------------------------------
  // Parsing

  datatype Json =
    | JNull
    | JBool(b: bool)
    | JNumber(n: real)
    | JString(s: string)
    | JArray(items: seq<Json>)
    | JObject(fields: map<string, Json>)

  datatype ParseProblem =
    | NotAnObject | NoId | NoProperties | NoGeometry | BadCoordinates
    | NotANumber(field: string) | NotEpochMillis(field: string)

  datatype FeatureParseError = FeatureParseError(problem: ParseProblem, sourceEventId: Option<string>)

  /** Why a parse step stops: a per-feature error, or an uncaught exception of the date conversion. */
  datatype Failure =
    | Malformed(error: FeatureParseError)
    | DateOutOfRange

  /** The span of `datetime`, years 1 to 9999, in milliseconds since the epoch. */
  const MIN_EPOCH_MS := -62135596800000
  const END_EPOCH_MS := 253402300800000

  /** Days before the first day of a year, counting from year 1. */
  function DaysBefore(year: int): int {
    365 * (year - 1) + (year - 1) / 4 - (year - 1) / 100 + (year - 1) / 400
  }

  /** The span begins with year 1 and ends where year 10000 would begin; the epoch is the start of 1970. */
  lemma DatetimeSpan()
    ensures MIN_EPOCH_MS == (DaysBefore(1) - DaysBefore(1970)) * 24 * 60 * 60 * 1000
    ensures END_EPOCH_MS == (DaysBefore(10000) - DaysBefore(1970)) * 24 * 60 * 60 * 1000
  {
  }

  function Get(fields: map<string, Json>, name: string): Json {
    if name in fields then fields[name] else JNull
  }

  function AsFloat(value: Json, field: string, id: string): Result<real, Failure> {
    if value.JNumber? then Ok(value.n) else Err(Malformed(FeatureParseError(NotANumber(field), Some(id))))
  }

  function OptFloat(value: Json, field: string, id: string): Result<Option<real>, Failure> {
    if value.JNull? then Ok(None)
    else
      match AsFloat(value, field, id)
      case Ok(x) => Ok(Some(x))
      case Err(e) => Err(e)
  }

  function EpochMs(value: Json, field: string, id: string): Result<int, Failure> {
    if !value.JNumber? then Err(Malformed(FeatureParseError(NotEpochMillis(field), Some(id))))
    else if MIN_EPOCH_MS <= value.n.Floor < END_EPOCH_MS then Ok(value.n.Floor)
    else Err(DateOutOfRange)
  }

  function OptString(value: Json): Option<string> {
    if value.JString? then Some(value.s) else None
  }

  function ParseFeature(fields: map<string, Json>): Result<UsgsEvent, Failure> {
    var rawId := Get(fields, "id");
    if !rawId.JString? || rawId.s == "" then Err(Malformed(FeatureParseError(NoId, None)))
    else
      var id := rawId.s;
      var props := Get(fields, "properties");
      var geometry := Get(fields, "geometry");
      if !props.JObject? then Err(Malformed(FeatureParseError(NoProperties, Some(id))))
      else if !geometry.JObject? then Err(Malformed(FeatureParseError(NoGeometry, Some(id))))
      else
        var coords := Get(geometry.fields, "coordinates");
        if !coords.JArray? || |coords.items| < 2 then
          Err(Malformed(FeatureParseError(BadCoordinates, Some(id))))
        else
          match AsFloat(coords.items[0], "longitude", id)
          case Err(e) => Err(e)
          case Ok(longitude) =>
          match AsFloat(coords.items[1], "latitude", id)
          case Err(e) => Err(e)
          case Ok(latitude) =>
          match if |coords.items| > 2 then OptFloat(coords.items[2], "depth_km", id) else Ok(None)
          case Err(e) => Err(e)
          case Ok(depthKm) =>
          match OptFloat(Get(props.fields, "mag"), "magnitude", id)
          case Err(e) => Err(e)
          case Ok(magnitude) =>
          match EpochMs(Get(props.fields, "time"), "time", id)
          case Err(e) => Err(e)
          case Ok(eventTimeMs) =>
          match EpochMs(Get(props.fields, "updated"), "updated", id)
          case Err(e) => Err(e)
          case Ok(updatedMs) =>
            Ok(UsgsEvent(id, magnitude, latitude, longitude, depthKm,
                         OptString(Get(props.fields, "place")), eventTimeMs, updatedMs,
                         OptString(Get(props.fields, "url"))))
  }

  /** One element of the feed's array. */
  function ParseItem(item: Json): Result<UsgsEvent, Failure> {
    if item.JObject? then ParseFeature(item.fields)
    else Err(Malformed(FeatureParseError(NotAnObject, None)))
  }

  type Outcome = Result<UsgsEvent, Failure>

  function EventsIn(outcomes: seq<Outcome>): seq<UsgsEvent> {
    if outcomes == [] then []
    else
      match Last(outcomes)
      case Ok(e) => EventsIn(DropLast(outcomes)) + [e]
      case Err(_) => EventsIn(DropLast(outcomes))
  }

  function ErrorsIn(outcomes: seq<Outcome>): seq<FeatureParseError> {
    if outcomes == [] then []
    else
      match Last(outcomes)
      case Err(Malformed(e)) => ErrorsIn(DropLast(outcomes)) + [e]
      case _ => ErrorsIn(DropLast(outcomes))
  }

  /** What parsing makes of each feature, in feed order. */
  function Outcomes(items: seq<Json>): (outcomes: seq<Outcome>)
    ensures |outcomes| == |items|
    ensures forall i :: 0 <= i < |items| ==> outcomes[i] == ParseItem(items[i])
  {
    seq(|items|, i requires 0 <= i < |items| => ParseItem(items[i]))
  }

  predicate IsNumberOrNull(value: Json) {
    value.JNumber? || value.JNull?
  }

  /** `[longitude, latitude]`, `[longitude, latitude, depth]` or more, the depth possibly null. */
  predicate IsPosition(coordinates: Json) {
    && coordinates.JArray? && |coordinates.items| >= 2
    && coordinates.items[0].JNumber? && coordinates.items[1].JNumber?
    && (|coordinates.items| > 2 ==> IsNumberOrNull(coordinates.items[2]))
  }

  /** Everything that is looked at before the dates has the expected shape. */
  predicate WellShaped(item: Json) {
    && item.JObject?
    && Get(item.fields, "id").JString? && Get(item.fields, "id").s != ""
    && Get(item.fields, "properties").JObject?
    && Get(item.fields, "geometry").JObject?
    && IsPosition(Get(Get(item.fields, "geometry").fields, "coordinates"))
    && IsNumberOrNull(Get(Get(item.fields, "properties").fields, "mag"))
  }

  /** A number of milliseconds that no `datetime` can hold. */
  predicate IsBadDate(value: Json) {
    value.JNumber? && !(MIN_EPOCH_MS <= value.n.Floor < END_EPOCH_MS)
  }

  /** Well shaped up to the dates, and the first date that is not a good one is a number out of range. */
  predicate StopsTheFeed(item: Json) {
    && WellShaped(item)
    && var props := Get(item.fields, "properties").fields;
       && Get(props, "time").JNumber?
       && (IsBadDate(Get(props, "time")) || IsBadDate(Get(props, "updated")))
  }

  /** Which features raise an exception `parse_feed` does not catch, told from their JSON alone. */
  lemma DateFailureIff(item: Json)
    ensures ParseItem(item) == Err(DateOutOfRange) <==> StopsTheFeed(item)
  {
  }

  lemma FeedFailureIff(items: seq<Json>)
    ensures Err(DateOutOfRange) in Outcomes(items) <==> exists item :: item in items && StopsTheFeed(item)
  {
    var outcomes := Outcomes(items);
    if Err(DateOutOfRange) in outcomes {
      var i :| 0 <= i < |outcomes| && outcomes[i] == Err(DateOutOfRange);
      DateFailureIff(items[i]);
      assert items[i] in items;
    }
    if item :| item in items && StopsTheFeed(item) {
      var i :| 0 <= i < |items| && items[i] == item;
      DateFailureIff(item);
      assert outcomes[i] == Err(DateOutOfRange);
    }
  }

  datatype FeedError = NoFeatures | BadDate

  /** A feed that can be parsed: it has an array of features, and no feature stops it. */
  predicate Parseable(payload: map<string, Json>) {
    && Get(payload, "features").JArray?
    && forall item :: item in Get(payload, "features").items ==> !StopsTheFeed(item)
  }

  function OptNumber(x: Option<real>): Json {
    if x.Some? then JNumber(x.value) else JNull
  }

  function OptText(s: Option<string>): Json {
    if s.Some? then JString(s.value) else JNull
  }

  /** The feature the feed documents for an event: longitude first, times in epoch milliseconds. */
  function Feature(e: UsgsEvent): Json {
    JObject(map[
      "id" := JString(e.sourceEventId),
      "properties" := JObject(map[
        "mag" := OptNumber(e.magnitude), "place" := OptText(e.place), "url" := OptText(e.sourceUrl),
        "time" := JNumber(e.eventTimeMs as real), "updated" := JNumber(e.updatedMs as real)]),
      "geometry" := JObject(map[
        "coordinates" := JArray([JNumber(e.longitude), JNumber(e.latitude), OptNumber(e.depthKm)])])])
  }

  /** Round trip: an event with an id and representable dates is parsed back from its feature. */
  lemma FeatureRoundTrip(e: UsgsEvent)
    requires e.sourceEventId != ""
    ensures ParseItem(Feature(e)) == Ok(e) <==>
            MIN_EPOCH_MS <= e.eventTimeMs < END_EPOCH_MS && MIN_EPOCH_MS <= e.updatedMs < END_EPOCH_MS
  {
    assert (e.eventTimeMs as real).Floor == e.eventTimeMs && (e.updatedMs as real).Floor == e.updatedMs;
  }

  /** How many of the outcomes are events. */
  function EventCount(outcomes: seq<Outcome>): nat {
    if outcomes == [] then 0 else EventCount(DropLast(outcomes)) + if Last(outcomes).Ok? then 1 else 0
  }

  function ErrorCount(outcomes: seq<Outcome>): nat {
    if outcomes == [] then 0
    else ErrorCount(DropLast(outcomes)) + if Last(outcomes).Err? && Last(outcomes).error.Malformed? then 1 else 0
  }

  lemma {:induction false} CountsAreLengths(outcomes: seq<Outcome>)
    ensures |EventsIn(outcomes)| == EventCount(outcomes) && |ErrorsIn(outcomes)| == ErrorCount(outcomes)
    decreases |outcomes|
  {
    if outcomes != [] {
      CountsAreLengths(DropLast(outcomes));
    }
  }

  /** The event of a feature that parses, unchanged, stands behind those of the features before it. */
  lemma {:induction false} EventAt(outcomes: seq<Outcome>, i: nat)
    requires i < |outcomes| && outcomes[i].Ok?
    ensures EventCount(outcomes[..i]) < |EventsIn(outcomes)|
    ensures EventsIn(outcomes)[EventCount(outcomes[..i])] == outcomes[i].value
    decreases |outcomes|
  {
    var front := DropLast(outcomes);
    if i < |front| {
      assert front[..i] == outcomes[..i];
      EventAt(front, i);
    } else {
      assert outcomes[..i] == front;
      CountsAreLengths(front);
    }
  }

  /** And so for the error of a feature that does not. */
  lemma {:induction false} ErrorAt(outcomes: seq<Outcome>, i: nat)
    requires i < |outcomes| && outcomes[i].Err? && outcomes[i].error.Malformed?
    ensures ErrorCount(outcomes[..i]) < |ErrorsIn(outcomes)|
    ensures ErrorsIn(outcomes)[ErrorCount(outcomes[..i])] == outcomes[i].error.error
    decreases |outcomes|
  {
    var front := DropLast(outcomes);
    if i < |front| {
      assert front[..i] == outcomes[..i];
      ErrorAt(front, i);
    } else {
      assert outcomes[..i] == front;
      CountsAreLengths(front);
    }
  }

  /** Each event is among the events as often as features parse to it. */
  lemma {:induction false} EventsAreConserved(outcomes: seq<Outcome>, e: UsgsEvent)
    ensures multiset(EventsIn(outcomes))[e] == multiset(outcomes)[Ok(e)]
    decreases |outcomes|
  {
    if outcomes != [] {
      var front, last := DropLast(outcomes), Last(outcomes);
      EventsAreConserved(front, e);
      DropLastThenLast(outcomes);
      CountSnoc(front, last, Ok(e));
      if last.Ok? {
        CountSnoc(EventsIn(front), last.value, e);
      }
    }
  }

  /** And each error as often as features fail with it. */
  lemma {:induction false} ErrorsAreConserved(outcomes: seq<Outcome>, error: FeatureParseError)
    ensures multiset(ErrorsIn(outcomes))[error] == multiset(outcomes)[Err(Malformed(error))]
    decreases |outcomes|
  {
    if outcomes != [] {
      var front, last := DropLast(outcomes), Last(outcomes);
      ErrorsAreConserved(front, error);
      DropLastThenLast(outcomes);
      CountSnoc(front, last, Err(Malformed(error)));
      if last.Err? && last.error.Malformed? {
        CountSnoc(ErrorsIn(front), last.error.error, error);
      }
    }
  }

  function Features(es: seq<UsgsEvent>): (items: seq<Json>)
    ensures |items| == |es| && forall i :: 0 <= i < |es| ==> items[i] == Feature(es[i])
  {
    if es == [] then [] else Features(DropLast(es)) + [Feature(Last(es))]
  }

  /** Ids are not empty, and dates can be held by a `datetime`. */
  predicate Documented(e: UsgsEvent) {
    && e.sourceEventId != ""
    && MIN_EPOCH_MS <= e.eventTimeMs < END_EPOCH_MS && MIN_EPOCH_MS <= e.updatedMs < END_EPOCH_MS
  }

  lemma DocumentedParses(e: UsgsEvent)
    requires Documented(e)
    ensures ParseItem(Feature(e)) == Ok(e) && !StopsTheFeed(Feature(e))
  {
    FeatureRoundTrip(e);
    DateFailureIff(Feature(e));
  }

  lemma ParsesToo(items: seq<Json>, item: Json, e: UsgsEvent)
    requires ParseItem(item) == Ok(e)
    ensures EventsIn(Outcomes(items + [item])) == EventsIn(Outcomes(items)) + [e]
    ensures ErrorsIn(Outcomes(items + [item])) == ErrorsIn(Outcomes(items))
  {
    assert Outcomes(items + [item]) == Outcomes(items) + [ParseItem(item)];
    assert DropLast(Outcomes(items + [item])) == Outcomes(items);
  }

  /** Round trip of a whole feed: the documented features of some events parse to these events, in order. */
  lemma {:induction false} FeedRoundTrip(es: seq<UsgsEvent>)
    requires forall e :: e in es ==> Documented(e)
    ensures EventsIn(Outcomes(Features(es))) == es && ErrorsIn(Outcomes(Features(es))) == []
    ensures forall item :: item in Features(es) ==> !StopsTheFeed(item)
    decreases |es|
  {
    if es != [] {
      var front, e := DropLast(es), Last(es);
      assert e in es && forall d :: d in front ==> d in es;
      FeedRoundTrip(front);
      DocumentedParses(e);
      ParsesToo(Features(front), Feature(e), e);
      DropLastThenLast(es);
    }
  }

  /** The id of a feature, if it has one. */
  function IdOf(item: Json): Option<string> {
    if item.JObject? && Get(item.fields, "id").JString? && Get(item.fields, "id").s != ""
    then Some(Get(item.fields, "id").s) else None
  }

  /** Where each part of a parsed event comes from: longitude first, then latitude, then depth. */
  lemma ParsedFrom(item: Json, e: UsgsEvent)
    requires ParseItem(item) == Ok(e)
    ensures WellShaped(item)
    ensures var props := Get(item.fields, "properties").fields;
            var coords := Get(Get(item.fields, "geometry").fields, "coordinates").items;
            && IdOf(item) == Some(e.sourceEventId)
            && coords[0] == JNumber(e.longitude) && coords[1] == JNumber(e.latitude)
            && e.depthKm == (if |coords| > 2 && coords[2].JNumber? then Some(coords[2].n) else None)
            && e.magnitude == (if Get(props, "mag").JNumber? then Some(Get(props, "mag").n) else None)
            && Get(props, "time").JNumber? && e.eventTimeMs == Get(props, "time").n.Floor
            && Get(props, "updated").JNumber? && e.updatedMs == Get(props, "updated").n.Floor
            && e.place == (if Get(props, "place").JString? then Some(Get(props, "place").s) else None)
            && e.sourceUrl == (if Get(props, "url").JString? then Some(Get(props, "url").s) else None)
  {
  }

  /** What a parse error names: the feature's id where there is one, and the first thing that is wrong. */
  lemma MalformedNames(item: Json, err: FeatureParseError)
    requires ParseItem(item) == Err(Malformed(err))
    ensures err.sourceEventId == IdOf(item)
    ensures err.problem == NotAnObject <==> !item.JObject?
    ensures err.problem == NoId <==> item.JObject? && IdOf(item).None?
    ensures err.problem == NoProperties <==> IdOf(item).Some? && !Get(item.fields, "properties").JObject?
    ensures err.problem == NoGeometry <==>
              && IdOf(item).Some? && Get(item.fields, "properties").JObject?
              && !Get(item.fields, "geometry").JObject?
    ensures err.problem.NotEpochMillis? ==>
              && WellShaped(item) && err.problem.field in ["time", "updated"]
              && !Get(Get(item.fields, "properties").fields, err.problem.field).JNumber?
    ensures WellShaped(item) ==> err.problem.NotEpochMillis?
  {
  }

  /** Of the numbers in a feature, the first that is not one gives the error its field. */
  lemma NotANumberNames(item: Json, field: string, id: Option<string>)
    requires ParseItem(item) == Err(Malformed(FeatureParseError(NotANumber(field), id)))
    ensures field in ["longitude", "latitude", "depth_km", "magnitude"]
    ensures && IdOf(item).Some? && Get(item.fields, "properties").JObject? && Get(item.fields, "geometry").JObject?
            && var coords := Get(Get(item.fields, "geometry").fields, "coordinates");
               && coords.JArray? && |coords.items| >= 2
               && (field == "longitude" <==> !coords.items[0].JNumber?)
               && (field == "latitude" <==> coords.items[0].JNumber? && !coords.items[1].JNumber?)
               && (field in ["depth_km", "magnitude"] <==> coords.items[0].JNumber? && coords.items[1].JNumber?)
               && (field == "depth_km" ==> |coords.items| > 2 && !IsNumberOrNull(coords.items[2]))
               && (field == "magnitude" ==>
                     && (|coords.items| > 2 ==> IsNumberOrNull(coords.items[2]))
                     && !IsNumberOrNull(Get(Get(item.fields, "properties").fields, "mag")))
  {
  }

  method Collect(outcomes: seq<Outcome>) returns (r: Result<(seq<UsgsEvent>, seq<FeatureParseError>), FeedError>)
    ensures r != Err(NoFeatures)
    ensures r.Ok? <==> Err(DateOutOfRange) !in outcomes
    ensures r.Ok? ==> r.value == (EventsIn(outcomes), ErrorsIn(outcomes))
    ensures r.Ok? ==> |r.value.0| + |r.value.1| == |outcomes|
  {
    var events: seq<UsgsEvent>, errors: seq<FeatureParseError> := [], [];
    for i := 0 to |outcomes|
      invariant Err(DateOutOfRange) !in outcomes[..i]
      invariant events == EventsIn(outcomes[..i]) && errors == ErrorsIn(outcomes[..i])
      invariant |events| + |errors| == i
    {
      assert DropLast(outcomes[..i + 1]) == outcomes[..i] && Last(outcomes[..i + 1]) == outcomes[i];
      match outcomes[i]
      case Ok(e) => events := events + [e];
      case Err(Malformed(e)) => errors := errors + [e];
      case Err(DateOutOfRange) => return Err(BadDate);
    }
    assert outcomes[..|outcomes|] == outcomes;
    r := Ok((events, errors));
  }

  /**
   * Parses a whole feed. Malformed features are set aside one by one, but a date outside the range
   * of `datetime` stops the whole feed: that is exactly when a feed with an array of features fails.
   */
  method ParseFeed(payload: map<string, Json>)
    returns (r: Result<(seq<UsgsEvent>, seq<FeatureParseError>), FeedError>)
    ensures r.Ok? <==> Parseable(payload)
    ensures r == Err(NoFeatures) <==> !Get(payload, "features").JArray?
    ensures r.Ok? ==>
              var outcomes := Outcomes(Get(payload, "features").items);
              && r.value == (EventsIn(outcomes), ErrorsIn(outcomes))
              && |r.value.0| + |r.value.1| == |outcomes|
              && |r.value.0| == EventCount(outcomes) && |r.value.1| == ErrorCount(outcomes)
    ensures forall es :: Get(payload, "features") == JArray(Features(es)) && (forall e :: e in es ==> Documented(e))
              ==> r == Ok((es, []))
  {
    var features := Get(payload, "features");
    if !features.JArray? {
      return Err(NoFeatures);
    }
    FeedFailureIff(features.items);
    CountsAreLengths(Outcomes(features.items));
    forall es | features == JArray(Features(es)) && (forall e :: e in es ==> Documented(e))
      ensures Parseable(payload) && EventsIn(Outcomes(features.items)) == es && ErrorsIn(Outcomes(features.items)) == []
    {
      FeedRoundTrip(es);
    }
    r := Collect(Outcomes(features.items));
  }

  /** A feature of the expected shape whose origin time is `ms`. */
  function FeatureAt(id: string, ms: int): Json {
    JObject(map[
      "id" := JString(id),
      "properties" := JObject(map["mag" := JNumber(6.2), "time" := JNumber(ms as real), "updated" := JNumber(0.0)]),
      "geometry" := JObject(map["coordinates" := JArray([JNumber(139.2), JNumber(35.1)])])])
  }

  lemma StopsIff(id: string, ms: int)
    requires id != ""
    ensures StopsTheFeed(FeatureAt(id, ms)) <==> !(MIN_EPOCH_MS <= ms < END_EPOCH_MS)
  {
    assert (ms as real).Floor == ms && (0.0).Floor == 0;
  }

  /** One feature with an absurd time is enough: a feed that contains it is parsed exactly if the time is in range. */
  lemma BadDateStopsTheFeed(payload: map<string, Json>, before: seq<Json>, id: string, ms: int, after: seq<Json>)
    requires id != "" && Get(payload, "features") == JArray(before + [FeatureAt(id, ms)] + after)
    requires forall item :: item in before + after ==> !StopsTheFeed(item)
    ensures Parseable(payload) <==> MIN_EPOCH_MS <= ms < END_EPOCH_MS
  {
    var items := before + [FeatureAt(id, ms)] + after;
    StopsIff(id, ms);
    assert items[|before|] == FeatureAt(id, ms);
    assert FeatureAt(id, ms) in items;
    assert forall item :: item in items ==> item in before + after || item == FeatureAt(id, ms);
  }

  // ---------------------------------------------------------------------------
  // Quality

  const MIN_MAGNITUDE := -2.0
  const MAX_MAGNITUDE := 12.0

  datatype Reason =
    | EmptyId | LatitudeOutOfRange | LongitudeOutOfRange
    | MagnitudeMissing | MagnitudeOutOfRange | TooFarInFuture

  /** `event` breaks the rule named by `reason` at time `nowMs`. */
  predicate Breaks(event: UsgsEvent, reason: Reason, nowMs: int, toleranceMs: int) {
    match reason
    case EmptyId => event.sourceEventId == ""
    case LatitudeOutOfRange => !(-90.0 <= event.latitude <= 90.0)
    case LongitudeOutOfRange => !(-180.0 <= event.longitude <= 180.0)
    case MagnitudeMissing => event.magnitude.None?
    case MagnitudeOutOfRange => event.magnitude.Some? && !(MIN_MAGNITUDE <= event.magnitude.value <= MAX_MAGNITUDE)
    case TooFarInFuture => event.eventTimeMs > nowMs + toleranceMs
  }

  predicate Acceptable(event: UsgsEvent, nowMs: int, toleranceMs: int) {
    forall r :: !Breaks(event, r, nowMs, toleranceMs)
  }

  /** `reasons`, and `rule` if the event breaks it. */
  function AddIfBroken(reasons: seq<Reason>, event: UsgsEvent, rule: Reason, nowMs: int, toleranceMs: int)
    : (r: seq<Reason>)
    ensures forall x :: x in r <==> x in reasons || (x == rule && Breaks(event, rule, nowMs, toleranceMs))
  {
    if Breaks(event, rule, nowMs, toleranceMs) then reasons + [rule] else reasons
  }

  /** What the checks of id and place find. */
  function PlaceReasons(event: UsgsEvent, nowMs: int, toleranceMs: int): seq<Reason> {
    AddIfBroken(AddIfBroken(AddIfBroken([], event, EmptyId, nowMs, toleranceMs),
      event, LatitudeOutOfRange, nowMs, toleranceMs), event, LongitudeOutOfRange, nowMs, toleranceMs)
  }

  /** The rules the event breaks, in the order of the checks. */
  function Reasons(event: UsgsEvent, nowMs: int, toleranceMs: int): (reasons: seq<Reason>)
    ensures forall r :: r in reasons <==> Breaks(event, r, nowMs, toleranceMs)
    ensures reasons == [] <==> Acceptable(event, nowMs, toleranceMs)
  {
    var place := PlaceReasons(event, nowMs, toleranceMs);
    var size := AddIfBroken(AddIfBroken(place, event, MagnitudeMissing, nowMs, toleranceMs),
      event, MagnitudeOutOfRange, nowMs, toleranceMs);
    var reasons := AddIfBroken(size, event, TooFarInFuture, nowMs, toleranceMs);
    assert reasons != [] ==> reasons[0] in reasons;
    reasons
  }

  /** The place of a rule among the checks. */
  function CheckNumber(r: Reason): nat {
    match r
    case EmptyId => 0
    case LatitudeOutOfRange => 1
    case LongitudeOutOfRange => 2
    case MagnitudeMissing => 3
    case MagnitudeOutOfRange => 4
    case TooFarInFuture => 5
  }

  predicate InCheckOrder(reasons: seq<Reason>) {
    forall i, j :: 0 <= i < j < |reasons| ==> CheckNumber(reasons[i]) < CheckNumber(reasons[j])
  }

  lemma AddKeepsOrder(reasons: seq<Reason>, event: UsgsEvent, rule: Reason, nowMs: int, toleranceMs: int)
    requires InCheckOrder(reasons) && forall r :: r in reasons ==> CheckNumber(r) < CheckNumber(rule)
    ensures InCheckOrder(AddIfBroken(reasons, event, rule, nowMs, toleranceMs))
  {
  }

  /** Each broken rule is listed once, in the order of the checks. */
  lemma ReasonsInOrder(event: UsgsEvent, nowMs: int, toleranceMs: int)
    ensures InCheckOrder(Reasons(event, nowMs, toleranceMs))
  {
    var id := AddIfBroken([], event, EmptyId, nowMs, toleranceMs);
    var latitude := AddIfBroken(id, event, LatitudeOutOfRange, nowMs, toleranceMs);
    var longitude := AddIfBroken(latitude, event, LongitudeOutOfRange, nowMs, toleranceMs);
    var missing := AddIfBroken(longitude, event, MagnitudeMissing, nowMs, toleranceMs);
    var size := AddIfBroken(missing, event, MagnitudeOutOfRange, nowMs, toleranceMs);
    AddKeepsOrder([], event, EmptyId, nowMs, toleranceMs);
    AddKeepsOrder(id, event, LatitudeOutOfRange, nowMs, toleranceMs);
    AddKeepsOrder(latitude, event, LongitudeOutOfRange, nowMs, toleranceMs);
    AddKeepsOrder(longitude, event, MagnitudeMissing, nowMs, toleranceMs);
    AddKeepsOrder(missing, event, MagnitudeOutOfRange, nowMs, toleranceMs);
    AddKeepsOrder(size, event, TooFarInFuture, nowMs, toleranceMs);
  }

  method CheckEvent(event: UsgsEvent, nowMs: int, toleranceMs: int) returns (reasons: seq<Reason>)
    ensures reasons == Reasons(event, nowMs, toleranceMs)
    ensures forall r :: r in reasons <==> Breaks(event, r, nowMs, toleranceMs)
    ensures reasons == [] <==> Acceptable(event, nowMs, toleranceMs)
  {
    reasons := [];
    if event.sourceEventId == "" {
      reasons := [EmptyId];
    }
    if !(-90.0 <= event.latitude <= 90.0) {
      reasons := reasons + [LatitudeOutOfRange];
    }
    if !(-180.0 <= event.longitude <= 180.0) {
      reasons := reasons + [LongitudeOutOfRange];
    }
    assert reasons == PlaceReasons(event, nowMs, toleranceMs);
    if event.magnitude.None? {
      reasons := reasons + [MagnitudeMissing];
    } else if !(MIN_MAGNITUDE <= event.magnitude.value <= MAX_MAGNITUDE) {
      reasons := reasons + [MagnitudeOutOfRange];
    }
    assert reasons == AddIfBroken(AddIfBroken(PlaceReasons(event, nowMs, toleranceMs),
      event, MagnitudeMissing, nowMs, toleranceMs), event, MagnitudeOutOfRange, nowMs, toleranceMs);
    if event.eventTimeMs > nowMs + toleranceMs {
      reasons := reasons + [TooFarInFuture];
    }
  }

  /** What ingestion accepts, in numbers. */
  lemma AcceptableIff(event: UsgsEvent, nowMs: int, toleranceMs: int)
    ensures Acceptable(event, nowMs, toleranceMs) <==>
            && event.sourceEventId != ""
            && -90.0 <= event.latitude <= 90.0 && -180.0 <= event.longitude <= 180.0
            && event.magnitude.Some? && -2.0 <= event.magnitude.value <= 12.0
            && event.eventTimeMs <= nowMs + toleranceMs
  {
    if Acceptable(event, nowMs, toleranceMs) {
      assert !Breaks(event, EmptyId, nowMs, toleranceMs) && !Breaks(event, LatitudeOutOfRange, nowMs, toleranceMs);
      assert !Breaks(event, LongitudeOutOfRange, nowMs, toleranceMs);
      assert !Breaks(event, MagnitudeMissing, nowMs, toleranceMs);
      assert !Breaks(event, MagnitudeOutOfRange, nowMs, toleranceMs);
      assert !Breaks(event, TooFarInFuture, nowMs, toleranceMs);
    }
  }

  /** An accepted event stays acceptable as time passes. */
  lemma AcceptableLater(event: UsgsEvent, nowMs: int, laterMs: int, toleranceMs: int)
    requires Acceptable(event, nowMs, toleranceMs) && nowMs <= laterMs
    ensures Acceptable(event, laterMs, toleranceMs)
  {
    forall r
      ensures !Breaks(event, r, laterMs, toleranceMs)
    {
      assert !Breaks(event, r, nowMs, toleranceMs);
    }
  }

  // ---------------------------------------------------------------------------
  // The marker

  /** Renderings the marker is made of: ISO time, payload JSON and digest. */
  datatype Codec = Codec(
    isoformat: int -> string, json: UsgsEvent -> string, digest: string -> seq<PayloadHash.Byte>)
  {
    /** Among `events`, the payload JSON determines the event, and the digest the JSON. */
    ghost predicate Faithful(events: iset<UsgsEvent>) {
      && (forall d, e :: d in events && e in events && json(d) == json(e) ==> d == e)
      && (forall d, e :: d in events && e in events && digest(json(d)) == digest(json(e)) ==> json(d) == json(e))
    }

    function SourceVersion(e: UsgsEvent): string {
      isoformat(e.updatedMs)
    }

    function EventHash(e: UsgsEvent): string {
      PayloadHash.Hex(digest(json(e)))
    }

    function Marker(e: UsgsEvent): string {
      MarkerFor(SourceVersion(e), EventHash(e))
    }
  }

  function MarkerFor(sourceVersion: string, payloadHash: string): string {
    sourceVersion + ":" + payloadHash
  }

  /** A marker splits back into version and hash, because the hash has no colon. */
  lemma {:induction false} MarkerInjective(v: string, h: string, w: string, k: string)
    requires ':' !in h && ':' !in k
    requires MarkerFor(v, h) == MarkerFor(w, k)
    ensures v == w && h == k
  {
    LastIndexOfJoined(v, ':', h);
    LastIndexOfJoined(w, ':', k);
    assert v == MarkerFor(v, h)[..|v|] && w == MarkerFor(w, k)[..|w|];
    assert h == MarkerFor(v, h)[|v| + 1..] && k == MarkerFor(w, k)[|w| + 1..];
  }

  /** Two events share a marker only if they are the same event. */
  lemma MarkerIdentifiesEvent(c: Codec, events: iset<UsgsEvent>, d: UsgsEvent, e: UsgsEvent)
    requires c.Faithful(events) && d in events && e in events
    ensures c.Marker(d) == c.Marker(e) <==> d == e
  {
    PayloadHash.HexRoundTrip(c.digest(c.json(d)));
    PayloadHash.HexRoundTrip(c.digest(c.json(e)));
    if c.Marker(d) == c.Marker(e) {
      MarkerInjective(c.SourceVersion(d), c.EventHash(d), c.SourceVersion(e), c.EventHash(e));
    }
  }
}
