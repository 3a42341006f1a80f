/** Job 4: impact radius, score, and the candidates emitted for an event against the facility map. */
module GeoCorrelation {
  import opened RealArithmetic
  import opened Wrappers
  import opened Sequences
  import opened FacilityState
  import Haversine

  datatype Event = Event(
    eventId: string, source: string, sourceEventId: string, eventType: string, eventTime: int,
    latitude: real, longitude: real, severity: Option<real>, traceId: string, tenantId: string)

  datatype Candidate = Candidate(
    impactId: string, eventId: string, source: string, sourceEventId: string, eventType: string, eventTime: int,
    assetId: string, supplierId: Option<string>,
    eventLatitude: real, eventLongitude: real, assetLatitude: real, assetLongitude: real,
    distanceKm: real, radiusKm: real, insideAffectedArea: bool, severity: Option<real>, geospatialScore: real,
    traceId: string, tenantId: string, calculatedAt: int)

  const EARTHQUAKE := "earthquake"

  function EarthquakeRadiusKm(magnitude: Option<real>): Option<real> {
    if magnitude.None? then None
    else if magnitude.value >= 7.0 then Some(250.0)
    else if magnitude.value >= 6.0 then Some(120.0)
    else if magnitude.value >= 5.0 then Some(50.0)
    else None
  }

  function RadiusKm(eventType: string, severity: Option<real>): Option<real> {
    if eventType == EARTHQUAKE then EarthquakeRadiusKm(severity) else None
  }

  function Score(distanceKm: real, radiusKm: real): real {
    if radiusKm <= 0.0 then 0.0
    else
      var score := 1.0 - distanceKm / radiusKm;
      if score < 0.0 then 0.0 else if score > 1.0 then 1.0 else score
  }

  function ImpactId(sourceEventId: string, facilityId: string): string {
    sourceEventId + "::" + facilityId
  }

  function Build(e: Event, f: Facility, distanceKm: real, radiusKm: real, now: int): Candidate {
    Candidate(ImpactId(e.sourceEventId, f.facilityId), e.eventId, e.source, e.sourceEventId, e.eventType, e.eventTime,
              f.facilityId, f.supplierId, e.latitude, e.longitude, f.latitude, f.longitude,
              distanceKm, radiusKm, distanceKm <= radiusKm, e.severity, Score(distanceKm, radiusKm),
              e.traceId, e.tenantId, now)
  }

  /** Kilometres between two points, or `None` where the distance is not a number. */
  type Distance = (real, real, real, real) -> Option<real>

  function GreatCircle(m: Haversine.Maths): Distance {
    (lat1: real, lon1: real, lat2: real, lon2: real) => Haversine.Km(m, lat1, lon1, lat2, lon2)
  }

  /** The distance from the event to the facility; `None`, which no radius admits, if undefined. */
  function DistanceTo(km: Distance, e: Event, f: Facility): Option<real> {
    km(e.latitude, e.longitude, f.latitude, f.longitude)
  }

  /** The event has a radius and the facility lies within it. */
  predicate Affects(km: Distance, e: Event, f: Facility) {
    && RadiusKm(e.eventType, e.severity).Some?
    && DistanceTo(km, e, f).Some?
    && DistanceTo(km, e, f).value <= RadiusKm(e.eventType, e.severity).value
  }

  /** The candidate for a facility the event affects. */
  function CandidateFor(km: Distance, e: Event, f: Facility, now: int): Candidate
    requires Affects(km, e, f)
  {
    Build(e, f, DistanceTo(km, e, f).value, RadiusKm(e.eventType, e.severity).value, now)
  }

  /** The candidates an event calls for, by facility. */
  function Candidates(km: Distance, e: Event, facilities: map<string, Facility>, now: int): map<string, Candidate> {
    map id | id in facilities && Affects(km, e, facilities[id]) :: CandidateFor(km, e, facilities[id], now)
  }

  predicate Keyed(wanted: map<string, Candidate>) {
    forall id :: id in wanted ==> wanted[id].assetId == id
  }

  /** `cs` lists the entries of `wanted` with keys in `ids`, each once, and nothing else. */
  ghost predicate Lists(cs: seq<Candidate>, wanted: map<string, Candidate>, ids: set<string>) {
    && (forall i, j :: 0 <= i < j < |cs| ==> cs[i].assetId != cs[j].assetId)
    && (forall c :: c in cs ==> c.assetId in ids && c.assetId in wanted && c == wanted[c.assetId])
    && (forall id :: id in ids && id in wanted ==> wanted[id] in cs)
  }

  lemma {:induction false} ListsOneMore(
      cs: seq<Candidate>, wanted: map<string, Candidate>, ids: set<string>, id: string)
    requires Lists(cs, wanted, ids) && id !in ids
    requires Keyed(wanted)
    ensures Lists(cs + if id in wanted then [wanted[id]] else [], wanted, ids + {id})
  {
    if id !in wanted {
      assert cs + [] == cs;
    }
  }

  lemma SameEventDistinctImpacts(sourceEventId: string, a: string, b: string)
    ensures ImpactId(sourceEventId, a) == ImpactId(sourceEventId, b) <==> a == b
  {
    assert a == ImpactId(sourceEventId, a)[|sourceEventId| + 2..];
    assert b == ImpactId(sourceEventId, b)[|sourceEventId| + 2..];
  }

  /** Candidates are keyed by their facility, and there are none without a radius. */
  lemma CandidateFacts(km: Distance, e: Event, updates: seq<FacilityUpdate>, now: int)
    ensures var wanted := Candidates(km, e, Fold(updates), now);
            && Keyed(wanted)
            && (RadiusKm(e.eventType, e.severity).None? ==> wanted == map[])
  {
    forall id | id in Fold(updates)
      ensures Fold(updates)[id].facilityId == id
    {
      FoldIsLastWrite(updates, id);
    }
  }

  /** The event affects the facility, and the candidate names both and carries their data. */
  predicate IsAbout(km: Distance, c: Candidate, e: Event, f: Option<Facility>, now: int) {
    && f.Some? && Affects(km, e, f.value) && c.calculatedAt == now
    && c.assetId == f.value.facilityId && c.supplierId == f.value.supplierId
    && c.assetLatitude == f.value.latitude && c.assetLongitude == f.value.longitude
    && c.eventId == e.eventId && c.source == e.source && c.sourceEventId == e.sourceEventId
    && c.eventType == e.eventType && c.eventTime == e.eventTime && c.severity == e.severity
    && c.eventLatitude == e.latitude && c.eventLongitude == e.longitude
    && c.traceId == e.traceId && c.tenantId == e.tenantId
  }

  /** A candidate can be checked from its own fields: distance, radius, id and score all follow from them. */
  predicate SelfConsistent(km: Distance, c: Candidate) {
    && km(c.eventLatitude, c.eventLongitude, c.assetLatitude, c.assetLongitude) == Some(c.distanceKm)
    && RadiusKm(c.eventType, c.severity) == Some(c.radiusKm)
    && c.distanceKm <= c.radiusKm && c.insideAffectedArea
    && c.impactId == ImpactId(c.sourceEventId, c.assetId)
    && c.geospatialScore == Score(c.distanceKm, c.radiusKm)
  }

  /**
   * Candidates listed for one event: distinct ids, each consistent in itself, about this event and
   * about a facility that this event affects where its last update puts it; and none of the affected
   * facilities is missing.
   */
  lemma {:induction false} ListedCandidates(
      km: Distance, e: Event, updates: seq<FacilityUpdate>, now: int, cs: seq<Candidate>)
    requires Lists(cs, Candidates(km, e, Fold(updates), now), Fold(updates).Keys)
    ensures forall i, j :: 0 <= i < j < |cs| ==> cs[i].impactId != cs[j].impactId
    ensures forall c :: c in cs ==> SelfConsistent(km, c) && IsAbout(km, c, e, Final(updates, c.assetId), now)
    ensures forall id :: Final(updates, id).Some? && Affects(km, e, Final(updates, id).value) ==>
              exists c :: c in cs && c.assetId == id
  {
    var wanted := Candidates(km, e, Fold(updates), now);
    CandidateFacts(km, e, updates, now);
    forall c | c in cs
      ensures SelfConsistent(km, c) && IsAbout(km, c, e, Final(updates, c.assetId), now)
    {
      FoldIsLastWrite(updates, c.assetId);
    }
    forall id | Final(updates, id).Some? && Affects(km, e, Final(updates, id).value)
      ensures exists c :: c in cs && c.assetId == id
    {
      FoldIsLastWrite(updates, id);
      assert id in wanted && wanted[id] in cs;
    }
    forall i, j | 0 <= i < j < |cs|
      ensures cs[i].impactId != cs[j].impactId
    {
      assert cs[i] in cs && cs[j] in cs;
      SameEventDistinctImpacts(e.sourceEventId, cs[i].assetId, cs[j].assetId);
    }
  }

  /** The radius of every magnitude, and none for anything but an earthquake of magnitude 5 or more. */
  lemma RadiusBands(eventType: string, severity: Option<real>)
    ensures RadiusKm(eventType, severity).Some? <==>
              eventType == "earthquake" && severity.Some? && severity.value >= 5.0
    ensures RadiusKm(eventType, severity).Some? ==>
              var radius, m := RadiusKm(eventType, severity).value, severity.value;
              && (radius == 250.0 <==> m >= 7.0)
              && (radius == 120.0 <==> 6.0 <= m < 7.0)
              && (radius == 50.0 <==> 5.0 <= m < 6.0)
              && radius in [250.0, 120.0, 50.0]
  {
  }

  /** The event is an earthquake strong enough to reach a facility at this distance. */
  predicate Reaches(e: Event, distanceKm: Option<real>) {
    && e.eventType == "earthquake" && e.severity.Some? && distanceKm.Some?
    && (|| (e.severity.value >= 7.0 && distanceKm.value <= 250.0)
        || (e.severity.value >= 6.0 && distanceKm.value <= 120.0)
        || (e.severity.value >= 5.0 && distanceKm.value <= 50.0))
  }

  /** A facility is listed under this id. */
  predicate IsListed(cs: seq<Candidate>, id: string) {
    exists c :: c in cs && c.assetId == id
  }

  /** The facility as last updated is within reach of the event. */
  predicate InReach(km: Distance, e: Event, updates: seq<FacilityUpdate>, id: string) {
    && Final(updates, id).Some?
    && var f := Final(updates, id).value;
       Reaches(e, km(e.latitude, e.longitude, f.latitude, f.longitude))
  }

  /**
   * In terms of magnitude and kilometres: a batch lists exactly the facilities within 250 km of an
   * earthquake of magnitude 7 or more, 120 km of one of 6 or more, and 50 km of one of 5 or more.
   */
  lemma {:induction false} ListedIffInReach(
      km: Distance, e: Event, updates: seq<FacilityUpdate>, now: int, cs: seq<Candidate>, id: string)
    requires Lists(cs, Candidates(km, e, Fold(updates), now), Fold(updates).Keys)
    ensures IsListed(cs, id) <==> InReach(km, e, updates, id)
  {
    ListedCandidates(km, e, updates, now, cs);
    RadiusBands(e.eventType, e.severity);
  }

  class GeoCorrelationFunction {
    const km: Distance
    var facilities: map<string, Facility>
    var out: seq<Candidate>
    var impactsEmitted: nat
    var eventsCorrelated: nat
    /** The facility updates received so far. */
    ghost var updates: seq<FacilityUpdate>

    ghost predicate Valid()
      reads this
    {
      facilities == Fold(updates) && impactsEmitted == |out|
    }

    constructor (km: Distance)
      ensures Valid() && updates == [] && out == [] && this.km == km
    {
      this.km := km;
      facilities, out, impactsEmitted, eventsCorrelated, updates := map[], [], 0, 0, [];
    }

    method ProcessBroadcastElement(update: FacilityUpdate)
      requires Valid()
      modifies `facilities, `updates
      ensures Valid() && updates == old(updates) + [update]
    {
      if update.Tombstone? {
        facilities := facilities - {update.facilityId};
      } else {
        facilities := facilities[update.facilityId := update.ToFacility()];
      }
      updates := updates + [update];
      assert DropLast(updates) == old(updates);
    }

    /** Emits the candidate for one facility of the map if it lies within the radius. */
    method Consider(event: Event, radiusKm: real, id: string, now: int, ghost wanted: map<string, Candidate>)
      returns (ghost emitted: seq<Candidate>)
      requires id in facilities && RadiusKm(event.eventType, event.severity) == Some(radiusKm)
      requires wanted == Candidates(km, event, facilities, now)
      modifies `out, `impactsEmitted
      ensures emitted == if id in wanted then [wanted[id]] else []
      ensures out == old(out) + emitted && impactsEmitted == old(impactsEmitted) + |emitted|
    {
      emitted := [];
      var facility := facilities[id];
      var distanceKm := km(event.latitude, event.longitude, facility.latitude, facility.longitude);
      if distanceKm.Some? && distanceKm.value <= radiusKm {
        var candidate := Build(event, facility, distanceKm.value, radiusKm, now);
        out := out + [candidate];
        emitted := [candidate];
        impactsEmitted := impactsEmitted + 1;
      }
    }

    /** Goes through the whole map and emits what `Consider` does for each facility. */
    method ConsiderAll(event: Event, radiusKm: real, now: int, ghost wanted: map<string, Candidate>)
      returns (ghost batch: seq<Candidate>)
      requires impactsEmitted == |out| && RadiusKm(event.eventType, event.severity) == Some(radiusKm)
      requires wanted == Candidates(km, event, facilities, now) && Keyed(wanted)
      modifies `out, `impactsEmitted
      ensures out == old(out) + batch && impactsEmitted == |out|
      ensures Lists(batch, wanted, facilities.Keys)
    {
      batch := [];
      var rest := facilities.Keys;
      ghost var done: set<string> := {};
      while rest != {}
        invariant done + rest == facilities.Keys && done !! rest
        invariant out == old(out) + batch && impactsEmitted == |out|
        invariant Lists(batch, wanted, done)
        decreases rest
      {
        var id :| id in rest;
        ListsOneMore(batch, wanted, done, id);
        ghost var emitted := Consider(event, radiusKm, id, now, wanted);
        batch := batch + emitted;
        done, rest := done + {id}, rest - {id};
      }
      assert done == facilities.Keys;
    }

    /**
     * Emits, in no particular order, exactly one candidate per facility that the event affects in the
     * last-write-wins map of the updates received before it.
     */
    method ProcessElement(event: Event, now: int) returns (ghost batch: seq<Candidate>)
      requires Valid()
      modifies `out, `impactsEmitted, `eventsCorrelated
      ensures Valid()
      ensures out == old(out) + batch
      ensures Lists(batch, Candidates(km, event, Fold(updates), now), Fold(updates).Keys)
      ensures forall id :: IsListed(batch, id) <==> InReach(km, event, updates, id)
      ensures eventsCorrelated
           == old(eventsCorrelated)
              + if event.eventType == "earthquake" && event.severity.Some? && event.severity.value >= 5.0 then 1 else 0
    {
      batch := [];
      ghost var wanted := Candidates(km, event, facilities, now);
      var radius := RadiusKm(event.eventType, event.severity);
      CandidateFacts(km, event, updates, now);
      RadiusBands(event.eventType, event.severity);
      if radius.Some? {
        batch := ConsiderAll(event, radius.value, now, wanted);
        eventsCorrelated := eventsCorrelated + 1;
      }
      forall id
        ensures IsListed(batch, id) <==> InReach(km, event, updates, id)
      {
        ListedIffInReach(km, event, updates, now, batch, id);
      }
    }
  }

  // ---------------------------------------------------------------------------
  // Severity

  /** Every score lies between 0 and 1; inside the radius it says how far towards the edge the facility is. */
  lemma ScoreRange(distanceKm: real, radiusKm: real)
    ensures 0.0 <= Score(distanceKm, radiusKm) <= 1.0
    ensures radiusKm > 0.0 && 0.0 <= distanceKm <= radiusKm ==>
              (1.0 - Score(distanceKm, radiusKm)) * radiusKm == distanceKm
    ensures radiusKm <= 0.0 || distanceKm >= radiusKm ==> Score(distanceKm, radiusKm) == 0.0
    ensures radiusKm > 0.0 ==> Score(0.0, radiusKm) == 1.0
  {
    if radiusKm > 0.0 && distanceKm >= radiusKm {
      AtLeastOne(distanceKm, radiusKm);
    }
    if radiusKm > 0.0 && 0.0 <= distanceKm <= radiusKm {
      var q := distanceKm / radiusKm;
      QuotientInUnit(distanceKm, radiusKm);
      assert (1.0 - (1.0 - q)) * radiusKm == q * radiusKm == distanceKm;
    }
  }

  lemma QuotientInUnit(x: real, y: real)
    requires y > 0.0 && 0.0 <= x <= y
    ensures 0.0 <= x / y <= 1.0
  {
    var q := x / y;
    assert q * y == x && (q - 1.0) * y == x - y;
    if q > 1.0 {
      MulPositive(q - 1.0, y);
      assert false;
    }
    if q < 0.0 {
      MulPositive(-q, y);
      assert false;
    }
  }

  lemma AtLeastOne(x: real, y: real)
    requires y > 0.0 && x >= y
    ensures x / y >= 1.0
  {
    var q := x / y;
    assert q * y == x && (1.0 - q) * y == y - x;
    if q < 1.0 {
      MulPositive(1.0 - q, y);
      assert false;
    }
  }

  lemma ScoreGrowsWithRadius(d: real, r: real, s: real)
    requires (r == 50.0 || r == 120.0 || r == 250.0) && (s == 50.0 || s == 120.0 || s == 250.0) && r <= s
    ensures Score(d, r) <= Score(d, s)
  {
  }

  /** A stronger earthquake at the same place loses no candidate and lowers no score. */
  lemma {:induction false} StrongerNeverLess(km: Distance, e: Event, stronger: real, f: Facility, now: int)
    requires e.severity.Some? && e.severity.value <= stronger
    requires Affects(km, e, f)
    ensures var e' := e.(severity := Some(stronger));
            && Affects(km, e', f)
            && CandidateFor(km, e, f, now).impactId == CandidateFor(km, e', f, now).impactId
            && CandidateFor(km, e, f, now).geospatialScore <= CandidateFor(km, e', f, now).geospatialScore
  {
    var e' := e.(severity := Some(stronger));
    ScoreGrowsWithRadius(DistanceTo(km, e, f).value,
      RadiusKm(e.eventType, e.severity).value, RadiusKm(e'.eventType, e'.severity).value);
  }

  /** Over a whole facility map: a stronger quake keeps every candidate and lowers none of their scores. */
  lemma {:induction false} SeverityIsMonotone(
      km: Distance, e: Event, stronger: real, facilities: map<string, Facility>, now: int)
    requires e.severity.Some? && e.severity.value <= stronger
    ensures var weak := Candidates(km, e, facilities, now);
            var strong := Candidates(km, e.(severity := Some(stronger)), facilities, now);
            && weak.Keys <= strong.Keys
            && forall id :: id in weak ==>
                 0.0 <= weak[id].geospatialScore <= strong[id].geospatialScore <= 1.0
  {
    var weak := Candidates(km, e, facilities, now);
    var strong := Candidates(km, e.(severity := Some(stronger)), facilities, now);
    forall id | id in weak
      ensures id in strong && 0.0 <= weak[id].geospatialScore <= strong[id].geospatialScore <= 1.0
    {
      StrongerNeverLess(km, e, stronger, facilities[id], now);
      ScoreRange(weak[id].distanceKm, weak[id].radiusKm);
      ScoreRange(strong[id].distanceKm, strong[id].radiusKm);
    }
  }

  /** In exact arithmetic the distance is always defined, so no facility is skipped for it. */
  lemma {:induction false} DistanceIsDefined(m: Haversine.Maths, e: Event, f: Facility)
    requires m.Valid()
    ensures DistanceTo(GreatCircle(m), e, f).Some?
  {
    Haversine.TermInUnitInterval(m, e.latitude, e.longitude, f.latitude, f.longitude);
  }

  // ---------------------------------------------------------------------------
  // Impact ids across events

  predicate EndsWith(s: string, tail: string) {
    |tail| <= |s| && s[|s| - |tail|..] == tail
  }

  /** Behind some event ids, `f` can be mistaken for `g`. */
  predicate Shadows(f: string, g: string) {
    f == ":" + g || EndsWith(f, "::" + g)
  }

  /** One impact id of two facilities: the longer facility id shadows the shorter. */
  lemma {:induction false} SharedIdShadows(e: string, f: string, d: string, g: string)
    requires ImpactId(e, f) == ImpactId(d, g) && |f| > |g|
    ensures Shadows(f, g)
  {
    var id := ImpactId(e, f);
    var n := |id| - |g|;
    assert id[n..] == g && id[n - 2..n] == "::";
    assert id[n - 2..] == "::" + g;
    assert id[|id| - |f|..] == f;
    if |f| == |g| + 1 {
      assert id[n - 1] == ':';
      assert f == ":" + g;
    } else {
      assert f[|f| - |g| - 2..] == id[n - 2..];
    }
  }

  /** A facility id that shadows another shares an impact id with it. */
  lemma ShadowCollides(f: string, g: string) returns (e: string, d: string)
    requires Shadows(f, g)
    ensures ImpactId(e, f) == ImpactId(d, g) && f != g
  {
    e := "e";
    if f == ":" + g {
      d := "e:";
      assert ImpactId(e, f) == "e:::" + g == ImpactId(d, g);
    } else {
      var front := f[..|f| - |g| - 2];
      d := "e::" + front;
      assert f == front + ("::" + g);
      assert ImpactId(e, f) == "e::" + front + "::" + g == ImpactId(d, g);
    }
  }

  /**
   * Impact ids of a set of facilities identify event and facility, whatever the event ids: exactly when
   * no facility id is another one behind a colon, or ends in another one behind two.
   */
  lemma {:induction false} ImpactIdIdentifiesIff(facilities: set<string>)
    ensures (forall e, f, d, g :: f in facilities && g in facilities && ImpactId(e, f) == ImpactId(d, g) ==>
               e == d && f == g)
            <==> (forall f, g :: f in facilities && g in facilities ==> !Shadows(f, g))
  {
    if forall f, g :: f in facilities && g in facilities ==> !Shadows(f, g) {
      forall e, f, d, g | f in facilities && g in facilities && ImpactId(e, f) == ImpactId(d, g)
        ensures e == d && f == g
      {
        if |f| > |g| {
          SharedIdShadows(e, f, d, g);
        } else if |g| > |f| {
          SharedIdShadows(d, g, e, f);
        } else {
          SameLengthSplit(e, f, d, g);
        }
      }
    } else {
      var f, g :| f in facilities && g in facilities && Shadows(f, g);
      var e, d := ShadowCollides(f, g);
    }
  }

  lemma SameLengthSplit(e: string, f: string, d: string, g: string)
    requires ImpactId(e, f) == ImpactId(d, g) && |f| == |g|
    ensures e == d && f == g
  {
    assert e == ImpactId(e, f)[..|e|] && d == ImpactId(d, g)[..|d|];
    assert f == ImpactId(e, f)[|e| + 2..] && g == ImpactId(d, g)[|d| + 2..];
  }

  lemma ShadowHasColon(f: string, g: string)
    requires Shadows(f, g)
    ensures ':' in f
  {
    if f == ":" + g {
      assert f[0] == ':';
    } else {
      assert f[|f| - |g| - 2..][0] == ("::" + g)[0];
    }
  }

  /** In particular, facility ids without a colon are told apart. */
  lemma {:induction false} ColonFreeIdsAreTold(facilities: set<string>)
    requires forall f :: f in facilities ==> ':' !in f
    ensures forall e, f, d, g :: f in facilities && g in facilities && ImpactId(e, f) == ImpactId(d, g) ==>
              e == d && f == g
  {
    forall f, g | f in facilities && g in facilities
      ensures !Shadows(f, g)
    {
      if Shadows(f, g) {
        ShadowHasColon(f, g);
      }
    }
    ImpactIdIdentifiesIff(facilities);
  }

  /** Two different pairs that share an impact id. */
  lemma ColonCollides()
    ensures ImpactId("a", "b::c") == ImpactId("a::b", "c")
  {
    assert ImpactId("a", "b::c") == "a::b::c";
    assert ImpactId("a::b", "c") == "a::b::c";
  }
}
