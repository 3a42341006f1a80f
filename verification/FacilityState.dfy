/**
 * The facility changelog and the broadcast map built from it: decoding, last-write-wins, and why
 * neither the interleaving of partitions nor log compaction changes what the map converges to.
 */
module FacilityState {
  import opened Wrappers
  import opened Sequences

  datatype Facility = Facility(
    facilityId: string, supplierId: Option<string>, latitude: real, longitude: real, status: Option<string>)

  datatype FacilityUpdate =
    | Upsert(facilityId: string, supplierId: Option<string>, latitude: real, longitude: real, status: Option<string>)
    | Tombstone(facilityId: string)
  {
    function ToFacility(): Facility
      requires Upsert?
    {
      Facility(facilityId, supplierId, latitude, longitude, status)
    }
  }

  // ---------------------------------------------------------------------------
  // Decoding

  /** A JSON value as far as the decoder looks; numbers and other scalars carry their text. */
  datatype Node = NullNode | Scalar(text: string, number: real) | ObjectNode(fields: map<string, Node>)

  /** The bytes of a Kafka key or value. */
  datatype Bytes = Absent | Malformed | Parsed(node: Node)

  datatype ConsumerRecord = ConsumerRecord(key: Bytes, value: Bytes)

  datatype IoError = IoError

  function Text(node: Node, field: string): Option<string> {
    if !node.ObjectNode? || field !in node.fields then None
    else
      match node.fields[field]
      case NullNode => None
      case Scalar(text, _) => Some(text)
      case ObjectNode(_) => Some("")
  }

  /** `path(field).asDouble()`: 0 when the field is missing or not a number. */
  function Double(node: Node, field: string): real {
    if node.ObjectNode? && field in node.fields && node.fields[field].Scalar? then node.fields[field].number else 0.0
  }

  /** The facility id in the key, or failing that in the value. */
  function ReadFacilityId(record: ConsumerRecord): Result<Option<string>, IoError> {
    if record.key.Malformed? then Err(IoError)
    else if record.key.Parsed? && Text(record.key.node, "facility_id").Some? then
      Ok(Text(record.key.node, "facility_id"))
    else
      match record.value
      case Absent => Ok(None)
      case Malformed => Err(IoError)
      case Parsed(node) => Ok(Text(node, "facility_id"))
  }

  /** The updates one record decodes to: none or one. */
  function Deserialize(record: ConsumerRecord): Result<seq<FacilityUpdate>, IoError> {
    match ReadFacilityId(record)
    case Err(e) => Err(e)
    case Ok(None) => Ok([])
    case Ok(Some(id)) =>
      match record.value
      case Absent => Ok([Tombstone(id)])
      case Malformed => Err(IoError)
      case Parsed(v) =>
        Ok([Upsert(id, Text(v, "supplier_id"), Double(v, "latitude"), Double(v, "longitude"), Text(v, "status"))])
  }

  function OptScalar(s: Option<string>): Node {
    if s.Some? then Scalar(s.value, 0.0) else NullNode
  }

  /** The record Job 3's upsert sink writes for an update: id in the key, row in the value, null to delete. */
  function Encode(u: FacilityUpdate): ConsumerRecord {
    var key := ObjectNode(map["facility_id" := Scalar(u.facilityId, 0.0)]);
    match u
    case Tombstone(_) => ConsumerRecord(Parsed(key), Absent)
    case Upsert(id, supplierId, latitude, longitude, status) =>
      ConsumerRecord(Parsed(key), Parsed(ObjectNode(map[
        "facility_id" := Scalar(id, 0.0), "supplier_id" := OptScalar(supplierId),
        "latitude" := Scalar("", latitude), "longitude" := Scalar("", longitude), "status" := OptScalar(status)])))
  }

  /** Round trip: every update is decoded from its record, and from its value alone if the key is lost. */
  lemma EncodedUpdateDecodes(u: FacilityUpdate)
    ensures Deserialize(Encode(u)) == Ok([u])
    ensures Deserialize(Encode(u).(key := Absent)) == Ok(if u.Upsert? then [u] else [])
  {
    var fields := Encode(u).key.node.fields;
    assert "facility_id" in fields && fields["facility_id"] == Scalar(u.facilityId, 0.0);
    if u.Upsert? {
      var row := Encode(u).value.node.fields;
      assert row["supplier_id"] == OptScalar(u.supplierId) && row["status"] == OptScalar(u.status);
      assert row["latitude"] == Scalar("", u.latitude) && row["longitude"] == Scalar("", u.longitude);
    }
  }

  /**
   * What a row decodes to, field by field: a missing or null text is no text, a nested one the empty text,
   * and a missing, null or nested number is 0.
   */
  lemma DecodedRow(record: ConsumerRecord, row: map<string, Node>, u: FacilityUpdate)
    requires record.value == Parsed(ObjectNode(row)) && Deserialize(record) == Ok([u])
    ensures u.Upsert?
    ensures var latitude := if "latitude" in row && row["latitude"].Scalar? then row["latitude"].number else 0.0;
            var longitude := if "longitude" in row && row["longitude"].Scalar? then row["longitude"].number else 0.0;
            u.latitude == latitude && u.longitude == longitude
    ensures u.supplierId.None? <==> "supplier_id" !in row || row["supplier_id"].NullNode?
    ensures u.supplierId.Some? ==>
              u.supplierId.value == if row["supplier_id"].Scalar? then row["supplier_id"].text else ""
    ensures u.status.None? <==> "status" !in row || row["status"].NullNode?
    ensures u.status.Some? ==> u.status.value == if row["status"].Scalar? then row["status"].text else ""
  {
    assert [u][0] == u;
  }

  /** A record decodes to nothing exactly when neither key nor value names a facility, and fails when unreadable. */
  lemma DecodesToNothingIff(record: ConsumerRecord)
    ensures Deserialize(record) == Ok([]) <==>
            && !record.key.Malformed? && !record.value.Malformed?
            && (record.key.Parsed? ==> Text(record.key.node, "facility_id").None?)
            && (record.value.Parsed? ==> Text(record.value.node, "facility_id").None?)
    ensures Deserialize(record).Err? <==> record.key.Malformed? || record.value.Malformed?
  {
  }

  /** A key that names a facility decides which facility the record is about, whatever its value. */
  lemma KeyDecidesFacility(a: ConsumerRecord, b: ConsumerRecord, u: FacilityUpdate, v: FacilityUpdate)
    requires a.key == b.key && a.key.Parsed? && Text(a.key.node, "facility_id").Some?
    requires Deserialize(a) == Ok([u]) && Deserialize(b) == Ok([v])
    ensures u.facilityId == v.facilityId
    ensures u.Tombstone? <==> a.value.Absent?
  {
    assert ReadFacilityId(a) == ReadFacilityId(b);
    assert [u][0] == u && [v][0] == v;
  }

  // ---------------------------------------------------------------------------
  // Last write wins

  function Apply(m: map<string, Facility>, u: FacilityUpdate): map<string, Facility> {
    if u.Tombstone? then m - {u.facilityId} else m[u.facilityId := u.ToFacility()]
  }

  function Fold(us: seq<FacilityUpdate>): map<string, Facility> {
    if us == [] then map[] else Apply(Fold(DropLast(us)), Last(us))
  }

  /** The last update of a facility, if there is one. */
  function LastFor(us: seq<FacilityUpdate>, id: string): Option<FacilityUpdate> {
    if us == [] then None
    else if Last(us).facilityId == id then Some(Last(us))
    else LastFor(DropLast(us), id)
  }

  /** What an update leaves for its facility. */
  function Effect(u: Option<FacilityUpdate>): Option<Facility> {
    if u.Some? && u.value.Upsert? then Some(u.value.ToFacility()) else None
  }

  function Lookup(m: map<string, Facility>, id: string): Option<Facility> {
    if id in m then Some(m[id]) else None
  }

  /** The map holds, for each facility, the effect of its last update, under the facility's own id. */
  lemma {:induction false} FoldIsLastWrite(us: seq<FacilityUpdate>, id: string)
    ensures Lookup(Fold(us), id) == Effect(LastFor(us, id))
    ensures id in Fold(us) ==> Fold(us)[id].facilityId == id
    decreases |us|
  {
    if us != [] {
      FoldIsLastWrite(DropLast(us), id);
    }
  }

  /** The last update of a facility is the one no later update of it follows. */
  lemma {:induction false} LastForIsLast(us: seq<FacilityUpdate>, i: nat)
    requires i < |us| && forall j :: i < j < |us| ==> us[j].facilityId != us[i].facilityId
    ensures LastFor(us, us[i].facilityId) == Some(us[i])
    decreases |us|
  {
    if i < |us| - 1 {
      LastForIsLast(DropLast(us), i);
    }
  }

  /**
   * After an update that is the last of its facility the map holds the facility, field by field as the
   * upsert says, or does not hold it, if it was a tombstone; a facility without an update it does not hold.
   */
  lemma {:induction false} EntryIsLastUpsert(us: seq<FacilityUpdate>, i: nat, id: string)
    requires i < |us| && us[i].facilityId == id && forall j :: i < j < |us| ==> us[j].facilityId != id
    ensures id in Fold(us) <==> us[i].Upsert?
    ensures id in Fold(us) ==>
              var f := Fold(us)[id];
              && f.facilityId == id && f.supplierId == us[i].supplierId && f.status == us[i].status
              && f.latitude == us[i].latitude && f.longitude == us[i].longitude
  {
    LastForIsLast(us, i);
    FoldIsLastWrite(us, id);
  }

  lemma {:induction false} NoUpdateNoEntry(us: seq<FacilityUpdate>, id: string)
    requires forall u :: u in us ==> u.facilityId != id
    ensures id !in Fold(us)
    decreases |us|
  {
    if us != [] {
      assert Last(us) in us && forall u :: u in DropLast(us) ==> u in us;
      NoUpdateNoEntry(DropLast(us), id);
    }
  }

  /** What a changelog leaves for one facility. */
  function Final(us: seq<FacilityUpdate>, id: string): Option<Facility> {
    Effect(LastFor(us, id))
  }

  /** Two changelogs converge to one map exactly when they leave the same for every facility. */
  lemma {:induction false} SameMapIff(us: seq<FacilityUpdate>, vs: seq<FacilityUpdate>)
    ensures Fold(us) == Fold(vs) <==> forall id :: Final(us, id) == Final(vs, id)
  {
    forall id
      ensures Final(us, id) == Lookup(Fold(us), id) && Final(vs, id) == Lookup(Fold(vs), id)
    {
      FoldIsLastWrite(us, id);
      FoldIsLastWrite(vs, id);
    }
    if forall id :: Final(us, id) == Final(vs, id) {
      forall id
        ensures Lookup(Fold(us), id) == Lookup(Fold(vs), id)
      {
        assert Final(us, id) == Final(vs, id);
      }
      SameLookups(Fold(us), Fold(vs));
    }
  }

  lemma SameLookups(m: map<string, Facility>, n: map<string, Facility>)
    requires forall id :: Lookup(m, id) == Lookup(n, id)
    ensures m == n
  {
    forall id
      ensures id in m <==> id in n
      ensures id in m ==> m[id] == n[id]
    {
      assert Lookup(m, id) == Lookup(n, id);
    }
  }

  // ---------------------------------------------------------------------------
  // Interleaving of partitions

  /** How often partition `p` has been picked. */
  function Picked(schedule: seq<nat>, p: nat): nat {
    if schedule == [] then 0 else Picked(DropLast(schedule), p) + if Last(schedule) == p then 1 else 0
  }

  /** Every pick finds an unread record of its partition. */
  predicate Possible(logs: seq<seq<FacilityUpdate>>, schedule: seq<nat>) {
    schedule == [] ||
    (&& Possible(logs, DropLast(schedule))
     && Last(schedule) < |logs|
     && Picked(DropLast(schedule), Last(schedule)) < |logs[Last(schedule)]|)
  }

  /** The stream a consumer sees that reads one record of the picked partition at a time. */
  function Merge(logs: seq<seq<FacilityUpdate>>, schedule: seq<nat>): seq<FacilityUpdate>
    requires Possible(logs, schedule)
  {
    if schedule == [] then []
    else
      var p := Last(schedule);
      Merge(logs, DropLast(schedule)) + [logs[p][Picked(DropLast(schedule), p)]]
  }

  predicate Complete(logs: seq<seq<FacilityUpdate>>, schedule: seq<nat>) {
    Possible(logs, schedule) && forall p: nat :: p < |logs| ==> Picked(schedule, p) == |logs[p]|
  }

  predicate Mentions(us: seq<FacilityUpdate>, id: string) {
    exists u :: u in us && u.facilityId == id
  }

  /** Updates of one facility all go to one partition. */
  ghost predicate KeyPartitioned(logs: seq<seq<FacilityUpdate>>) {
    forall p: nat, q: nat, id :: p < |logs| && q < |logs| && Mentions(logs[p], id) && Mentions(logs[q], id) ==> p == q
  }

  lemma {:induction false} NoMention(us: seq<FacilityUpdate>, id: string)
    ensures LastFor(us, id).Some? <==> Mentions(us, id)
    ensures LastFor(us, id).Some? ==> LastFor(us, id).value in us && LastFor(us, id).value.facilityId == id
    decreases |us|
  {
    if us != [] {
      NoMention(DropLast(us), id);
      assert Last(us) in us;
    }
  }

  lemma {:induction false} LastForConcat(us: seq<FacilityUpdate>, vs: seq<FacilityUpdate>, id: string)
    ensures LastFor(us + vs, id) == if LastFor(vs, id).Some? then LastFor(vs, id) else LastFor(us, id)
    decreases |vs|
  {
    if vs == [] {
      assert us + vs == us;
    } else {
      LastForConcat(us, DropLast(vs), id);
      assert DropLast(us + vs) == us + DropLast(vs);
    }
  }

  lemma LastForSnoc(us: seq<FacilityUpdate>, u: FacilityUpdate, id: string)
    ensures LastFor(us + [u], id) == if u.facilityId == id then Some(u) else LastFor(us, id)
  {
    assert DropLast(us + [u]) == us;
  }

  lemma {:induction false} PickedWithin(logs: seq<seq<FacilityUpdate>>, schedule: seq<nat>, p: nat)
    requires Possible(logs, schedule) && p < |logs|
    ensures Picked(schedule, p) <= |logs[p]|
    decreases |schedule|
  {
    if schedule != [] {
      PickedWithin(logs, DropLast(schedule), p);
    }
  }

  /** In a merge, a facility's last update is the last one read from its own partition. */
  lemma {:induction false} LastInMerge(logs: seq<seq<FacilityUpdate>>, schedule: seq<nat>, home: nat, id: string)
    requires Possible(logs, schedule) && home < |logs|
    requires forall p: nat :: p < |logs| && Mentions(logs[p], id) ==> p == home
    ensures Picked(schedule, home) <= |logs[home]|
    ensures LastFor(Merge(logs, schedule), id) == LastFor(logs[home][..Picked(schedule, home)], id)
    decreases |schedule|
  {
    PickedWithin(logs, schedule, home);
    if schedule != [] {
      var before, p := DropLast(schedule), Last(schedule);
      LastInMerge(logs, before, home, id);
      var u := logs[p][Picked(before, p)];
      var merged := Merge(logs, schedule);
      assert DropLast(merged) == Merge(logs, before) && Last(merged) == u;
      assert u in logs[p];
      assert Mentions(logs[p], u.facilityId);
      if p == home {
        var prefix := logs[home][..Picked(schedule, home)];
        assert DropLast(prefix) == logs[home][..Picked(before, home)] && Last(prefix) == u;
      }
    }
  }

  /** The partition of a facility; any partition will do for one that is never mentioned. */
  lemma Home(logs: seq<seq<FacilityUpdate>>, id: string) returns (home: nat)
    requires KeyPartitioned(logs) && logs != []
    ensures home < |logs|
    ensures forall p: nat :: p < |logs| && Mentions(logs[p], id) ==> p == home
  {
    if p: nat :| p < |logs| && Mentions(logs[p], id) {
      home := p;
    } else {
      home := 0;
    }
  }

  /** `bs` leaves every facility as `us` does, and is about no other facility. */
  ghost predicate Condenses(bs: seq<FacilityUpdate>, us: seq<FacilityUpdate>) {
    Fold(bs) == Fold(us) && forall id :: Mentions(bs, id) ==> Mentions(us, id)
  }

  /** Partitions that mention a facility leave the same for it. */
  ghost predicate Agree(logs: seq<seq<FacilityUpdate>>) {
    forall p: nat, q: nat, id :: p < |logs| && q < |logs| && Mentions(logs[p], id) && Mentions(logs[q], id)
      ==> Final(logs[p], id) == Final(logs[q], id)
  }

  /** What a schedule has read of one partition. */
  function ReadFrom(logs: seq<seq<FacilityUpdate>>, schedule: seq<nat>, p: nat): seq<FacilityUpdate>
    requires Possible(logs, schedule) && p < |logs|
  {
    PickedWithin(logs, schedule, p);
    logs[p][..Picked(schedule, p)]
  }

  lemma ReadStep(logs: seq<seq<FacilityUpdate>>, schedule: seq<nat>, p: nat, id: string)
    requires schedule != [] && Possible(logs, schedule) && p < |logs|
    ensures var before, q := DropLast(schedule), Last(schedule);
            var u := logs[q][Picked(before, q)];
            LastFor(ReadFrom(logs, schedule, p), id)
              == if q == p && u.facilityId == id then Some(u) else LastFor(ReadFrom(logs, before, p), id)
  {
    var before, q := DropLast(schedule), Last(schedule);
    if q == p {
      assert ReadFrom(logs, schedule, p) == ReadFrom(logs, before, p) + [logs[q][Picked(before, q)]];
      LastForSnoc(ReadFrom(logs, before, p), logs[q][Picked(before, q)], id);
    }
  }

  /** In a merge, a facility's last update is the last one read from some partition. */
  lemma {:induction false} LastFromSome(logs: seq<seq<FacilityUpdate>>, schedule: seq<nat>, id: string)
    requires Possible(logs, schedule)
    ensures var last := LastFor(Merge(logs, schedule), id);
            && (last.Some? ==> exists p: nat :: p < |logs| && last == LastFor(ReadFrom(logs, schedule, p), id))
            && (last.None? ==> forall p: nat :: p < |logs| ==> LastFor(ReadFrom(logs, schedule, p), id).None?)
    decreases |schedule|
  {
    if schedule != [] {
      var before, q := DropLast(schedule), Last(schedule);
      var u := logs[q][Picked(before, q)];
      LastFromSome(logs, before, id);
      LastForSnoc(Merge(logs, before), u, id);
      forall p: nat | p < |logs|
        ensures LastFor(ReadFrom(logs, schedule, p), id)
             == if q == p && u.facilityId == id then Some(u) else LastFor(ReadFrom(logs, before, p), id)
      {
        ReadStep(logs, schedule, p, id);
      }
      if u.facilityId == id {
        assert LastFor(Merge(logs, schedule), id) == LastFor(ReadFrom(logs, schedule, q), id);
      } else if LastFor(Merge(logs, before), id).Some? {
        var p: nat :| p < |logs| && LastFor(Merge(logs, before), id) == LastFor(ReadFrom(logs, before, p), id);
        assert LastFor(Merge(logs, schedule), id) == LastFor(ReadFrom(logs, schedule, p), id);
      }
    }
  }

  lemma CompleteReadsAll(logs: seq<seq<FacilityUpdate>>, schedule: seq<nat>, p: nat)
    requires Complete(logs, schedule) && p < |logs|
    ensures ReadFrom(logs, schedule, p) == logs[p]
  {
  }

  /** What any complete schedule leaves for a facility is what the partitions that mention it agree on. */
  lemma {:induction false} AgreedFinal(logs: seq<seq<FacilityUpdate>>, schedule: seq<nat>, id: string)
    requires Agree(logs) && Complete(logs, schedule)
    ensures forall p: nat :: p < |logs| && Mentions(logs[p], id) ==>
              Final(Merge(logs, schedule), id) == Final(logs[p], id)
    ensures (forall p: nat :: p < |logs| ==> !Mentions(logs[p], id)) ==> Final(Merge(logs, schedule), id) == None
  {
    LastFromSome(logs, schedule, id);
    forall p: nat | p < |logs|
      ensures LastFor(ReadFrom(logs, schedule, p), id) == LastFor(logs[p], id)
      ensures LastFor(logs[p], id).Some? <==> Mentions(logs[p], id)
    {
      CompleteReadsAll(logs, schedule, p);
      NoMention(logs[p], id);
    }
  }

  /**
   * Convergence: read the partitions in any order, each condensed in any way that keeps every
   * facility's last effect, and the broadcast map at the end is the same.
   */
  lemma {:induction false} Converges(
      logs: seq<seq<FacilityUpdate>>, schedule: seq<nat>, condensed: seq<seq<FacilityUpdate>>, schedule': seq<nat>)
    requires Agree(logs) && |logs| == |condensed|
    requires forall p: nat :: p < |logs| ==> Condenses(condensed[p], logs[p])
    requires Complete(logs, schedule) && Complete(condensed, schedule')
    ensures Fold(Merge(logs, schedule)) == Fold(Merge(condensed, schedule'))
  {
    forall p: nat, id | p < |logs|
      ensures Final(condensed[p], id) == Final(logs[p], id)
      ensures Mentions(condensed[p], id) ==> Mentions(logs[p], id)
      ensures !Mentions(condensed[p], id) ==> Final(condensed[p], id) == None
    {
      assert Condenses(condensed[p], logs[p]);
      SameMapIff(logs[p], condensed[p]);
      NoMention(condensed[p], id);
    }
    assert Agree(condensed);
    forall id
      ensures Final(Merge(logs, schedule), id) == Final(Merge(condensed, schedule'), id)
    {
      AgreedFinal(logs, schedule, id);
      AgreedFinal(condensed, schedule', id);
    }
    SameMapIff(Merge(logs, schedule), Merge(condensed, schedule'));
  }

  /** Updates of one facility in one partition agree trivially. */
  lemma KeyPartitionedAgrees(logs: seq<seq<FacilityUpdate>>)
    requires KeyPartitioned(logs)
    ensures Agree(logs)
  {
  }

  // ---------------------------------------------------------------------------
  // Exactly when the order of reading does not matter

  lemma ReadOne(logs: seq<seq<FacilityUpdate>>, schedule: seq<nat>, p: nat)
    requires Possible(logs, schedule) && p < |logs| && Picked(schedule, p) < |logs[p]|
    ensures var longer := schedule + [p];
            && Possible(logs, longer)
            && (forall q: nat :: Picked(longer, q) == Picked(schedule, q) + if q == p then 1 else 0)
            && Merge(logs, longer) == Merge(logs, schedule) + [logs[p][Picked(schedule, p)]]
  {
    assert DropLast(schedule + [p]) == schedule;
  }

  /** Reading the first `n` records of a partition not read before. */
  lemma {:induction false} ReadSome(logs: seq<seq<FacilityUpdate>>, schedule: seq<nat>, p: nat, n: nat)
    returns (longer: seq<nat>)
    requires Possible(logs, schedule) && p < |logs| && Picked(schedule, p) == 0 && n <= |logs[p]|
    ensures Possible(logs, longer)
    ensures forall q: nat :: Picked(longer, q) == if q == p then n else Picked(schedule, q)
    ensures Merge(logs, longer) == Merge(logs, schedule) + logs[p][..n]
  {
    if n == 0 {
      longer := schedule;
    } else {
      var before := ReadSome(logs, schedule, p, n - 1);
      ReadOne(logs, before, p);
      longer := before + [p];
      AppendAssociates(Merge(logs, schedule), logs[p], n - 1);
    }
  }

  lemma AppendAssociates(merged: seq<FacilityUpdate>, us: seq<FacilityUpdate>, n: nat)
    requires n < |us|
    ensures merged + us[..n] + [us[n]] == merged + us[..n + 1]
  {
  }

  /** A schedule that reads the first `m` partitions whole, but not `p`. */
  lemma {:induction false} ReadOthers(logs: seq<seq<FacilityUpdate>>, p: nat, m: nat) returns (schedule: seq<nat>)
    requires m <= |logs|
    ensures Possible(logs, schedule)
    ensures forall q: nat :: Picked(schedule, q) == if q < m && q != p then |logs[q]| else 0
  {
    if m == 0 {
      schedule := [];
    } else {
      var before := ReadOthers(logs, p, m - 1);
      if m - 1 == p {
        schedule := before;
      } else {
        schedule := ReadSome(logs, before, m - 1, |logs[m - 1]|);
      }
    }
  }

  /** A complete schedule that reads partition `p` last: it decides about every facility it mentions. */
  lemma {:induction false} ReadLast(logs: seq<seq<FacilityUpdate>>, p: nat, id: string) returns (schedule: seq<nat>)
    requires p < |logs| && Mentions(logs[p], id)
    ensures Complete(logs, schedule) && Final(Merge(logs, schedule), id) == Final(logs[p], id)
  {
    var others := ReadOthers(logs, p, |logs|);
    schedule := ReadSome(logs, others, p, |logs[p]|);
    assert logs[p][..|logs[p]|] == logs[p];
    LastForConcat(Merge(logs, others), logs[p], id);
    NoMention(logs[p], id);
  }

  /** Every way of reading the partitions to the end leaves one and the same map. */
  ghost predicate OrderDoesNotMatter(logs: seq<seq<FacilityUpdate>>) {
    forall schedule, schedule' :: Complete(logs, schedule) && Complete(logs, schedule')
      ==> Fold(Merge(logs, schedule)) == Fold(Merge(logs, schedule'))
  }

  /**
   * All complete readings leave one map, exactly when any two partitions that mention a facility leave
   * the same for it. Keeping each facility in one partition is the way the topics ensure it.
   */
  lemma {:induction false} OrderDoesNotMatterIff(logs: seq<seq<FacilityUpdate>>)
    ensures OrderDoesNotMatter(logs) <==> Agree(logs)
  {
    if Agree(logs) {
      forall schedule, schedule' | Complete(logs, schedule) && Complete(logs, schedule')
        ensures Fold(Merge(logs, schedule)) == Fold(Merge(logs, schedule'))
      {
        Converges(logs, schedule, logs, schedule');
      }
    }
    if OrderDoesNotMatter(logs) {
      forall p: nat, q: nat, id | p < |logs| && q < |logs| && Mentions(logs[p], id) && Mentions(logs[q], id)
        ensures Final(logs[p], id) == Final(logs[q], id)
      {
        var first := ReadLast(logs, p, id);
        var second := ReadLast(logs, q, id);
        assert Fold(Merge(logs, first)) == Fold(Merge(logs, second));
        SameMapIff(Merge(logs, first), Merge(logs, second));
      }
    }
  }

  /** Two consumers that have read equally far in every partition hold the same map. */
  lemma {:induction false} SameProgressSameMap(logs: seq<seq<FacilityUpdate>>, schedule: seq<nat>, schedule': seq<nat>)
    requires KeyPartitioned(logs) && logs != [] && Possible(logs, schedule) && Possible(logs, schedule')
    requires forall p: nat :: p < |logs| ==> Picked(schedule, p) == Picked(schedule', p)
    ensures Fold(Merge(logs, schedule)) == Fold(Merge(logs, schedule'))
  {
    forall id
      ensures Final(Merge(logs, schedule), id) == Final(Merge(logs, schedule'), id)
    {
      var home := Home(logs, id);
      LastInMerge(logs, schedule, home, id);
      LastInMerge(logs, schedule', home, id);
    }
    SameMapIff(Merge(logs, schedule), Merge(logs, schedule'));
  }

  /** Two one-record partitions, read one after the other. */
  lemma ReadBoth(logs: seq<seq<FacilityUpdate>>, p: nat, q: nat)
    requires |logs| == 2 && |logs[0]| == 1 && |logs[1]| == 1 && p < 2 && q < 2 && p != q
    ensures Complete(logs, [p, q]) && Merge(logs, [p, q]) == [logs[p][0], logs[q][0]]
  {
    var one, two := [p], [p, q];
    assert DropLast(one) == [] && DropLast(two) == one;
    assert Possible(logs, []) && Possible(logs, one);
    assert Picked([], p) == 0 && Picked([], q) == 0;
    assert Picked(one, p) == Picked(DropLast(one), p) + 1 && Picked(one, q) == Picked(DropLast(one), q);
    assert Picked(two, p) == Picked(DropLast(two), p) && Picked(two, q) == Picked(DropLast(two), q) + 1;
    assert Merge(logs, one) == [logs[p][0]];
  }

  /** Without key partitioning the order decides: two updates of one facility in two partitions. */
  lemma SplitFacilityDiverges(u: FacilityUpdate, v: FacilityUpdate)
    requires u.facilityId == v.facilityId && Effect(Some(u)) != Effect(Some(v))
    ensures Complete([[u], [v]], [0, 1]) && Complete([[u], [v]], [1, 0])
    ensures Fold(Merge([[u], [v]], [0, 1])) != Fold(Merge([[u], [v]], [1, 0]))
  {
    ReadBoth([[u], [v]], 0, 1);
    ReadBoth([[u], [v]], 1, 0);
    FoldIsLastWrite([u, v], u.facilityId);
    FoldIsLastWrite([v, u], u.facilityId);
  }

  // ---------------------------------------------------------------------------
  // Compaction

  /** A facility's last update, before and after one record is removed. */
  lemma LastForAround(us: seq<FacilityUpdate>, i: nat, k: string)
    requires i < |us|
    ensures var front, back := us[..i], us[i + 1..];
            && LastFor(us, k) == (if LastFor(back, k).Some? then LastFor(back, k)
                                  else if k == us[i].facilityId then Some(us[i]) else LastFor(front, k))
            && LastFor(RemoveAt(us, i), k) == if LastFor(back, k).Some? then LastFor(back, k) else LastFor(front, k)
  {
    var front, back := us[..i], us[i + 1..];
    assert us == front + ([us[i]] + back);
    LastForConcat(front, [us[i]] + back, k);
    LastForConcat([us[i]], back, k);
    LastForConcat(front, back, k);
    assert DropLast([us[i]]) == [];
    assert LastFor([us[i]], k) == if k == us[i].facilityId then Some(us[i]) else None;
  }

  /**
   * Removing one record leaves the map unchanged exactly when a later record of the same facility
   * supersedes it, or when it repeats the effect of what precedes it.
   */
  lemma {:induction false} RemovalIsInvisibleIff(us: seq<FacilityUpdate>, i: nat)
    requires i < |us|
    ensures Fold(RemoveAt(us, i)) == Fold(us) <==>
            || Mentions(us[i + 1..], us[i].facilityId)
            || Final(us[..i], us[i].facilityId) == Effect(Some(us[i]))
  {
    var id := us[i].facilityId;
    var front, back := us[..i], us[i + 1..];
    forall k
      ensures LastFor(us, k) == if LastFor(back, k).Some? then LastFor(back, k)
                                else if k == id then Some(us[i]) else LastFor(front, k)
      ensures LastFor(RemoveAt(us, i), k) == if LastFor(back, k).Some? then LastFor(back, k) else LastFor(front, k)
    {
      LastForAround(us, i, k);
    }
    NoMention(back, id);
    SameMapIff(RemoveAt(us, i), us);
    if Mentions(back, id) || Final(front, id) == Effect(Some(us[i])) {
      forall k
        ensures Final(RemoveAt(us, i), k) == Final(us, k)
      {
      }
    } else {
      assert Final(RemoveAt(us, i), id) != Final(us, id);
    }
  }

  datatype LogStep = Append(u: FacilityUpdate) | Compact(i: nat)

  /** The broker's rule: a record goes when superseded, a tombstone also when nothing older is left. */
  predicate Compactable(log: seq<FacilityUpdate>, i: nat) {
    && i < |log|
    && (|| Mentions(log[i + 1..], log[i].facilityId)
        || (log[i].Tombstone? && !Mentions(log[..i], log[i].facilityId)))
  }

  /** The log after one append or compaction; `None` if the compaction breaks the rule. */
  function LogNext(log: seq<FacilityUpdate>, step: LogStep): Option<seq<FacilityUpdate>> {
    match step
    case Append(u) => Some(log + [u])
    case Compact(i) => if Compactable(log, i) then Some(RemoveAt(log, i)) else None
  }

  function LogAfter(steps: seq<LogStep>): Option<seq<FacilityUpdate>> {
    if steps == [] then Some([])
    else
      match LogAfter(DropLast(steps))
      case None => None
      case Some(log) => LogNext(log, Last(steps))
  }

  /** Any update can be appended to a log, and what a later one of its facility overwrites can be removed from it. */
  lemma {:induction false} LogGrowsAndShrinks(steps: seq<LogStep>, log: seq<FacilityUpdate>, u: FacilityUpdate, i: nat)
    requires LogAfter(steps) == Some(log)
    ensures LogAfter([]) == Some([]) && LogAfter(steps + [Append(u)]) == Some(log + [u])
    ensures i < |log| && Mentions(log[i + 1..], log[i].facilityId) ==>
              LogAfter(steps + [Compact(i)]) == Some(log[..i] + log[i + 1..])
  {
    assert DropLast(steps + [Append(u)]) == steps && DropLast(steps + [Compact(i)]) == steps;
  }

  function Appended(steps: seq<LogStep>): seq<FacilityUpdate> {
    if steps == [] then []
    else
      match Last(steps)
      case Append(u) => Appended(DropLast(steps)) + [u]
      case Compact(_) => Appended(DropLast(steps))
  }

  /** However appends and compactions alternate, the log folds to the map of all updates appended. */
  lemma {:induction false} CompactionIsInvisible(steps: seq<LogStep>)
    requires LogAfter(steps).Some?
    ensures Fold(LogAfter(steps).value) == Fold(Appended(steps))
    decreases |steps|
  {
    if steps != [] {
      CompactionIsInvisible(DropLast(steps));
      var log := LogAfter(DropLast(steps)).value;
      match Last(steps)
      case Append(u) =>
        assert DropLast(log + [u]) == log;
        assert DropLast(Appended(DropLast(steps)) + [u]) == Appended(DropLast(steps));
      case Compact(i) =>
        NoMention(log[..i], log[i].facilityId);
        RemovalIsInvisibleIff(log, i);
    }
  }

  /** A log never mentions a facility no update was appended for. */
  lemma {:induction false} LogCondensesAppended(steps: seq<LogStep>)
    requires LogAfter(steps).Some?
    ensures Condenses(LogAfter(steps).value, Appended(steps))
    decreases |steps|
  {
    CompactionIsInvisible(steps);
    if steps != [] {
      LogCondensesAppended(DropLast(steps));
      var log := LogAfter(DropLast(steps)).value;
      forall id | Mentions(LogAfter(steps).value, id)
        ensures Mentions(Appended(steps), id)
      {
        var u :| u in LogAfter(steps).value && u.facilityId == id;
        if u in log {
          assert Mentions(log, id);
          var v :| v in Appended(DropLast(steps)) && v.facilityId == id;
          assert v in Appended(steps);
        } else {
          assert u in Appended(steps);
        }
      }
    }
  }

  /** The uncompacted logs of some partition histories. */
  function AllAppended(histories: seq<seq<LogStep>>): (logs: seq<seq<FacilityUpdate>>)
    ensures |logs| == |histories|
    ensures forall p :: 0 <= p < |histories| ==> logs[p] == Appended(histories[p])
  {
    if histories == [] then [] else AllAppended(DropLast(histories)) + [Appended(Last(histories))]
  }

  /**
   * A consumer that reads the compacted partitions, in whatever interleaving, ends with the map of
   * every update ever appended, in whatever interleaving.
   */
  lemma {:induction false} CompactedPartitionsConverge(
      histories: seq<seq<LogStep>>, schedule: seq<nat>, compacted: seq<seq<FacilityUpdate>>, schedule': seq<nat>)
    requires Agree(AllAppended(histories)) && |compacted| == |histories|
    requires forall p: nat :: p < |histories| ==> LogAfter(histories[p]) == Some(compacted[p])
    requires Complete(AllAppended(histories), schedule) && Complete(compacted, schedule')
    ensures Fold(Merge(compacted, schedule')) == Fold(Merge(AllAppended(histories), schedule))
  {
    forall p: nat | p < |histories|
      ensures Condenses(compacted[p], AllAppended(histories)[p])
    {
      LogCondensesAppended(histories[p]);
    }
    Converges(AllAppended(histories), schedule, compacted, schedule');
  }

  // ---------------------------------------------------------------------------
  // Readers that compaction overtakes

  /**
   * A consumer reading while the log is compacted: `pos` records of the log as it is now are behind
   * it, and it has read `seen`. The last two fields record history: every update appended, and the
   * facilities missed, those the consumer held when their tombstone was compacted away unread, until
   * their next update.
   */
  datatype Reader = Reader(
    log: seq<FacilityUpdate>, pos: nat, seen: seq<FacilityUpdate>, appended: seq<FacilityUpdate>, missed: set<string>)

  datatype ReaderStep = Change(step: LogStep) | Read

  /** Removing this record takes from the reader the only word that a facility it holds is gone. */
  predicate Overtakes(r: Reader, i: nat)
    requires i < |r.log|
  {
    && r.pos <= i && !Mentions(r.log[i + 1..], r.log[i].facilityId)
    && r.log[i].facilityId in Fold(r.seen)
  }

  function ReaderNext(r: Reader, step: ReaderStep): (next: Option<Reader>)
    requires r.pos <= |r.log|
    ensures next.Some? ==> next.value.pos <= |next.value.log|
  {
    match step
    case Read => if r.pos == |r.log| then None else Some(r.(pos := r.pos + 1, seen := r.seen + [r.log[r.pos]]))
    case Change(change) =>
      match LogNext(r.log, change)
      case None => None
      case Some(log) =>
        match change
        case Append(u) => Some(r.(log := log, appended := r.appended + [u], missed := r.missed - {u.facilityId}))
        case Compact(i) =>
          Some(r.(log := log, pos := if i < r.pos then r.pos - 1 else r.pos,
                  missed := if Overtakes(r, i) then r.missed + {r.log[i].facilityId} else r.missed))
  }

  function ReaderAfter(steps: seq<ReaderStep>): (r: Option<Reader>)
    ensures r.Some? ==> r.value.pos <= |r.value.log|
  {
    if steps == [] then Some(Reader([], 0, [], [], {}))
    else
      match ReaderAfter(DropLast(steps))
      case None => None
      case Some(r) => ReaderNext(r, Last(steps))
  }

  /** Everything the reader will have read once it has caught up with the log as it is now. */
  function WillHaveSeen(r: Reader): seq<FacilityUpdate>
    requires r.pos <= |r.log|
  {
    r.seen + r.log[r.pos..]
  }

  /** For one facility: what log and reader know of it. */
  predicate KnowsOf(r: Reader, id: string)
    requires r.pos <= |r.log|
  {
    && Final(r.log, id) == Final(r.appended, id)
    && if id in r.missed then LastFor(r.log, id).None? && Final(r.seen, id).Some?
       else Final(WillHaveSeen(r), id) == Final(r.appended, id)
  }

  lemma WillAlsoSee(r: Reader, u: FacilityUpdate)
    requires r.pos <= |r.log|
    ensures WillHaveSeen(r.(log := r.log + [u])) == WillHaveSeen(r) + [u]
  {
    assert (r.log + [u])[r.pos..] == r.log[r.pos..] + [u];
  }

  lemma {:induction false} AppendKeepsKnowing(r: Reader, u: FacilityUpdate, id: string)
    requires r.pos <= |r.log| && KnowsOf(r, id)
    ensures KnowsOf(ReaderNext(r, Change(Append(u))).value, id)
  {
    LastForSnoc(r.log, u, id);
    LastForSnoc(r.appended, u, id);
    LastForSnoc(WillHaveSeen(r), u, id);
    WillAlsoSee(r, u);
  }

  lemma {:induction false} ReadKeepsKnowing(r: Reader, id: string)
    requires r.pos < |r.log| && KnowsOf(r, id)
    ensures KnowsOf(ReaderNext(r, Read).value, id)
  {
    var t := ReaderNext(r, Read).value;
    assert WillHaveSeen(t) == WillHaveSeen(r);
    assert DropLast(t.seen) == r.seen;
    NoMention(r.log, id);
    assert r.log[r.pos] in r.log;
  }

  lemma {:induction false} CompactionKeepsLog(log: seq<FacilityUpdate>, i: nat, id: string)
    requires Compactable(log, i)
    ensures Final(RemoveAt(log, i), id) == Final(log, id)
    ensures LastFor(log, id).None? ==> LastFor(RemoveAt(log, i), id).None?
  {
    LastForAround(log, i, id);
    NoMention(log[i + 1..], id);
    NoMention(log[..i], id);
  }

  lemma SliceAround(log: seq<FacilityUpdate>, pos: nat, i: nat)
    requires pos <= i < |log|
    ensures RemoveAt(log, i)[pos..] == RemoveAt(log[pos..], i - pos)
    ensures log[pos..][i - pos + 1..] == log[i + 1..] && log[pos..][i - pos] == log[i]
    ensures log[..i] == log[..pos] + log[pos..][..i - pos]
  {
  }

  /** What a reader that has not come to the removed record will have seen, before and after. */
  lemma {:induction false} CompactionAhead(r: Reader, i: nat, id: string)
    requires r.pos <= i < |r.log|
    ensures var after := r.seen + RemoveAt(r.log, i)[r.pos..];
            if id != r.log[i].facilityId || LastFor(r.log[i + 1..], id).Some?
            then LastFor(after, id) == LastFor(WillHaveSeen(r), id)
            else LastFor(r.log[..i], id).None? ==> LastFor(after, id) == LastFor(r.seen, id)
  {
    var rest := r.log[r.pos..];
    var j := i - r.pos;
    SliceAround(r.log, r.pos, i);
    LastForAround(rest, j, id);
    LastForConcat(r.seen, rest, id);
    LastForConcat(r.seen, RemoveAt(rest, j), id);
    LastForConcat(r.log[..r.pos], rest[..j], id);
  }

  lemma SliceBehind(log: seq<FacilityUpdate>, pos: nat, i: nat)
    requires i < pos <= |log|
    ensures RemoveAt(log, i)[pos - 1..] == log[pos..]
  {
  }

  /** A compaction behind the reader changes nothing for it. */
  lemma CompactBehind(r: Reader, i: nat)
    requires i < r.pos <= |r.log| && Compactable(r.log, i)
    ensures var t := ReaderNext(r, Change(Compact(i))).value;
            && t == r.(log := RemoveAt(r.log, i), pos := r.pos - 1)
            && WillHaveSeen(t) == WillHaveSeen(r)
  {
    SliceBehind(r.log, r.pos, i);
  }

  lemma {:induction false} CompactBehindKeepsKnowing(r: Reader, i: nat, id: string)
    requires i < r.pos <= |r.log| && KnowsOf(r, id) && Compactable(r.log, i)
    ensures KnowsOf(ReaderNext(r, Change(Compact(i))).value, id)
  {
    CompactBehind(r, i);
    CompactionKeepsLog(r.log, i, id);
  }

  lemma CompactAhead(r: Reader, i: nat)
    requires r.pos <= i < |r.log| && Compactable(r.log, i)
    ensures var t := ReaderNext(r, Change(Compact(i))).value;
            && t == r.(log := RemoveAt(r.log, i), missed := t.missed)
            && t.missed == (if Overtakes(r, i) then r.missed + {r.log[i].facilityId} else r.missed)
            && WillHaveSeen(t) == r.seen + RemoveAt(r.log, i)[r.pos..]
  {
  }

  lemma {:induction false} CompactAheadKeepsKnowing(r: Reader, i: nat, id: string)
    requires r.pos <= i < |r.log| && KnowsOf(r, id) && Compactable(r.log, i)
    ensures KnowsOf(ReaderNext(r, Change(Compact(i))).value, id)
  {
    CompactAhead(r, i);
    CompactionKeepsLog(r.log, i, id);
    CompactionAhead(r, i, id);
    NoMention(r.log[i + 1..], id);
    NoMention(r.log[..i], id);
    LastForAround(r.log, i, id);
    FoldIsLastWrite(r.seen, id);
  }

  lemma {:induction false} CompactKeepsKnowing(r: Reader, i: nat, id: string)
    requires r.pos <= |r.log| && KnowsOf(r, id) && Compactable(r.log, i)
    ensures KnowsOf(ReaderNext(r, Change(Compact(i))).value, id)
  {
    if i < r.pos {
      CompactBehindKeepsKnowing(r, i, id);
    } else {
      CompactAheadKeepsKnowing(r, i, id);
    }
  }

  lemma {:induction false} ReaderKnows(steps: seq<ReaderStep>, id: string)
    requires ReaderAfter(steps).Some?
    ensures KnowsOf(ReaderAfter(steps).value, id)
    decreases |steps|
  {
    if steps != [] {
      ReaderKnows(DropLast(steps), id);
      var r := ReaderAfter(DropLast(steps)).value;
      match Last(steps)
      case Read => ReadKeepsKnowing(r, id);
      case Change(Append(u)) => AppendKeepsKnowing(r, u, id);
      case Change(Compact(i)) => CompactKeepsKnowing(r, i, id);
    }
  }

  /**
   * A reader concurrent with compaction, however appends, compactions and reads alternate: once it has
   * caught up its map is that of every update ever appended, exactly when it missed no facility.
   */
  lemma {:induction false} OvertakenReaderConvergesIff(steps: seq<ReaderStep>)
    requires ReaderAfter(steps).Some?
    ensures var r := ReaderAfter(steps).value;
            Fold(WillHaveSeen(r)) == Fold(r.appended) <==> r.missed == {}
  {
    var r := ReaderAfter(steps).value;
    forall id
      ensures KnowsOf(r, id)
    {
      ReaderKnows(steps, id);
    }
    SameMapIff(WillHaveSeen(r), r.appended);
    if r.missed == {} {
      forall id
        ensures Final(WillHaveSeen(r), id) == Final(r.appended, id)
      {
        assert KnowsOf(r, id);
      }
    } else {
      var id :| id in r.missed;
      assert KnowsOf(r, id);
      NoMention(r.log, id);
      NoMention(r.log[r.pos..], id);
      LastForConcat(r.seen, r.log[r.pos..], id);
      assert Final(WillHaveSeen(r), id) != Final(r.appended, id);
    }
  }

  lemma OneMoreStep(steps: seq<ReaderStep>, r: Reader, step: ReaderStep, next: Reader)
    returns (longer: seq<ReaderStep>)
    requires ReaderAfter(steps) == Some(r) && r.pos <= |r.log| && ReaderNext(r, step) == Some(next)
    ensures longer == steps + [step] && ReaderAfter(longer) == Some(next)
  {
    longer := steps + [step];
    assert DropLast(longer) == steps;
  }

  /** The reader takes the upsert, and then the tombstone is appended behind its back. */
  lemma ReadThenDelete(u: FacilityUpdate, gone: FacilityUpdate) returns (steps: seq<ReaderStep>)
    requires u.facilityId == gone.facilityId
    ensures steps == [Change(Append(u)), Read, Change(Append(gone))]
    ensures ReaderAfter(steps) == Some(Reader([u, gone], 1, [u], [u, gone], {}))
  {
    var none: set<string> := {};
    var empty: seq<FacilityUpdate> := [];
    assert none - {u.facilityId} == none && empty + [u] == [u];
    steps := OneMoreStep([], Reader([], 0, [], [], {}), Change(Append(u)), Reader([u], 0, [], [u], {}));
    steps := OneMoreStep(steps, Reader([u], 0, [], [u], {}), Read, Reader([u], 1, [u], [u], {}));
    assert [u] + [gone] == [u, gone];
    steps := OneMoreStep(steps, Reader([u], 1, [u], [u], {}), Change(Append(gone)),
                         Reader([u, gone], 1, [u], [u, gone], {}));
  }

  /** The upsert goes because it is superseded, and then the tombstone because nothing older is left. */
  lemma BothGo(r: Reader, u: FacilityUpdate, gone: FacilityUpdate)
    requires u.facilityId == gone.facilityId && gone.Tombstone? && gone.facilityId in Fold(r.seen)
    requires r.log == [u, gone] && r.pos == 1 && r.missed == {}
    ensures ReaderNext(r, Change(Compact(0))) == Some(r.(log := [gone], pos := 0))
    ensures ReaderNext(r.(log := [gone], pos := 0), Change(Compact(0)))
         == Some(r.(log := [], pos := 0, missed := {u.facilityId}))
  {
    assert r.log[1..] == [gone] && gone in r.log[1..];
    assert RemoveAt(r.log, 0) == [gone] && RemoveAt([gone], 0) == [];
    assert [gone][1..] == [] && [gone][..0] == [];
    assert r.missed + {u.facilityId} == {u.facilityId};
  }

  lemma HoldsWhatIsGone(u: FacilityUpdate, gone: FacilityUpdate)
    requires u.Upsert? && gone == Tombstone(u.facilityId)
    ensures u.facilityId in Fold([u]) && u.facilityId !in Fold([u, gone])
  {
    LastForSnoc([], u, u.facilityId);
    LastForSnoc([u], gone, u.facilityId);
    assert [] + [u] == [u] && [u] + [gone] == [u, gone];
    FoldIsLastWrite([u], u.facilityId);
    FoldIsLastWrite([u, gone], u.facilityId);
  }

  lemma BothCompacted(u: FacilityUpdate, gone: FacilityUpdate) returns (steps: seq<ReaderStep>)
    requires u.Upsert? && gone == Tombstone(u.facilityId)
    ensures steps == [Change(Append(u)), Read, Change(Append(gone))] + [Change(Compact(0))] + [Change(Compact(0))]
    ensures ReaderAfter(steps) == Some(Reader([], 0, [u], [u, gone], {u.facilityId}))
  {
    var r3 := Reader([u, gone], 1, [u], [u, gone], {});
    var r4 := Reader([gone], 0, [u], [u, gone], {});
    var r5 := Reader([], 0, [u], [u, gone], {u.facilityId});
    HoldsWhatIsGone(u, gone);
    BothGo(r3, u, gone);
    steps := ReadThenDelete(u, gone);
    steps := OneMoreStep(steps, r3, Change(Compact(0)), r4);
    steps := OneMoreStep(steps, r4, Change(Compact(0)), r5);
  }

  /** A reader that pauses after an upsert while upsert and tombstone are compacted keeps the facility. */
  lemma PausedReaderMissesDelete(u: FacilityUpdate) returns (steps: seq<ReaderStep>)
    requires u.Upsert?
    ensures steps == [Change(Append(u)), Read, Change(Append(Tombstone(u.facilityId)))]
                     + [Change(Compact(0))] + [Change(Compact(0))]
    ensures ReaderAfter(steps).Some?
    ensures var r := ReaderAfter(steps).value;
            && r.log == [] && u.facilityId in Fold(WillHaveSeen(r)) && u.facilityId !in Fold(r.appended)
  {
    var gone := Tombstone(u.facilityId);
    steps := BothCompacted(u, gone);
    HoldsWhatIsGone(u, gone);
    assert WillHaveSeen(Reader([], 0, [u], [u, gone], {u.facilityId})) == [u];
  }
}
