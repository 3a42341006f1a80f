/** The operational simulator: stock consumed with rounding, shipments advanced through their lifecycle. */
module Simulator {
  import opened RealArithmetic
  import opened Wrappers
  import opened Sequences

  // ---------------------------------------------------------------------------
  // Stock

  datatype Inventory = Inventory(key: string, quantityOnHand: real, averageDailyUsage: real, updatedAt: int)

  /** What one tick consumes; `jitter` is the random factor between 0.6 and 1.4. */
  function Consumption(averageDailyUsage: real, tickSeconds: real, jitter: real): real {
    averageDailyUsage * (tickSeconds / 86400.0) * jitter
  }

  /** On-hand quantity after consuming `amount`, never below zero. */
  function Consume(quantity: real, amount: real): real {
    if quantity - amount < 0.0 then 0.0 else quantity - amount
  }

  /** Rounds to four decimals, halves to even. */
  function Round4(x: real): real {
    RoundHalfEven(x * 10000.0) as real / 10000.0
  }

  function RoundHalfEven(y: real): int {
    var rest := y - y.Floor as real;
    if rest < 0.5 || (rest == 0.5 && y.Floor % 2 == 0) then y.Floor else y.Floor + 1
  }

  predicate OnGrid(x: real) {
    (x * 10000.0).Floor as real == x * 10000.0
  }

  lemma RoundBounds(x: real)
    ensures OnGrid(Round4(x))
    ensures -1.0 / 20000.0 <= Round4(x) - x <= 1.0 / 20000.0
    ensures forall g :: OnGrid(g) && x <= g ==> Round4(x) <= g
    ensures x >= 0.0 ==> Round4(x) >= 0.0
  {
    var y := x * 10000.0;
    var k := RoundHalfEven(y);
    assert Round4(x) * 10000.0 == k as real;
    assert (k as real).Floor == k;
  }

  /** Rounding goes to the nearest integer; where two are equally near, to the even one. */
  lemma RoundsToNearestEven(y: real, k: int)
    ensures -0.5 <= RoundHalfEven(y) as real - y <= 0.5
    ensures k == RoundHalfEven(y) <==>
              -0.5 < k as real - y < 0.5 || ((k as real - y == 0.5 || k as real - y == -0.5) && k % 2 == 0)
  {
    assert k as real - y == 0.5 ==> k == y.Floor + 1;
    assert k as real - y == -0.5 ==> k == y.Floor;
  }

  /** A tick's consumption is the pro-rated daily usage, give or take 40 per cent, and never negative. */
  lemma ConsumptionRange(averageDailyUsage: real, tickSeconds: real, jitter: real)
    requires averageDailyUsage >= 0.0 && tickSeconds >= 0.0 && 0.6 <= jitter <= 1.4
    ensures var proRated := averageDailyUsage * (tickSeconds / 86400.0);
            0.0 <= 0.6 * proRated <= Consumption(averageDailyUsage, tickSeconds, jitter) <= 1.4 * proRated
    ensures Consumption(averageDailyUsage, 86400.0, 1.0) == averageDailyUsage
    ensures Consumption(averageDailyUsage, tickSeconds, jitter)
         == jitter * Consumption(averageDailyUsage, tickSeconds, 1.0)
  {
    MulNonNegative(averageDailyUsage, tickSeconds / 86400.0);
    var proRated := averageDailyUsage * (tickSeconds / 86400.0);
    MulMonotone(proRated, 0.6, jitter);
    MulMonotone(proRated, jitter, 1.4);
  }

  /** Stock after a series of consumptions, rounded after each as it is stored. */
  function Stock(start: real, amounts: seq<real>): real {
    if amounts == [] then start else Round4(Consume(Stock(start, DropLast(amounts)), Last(amounts)))
  }

  /** The same without rounding. */
  function ExactStock(start: real, amounts: seq<real>): real {
    if amounts == [] then start else Consume(ExactStock(start, DropLast(amounts)), Last(amounts))
  }

  predicate NonNegative(amounts: seq<real>) {
    forall i :: 0 <= i < |amounts| ==> amounts[i] >= 0.0
  }

  function Sum(amounts: seq<real>): real {
    if amounts == [] then 0.0 else Sum(DropLast(amounts)) + Last(amounts)
  }

  lemma {:induction false} SumIsNonNegative(amounts: seq<real>)
    requires NonNegative(amounts)
    ensures Sum(amounts) >= 0.0
    decreases |amounts|
  {
    if amounts != [] {
      SumIsNonNegative(DropLast(amounts));
    }
  }

  /** What is left after consuming amounts one by one is what is left after consuming their sum. */
  lemma {:induction false} ExactStockIsWhatIsLeft(start: real, amounts: seq<real>)
    requires start >= 0.0 && NonNegative(amounts)
    ensures ExactStock(start, amounts) == if start <= Sum(amounts) then 0.0 else start - Sum(amounts)
    decreases |amounts|
  {
    if amounts != [] {
      ExactStockIsWhatIsLeft(start, DropLast(amounts));
    }
  }

  /** The stored stock after `n` ticks is within n/20000 of the start less all consumption, or of zero. */
  lemma {:induction false} StockIsWhatIsLeft(start: real, amounts: seq<real>)
    requires start >= 0.0 && NonNegative(amounts)
    ensures var left := if start <= Sum(amounts) then 0.0 else start - Sum(amounts);
            left - |amounts| as real / 20000.0 <= Stock(start, amounts) <= left + |amounts| as real / 20000.0
  {
    ExactStockIsWhatIsLeft(start, amounts);
    RoundingDrift(start, amounts);
  }

  /** Stock stays on the grid, never goes below zero, and never rises, whatever the rounding does. */
  lemma {:induction false} StockIsSound(start: real, amounts: seq<real>)
    requires OnGrid(start) && start >= 0.0 && NonNegative(amounts)
    ensures OnGrid(Stock(start, amounts)) && 0.0 <= Stock(start, amounts)
    ensures Stock(start, amounts) <= if amounts == [] then start else Stock(start, DropLast(amounts))
    decreases |amounts|
  {
    if amounts != [] {
      StockIsSound(start, DropLast(amounts));
      RoundBounds(Consume(Stock(start, DropLast(amounts)), Last(amounts)));
    }
  }

  /** After `n` ticks the stored stock is within n/20000 of the unrounded process on the same draws. */
  lemma {:induction false} RoundingDrift(start: real, amounts: seq<real>)
    ensures -(|amounts| as real / 20000.0) <= Stock(start, amounts) - ExactStock(start, amounts)
            <= |amounts| as real / 20000.0
    decreases |amounts|
  {
    if amounts != [] {
      RoundingDrift(start, DropLast(amounts));
      RoundBounds(Consume(Stock(start, DropLast(amounts)), Last(amounts)));
    }
  }

  // ---------------------------------------------------------------------------
  // Shipments

  datatype Status = Created | InTransit | Customs | OutForDelivery | Delivered | Cancelled | Other(name: string)

  datatype Shipment = Shipment(
    shipmentId: string, status: Status, estimatedArrivalAt: Option<real>, actualArrivalAt: Option<int>, updatedAt: int)

  datatype ShipmentEvent = ShipmentEvent(shipmentId: string, status: Status, occurredAt: int)

  function FlowNext(status: Status): Option<Status> {
    match status
    case Created => Some(InTransit)
    case InTransit => Some(Customs)
    case Customs => Some(OutForDelivery)
    case OutForDelivery => Some(Delivered)
    case Delivered => None
    case Cancelled => None
    case Other(_) => None
  }

  const ADVANCE_PROBABILITY := 0.3

  function AdvanceStatus(status: Status, draw: real): Status {
    var next := FlowNext(status);
    if next.Some? && draw < ADVANCE_PROBABILITY then next.value else status
  }

  predicate IsActive(s: Shipment) {
    !s.status.Delivered? && !s.status.Cancelled?
  }

  /** One sampled shipment and the draws made for it: minutes of ETA drift, and the advance draw. */
  datatype Touch = Touch(index: nat, driftMinutes: real, draw: real)

  datatype World = World(shipments: seq<Shipment>, events: seq<ShipmentEvent>)

  predicate Touchable(w: World, t: Touch) {
    t.index < |w.shipments| && IsActive(w.shipments[t.index])
  }

  function TouchShipment(s: Shipment, t: Touch, now: int): Shipment {
    var status := AdvanceStatus(s.status, t.draw);
    s.(estimatedArrivalAt :=
         if s.estimatedArrivalAt.Some? then Some(s.estimatedArrivalAt.value + t.driftMinutes * 60.0) else None,
       status := status,
       actualArrivalAt := if status != s.status && status.Delivered? then Some(now) else s.actualArrivalAt,
       updatedAt := now)
  }

  function TouchWorld(w: World, t: Touch, now: int): World
    requires Touchable(w, t)
  {
    var s, s' := w.shipments[t.index], TouchShipment(w.shipments[t.index], t, now);
    World(w.shipments[t.index := s'],
          if s'.status != s.status then w.events + [ShipmentEvent(s.shipmentId, s'.status, now)] else w.events)
  }

  /** The world after some touches, each of a shipment active at that moment. */
  function Progress(w: World, touches: seq<(Touch, int)>): Option<World> {
    if touches == [] then Some(w)
    else
      match Progress(w, DropLast(touches))
      case None => None
      case Some(v) =>
        if Touchable(v, Last(touches).0) then Some(TouchWorld(v, Last(touches).0, Last(touches).1)) else None
  }

  // ---------------------------------------------------------------------------
  // Lifecycle

  function Rank(status: Status): nat {
    match status
    case InTransit => 1
    case Customs => 2
    case OutForDelivery => 3
    case Delivered => 4
    case _ => 0
  }

  function RankSum(shipments: seq<Shipment>): nat {
    if shipments == [] then 0 else RankSum(DropLast(shipments)) + Rank(Last(shipments).status)
  }

  lemma {:induction false} RankSumUpdate(shipments: seq<Shipment>, i: nat, s: Shipment)
    requires i < |shipments|
    ensures RankSum(shipments[i := s]) == RankSum(shipments) - Rank(shipments[i].status) + Rank(s.status)
    decreases |shipments|
  {
    if i == |shipments| - 1 {
      assert DropLast(shipments[i := s]) == DropLast(shipments);
    } else {
      RankSumUpdate(DropLast(shipments), i, s);
      assert DropLast(shipments[i := s]) == DropLast(shipments)[i := s];
    }
  }

  /** Conservation: every inserted event is one rank gained, over any run of ticks. */
  lemma {:induction false} RanksMatchEvents(w: World, touches: seq<(Touch, int)>)
    requires Progress(w, touches).Some?
    ensures RankSum(Progress(w, touches).value.shipments) - |Progress(w, touches).value.events|
         == RankSum(w.shipments) - |w.events|
    decreases |touches|
  {
    if touches != [] {
      RanksMatchEvents(w, DropLast(touches));
      var v, t := Progress(w, DropLast(touches)).value, Last(touches).0;
      RankSumUpdate(v.shipments, t.index, TouchShipment(v.shipments[t.index], t, Last(touches).1));
    }
  }

  /** The statuses of the events of one shipment, in order. */
  function StatusesOf(events: seq<ShipmentEvent>, id: string): seq<Status> {
    if events == [] then []
    else if Last(events).shipmentId == id then StatusesOf(DropLast(events), id) + [Last(events).status]
    else StatusesOf(DropLast(events), id)
  }

  /** Each status follows the one before it in the flow, the first one `from`. */
  predicate Contiguous(from: Status, statuses: seq<Status>) {
    statuses == [] ||
    (&& Contiguous(from, DropLast(statuses))
     && FlowNext(EndOf(from, DropLast(statuses))) == Some(Last(statuses)))
  }

  function EndOf(from: Status, statuses: seq<Status>): Status {
    if statuses == [] then from else Last(statuses)
  }

  lemma {:induction false} RankAlongPath(from: Status, statuses: seq<Status>)
    requires Contiguous(from, statuses)
    ensures Rank(EndOf(from, statuses)) == Rank(from) + |statuses| <= 4
    decreases |statuses|
  {
    if statuses != [] {
      RankAlongPath(from, DropLast(statuses));
    }
  }

  predicate DistinctShipments(shipments: seq<Shipment>) {
    forall i, j :: 0 <= i < j < |shipments| ==> shipments[i].shipmentId != shipments[j].shipmentId
  }

  lemma {:induction false} IdsStay(w: World, touches: seq<(Touch, int)>)
    requires Progress(w, touches).Some?
    ensures var v := Progress(w, touches).value;
            && |v.shipments| == |w.shipments|
            && forall i :: 0 <= i < |w.shipments| ==> v.shipments[i].shipmentId == w.shipments[i].shipmentId
    decreases |touches|
  {
    if touches != [] {
      IdsStay(w, DropLast(touches));
    }
  }

  /**
   * Lifecycle: over any run of ticks, starting with no event inserted, the events of a shipment form
   * a contiguous path in the flow from its first status to its current one; there are at most four.
   */
  lemma {:induction false} EventsFormPath(w: World, touches: seq<(Touch, int)>, i: nat)
    requires w.events == [] && DistinctShipments(w.shipments) && i < |w.shipments|
    requires Progress(w, touches).Some?
    ensures var v := Progress(w, touches).value;
            var statuses := StatusesOf(v.events, w.shipments[i].shipmentId);
            && |v.shipments| == |w.shipments|
            && Contiguous(w.shipments[i].status, statuses)
            && v.shipments[i].status == EndOf(w.shipments[i].status, statuses)
            && |statuses| <= 4
    decreases |touches|
  {
    if touches != [] {
      EventsFormPath(w, DropLast(touches), i);
      IdsStay(w, DropLast(touches));
      var v := Progress(w, DropLast(touches)).value;
      PathStep(v, Last(touches).0, Last(touches).1, i, w.shipments[i].status);
    }
    RankAlongPath(w.shipments[i].status, StatusesOf(Progress(w, touches).value.events, w.shipments[i].shipmentId));
  }

  lemma {:induction false} PathExtends(from: Status, statuses: seq<Status>, next: Status)
    requires Contiguous(from, statuses) && FlowNext(EndOf(from, statuses)) == Some(next)
    ensures Contiguous(from, statuses + [next]) && EndOf(from, statuses + [next]) == next
  {
    assert DropLast(statuses + [next]) == statuses;
  }

  /** A status stays or moves to its successor in the flow, and only on a draw below three in ten. */
  lemma AdvanceFollowsFlow(status: Status, draw: real)
    ensures AdvanceStatus(status, draw) != status <==> FlowNext(status).Some? && draw < 0.3
    ensures AdvanceStatus(status, draw) != status ==> FlowNext(status) == Some(AdvanceStatus(status, draw))
    ensures draw < 0.3 ==> AdvanceStatus(Created, draw) == InTransit && AdvanceStatus(InTransit, draw) == Customs
    ensures draw < 0.3 ==> AdvanceStatus(Customs, draw) == OutForDelivery
    ensures draw < 0.3 ==> AdvanceStatus(OutForDelivery, draw) == Delivered
  {
  }

  /** One touch extends the path of the touched shipment, and no other. */
  lemma {:induction false} PathStep(v: World, t: Touch, now: int, i: nat, from: Status)
    requires Touchable(v, t) && i < |v.shipments| && DistinctShipments(v.shipments)
    requires Contiguous(from, StatusesOf(v.events, v.shipments[i].shipmentId))
    requires v.shipments[i].status == EndOf(from, StatusesOf(v.events, v.shipments[i].shipmentId))
    ensures var after := TouchWorld(v, t, now);
            var statuses := StatusesOf(after.events, v.shipments[i].shipmentId);
            Contiguous(from, statuses) && after.shipments[i].status == EndOf(from, statuses)
  {
    var id, status := v.shipments[i].shipmentId, v.shipments[i].status;
    StatusesStep(v, t, now, id);
    AdvanceFollowsFlow(status, t.draw);
    if t.index != i {
      assert v.shipments[t.index].shipmentId != id;
    } else if AdvanceStatus(status, t.draw) != status {
      PathExtends(from, StatusesOf(v.events, id), AdvanceStatus(status, t.draw));
    }
  }

  lemma StatusesStep(v: World, t: Touch, now: int, id: string)
    requires Touchable(v, t)
    ensures var s := v.shipments[t.index];
            var status := AdvanceStatus(s.status, t.draw);
            StatusesOf(TouchWorld(v, t, now).events, id) ==
              if status != s.status && s.shipmentId == id then StatusesOf(v.events, id) + [status]
              else StatusesOf(v.events, id)
  {
    var s := v.shipments[t.index];
    var e := ShipmentEvent(s.shipmentId, AdvanceStatus(s.status, t.draw), now);
    assert DropLast(v.events + [e]) == v.events;
  }

  /** After `n` touches a shipment's ETA has moved by between -30n and +90n minutes; a missing ETA stays missing. */
  lemma {:induction false} EtaDriftBound(w: World, touches: seq<(Touch, int)>, i: nat)
    requires Progress(w, touches).Some? && i < |w.shipments|
    requires forall k :: 0 <= k < |touches| ==> -30.0 <= touches[k].0.driftMinutes <= 90.0
    ensures var v := Progress(w, touches).value;
            && |v.shipments| == |w.shipments|
            && (v.shipments[i].estimatedArrivalAt.Some? <==> w.shipments[i].estimatedArrivalAt.Some?)
            && (w.shipments[i].estimatedArrivalAt.Some? ==>
                  var drift := v.shipments[i].estimatedArrivalAt.value - w.shipments[i].estimatedArrivalAt.value;
                  -1800.0 * |touches| as real <= drift <= 5400.0 * |touches| as real)
    decreases |touches|
  {
    if touches != [] {
      EtaDriftBound(w, DropLast(touches), i);
    }
  }

  /** The minutes by which touches of shipment `i` drift its ETA. */
  function DriftOf(touches: seq<(Touch, int)>, i: nat): real {
    if touches == [] then 0.0
    else DriftOf(DropLast(touches), i) + if Last(touches).0.index == i then Last(touches).0.driftMinutes else 0.0
  }

  /** An ETA has moved by exactly the drifts drawn for its shipment, sixty seconds a minute. */
  lemma {:induction false} EtaIsDrifted(w: World, touches: seq<(Touch, int)>, i: nat)
    requires Progress(w, touches).Some? && i < |w.shipments|
    ensures var v := Progress(w, touches).value;
            && |v.shipments| == |w.shipments|
            && v.shipments[i].estimatedArrivalAt
               == if w.shipments[i].estimatedArrivalAt.None? then None
                  else Some(w.shipments[i].estimatedArrivalAt.value + 60.0 * DriftOf(touches, i))
    decreases |touches|
  {
    if touches != [] {
      EtaIsDrifted(w, DropLast(touches), i);
    }
  }

  /** The time of the last touch of shipment `i`, or `never` if there is none. */
  function LastTouch(touches: seq<(Touch, int)>, i: nat, never: int): int {
    if touches == [] then never
    else if Last(touches).0.index == i then Last(touches).1
    else LastTouch(DropLast(touches), i, never)
  }

  /** A shipment's row was last updated when it was last touched. */
  lemma {:induction false} UpdatedWhenTouched(w: World, touches: seq<(Touch, int)>, i: nat)
    requires Progress(w, touches).Some? && i < |w.shipments|
    ensures var v := Progress(w, touches).value;
            && |v.shipments| == |w.shipments|
            && v.shipments[i].updatedAt == LastTouch(touches, i, w.shipments[i].updatedAt)
    decreases |touches|
  {
    if touches != [] {
      UpdatedWhenTouched(w, DropLast(touches), i);
    }
  }

  /** A shipment delivered in the course of the run arrived when its delivery event occurred. */
  lemma {:induction false} ArrivalIsDeliveryEvent(w: World, touches: seq<(Touch, int)>, i: nat)
    requires Progress(w, touches).Some? && i < |w.shipments| && !w.shipments[i].status.Delivered?
    ensures var v := Progress(w, touches).value;
            && |v.shipments| == |w.shipments|
            && v.shipments[i].shipmentId == w.shipments[i].shipmentId
            && (v.shipments[i].status.Delivered? ==>
                  && v.shipments[i].actualArrivalAt.Some?
                  && ShipmentEvent(v.shipments[i].shipmentId, Delivered, v.shipments[i].actualArrivalAt.value)
                     in v.events)
            && (!v.shipments[i].status.Delivered? ==> v.shipments[i].actualArrivalAt == w.shipments[i].actualArrivalAt)
    decreases |touches|
  {
    if touches != [] {
      ArrivalIsDeliveryEvent(w, DropLast(touches), i);
      var u, v := Progress(w, DropLast(touches)).value, Progress(w, touches).value;
      assert forall e :: e in u.events ==> e in v.events;
      if v.shipments[i].status.Delivered? && !u.shipments[i].status.Delivered? {
        assert Last(v.events) in v.events;
      }
    }
  }

  /** A delivered shipment has an arrival time, if those delivered at the start have one. */
  lemma {:induction false} DeliveredHasArrival(w: World, touches: seq<(Touch, int)>, i: nat)
    requires Progress(w, touches).Some? && i < |w.shipments|
    requires w.shipments[i].status.Delivered? ==> w.shipments[i].actualArrivalAt.Some?
    ensures var v := Progress(w, touches).value;
            && |v.shipments| == |w.shipments|
            && (v.shipments[i].status.Delivered? ==> v.shipments[i].actualArrivalAt.Some?)
    decreases |touches|
  {
    if touches != [] {
      DeliveredHasArrival(w, DropLast(touches), i);
    }
  }

  /** Delivered, and cancelled, is final: the row is never touched again. */
  lemma {:induction false} FinalIsUntouched(w: World, touches: seq<(Touch, int)>, n: nat, i: nat)
    requires Progress(w, touches).Some? && n <= |touches| && i < |w.shipments|
    ensures Progress(w, touches[..n]).Some?
    ensures var u, v := Progress(w, touches[..n]).value, Progress(w, touches).value;
            && |u.shipments| == |v.shipments| == |w.shipments|
            && (u.shipments[i].status.Delivered? || u.shipments[i].status.Cancelled? ==>
                  v.shipments[i] == u.shipments[i])
    decreases |touches|
  {
    IdsStay(w, touches);
    if n == |touches| {
      assert touches[..n] == touches;
    } else {
      FinalIsUntouched(w, DropLast(touches), n, i);
      assert DropLast(touches)[..n] == touches[..n];
    }
  }

  // ---------------------------------------------------------------------------
  // The simulator object

  class Session {
    var inventory: seq<Inventory>
    var shipments: seq<Shipment>
    var events: seq<ShipmentEvent>

    function AsWorld(): World
      reads this
    {
      World(shipments, events)
    }
  }

  function ActiveCount(shipments: seq<Shipment>): nat {
    if shipments == [] then 0 else ActiveCount(DropLast(shipments)) + if IsActive(Last(shipments)) then 1 else 0
  }

  /** A sample of half of the active shipments, but at least one, without repetition. */
  predicate IsSample(shipments: seq<Shipment>, touches: seq<Touch>) {
    && (forall i, j :: 0 <= i < j < |touches| ==> touches[i].index != touches[j].index)
    && (forall i :: 0 <= i < |touches| ==> touches[i].index < |shipments| && IsActive(shipments[touches[i].index]))
    && var n := ActiveCount(shipments);
       |touches| == if n == 0 then 0 else if n / 2 < 1 then 1 else n / 2
  }

  /** The positions of the shipments that are neither delivered nor cancelled. */
  function ActiveIndices(shipments: seq<Shipment>): set<nat> {
    set i: nat | i < |shipments| && shipments[i].status != Delivered && shipments[i].status != Cancelled
  }

  lemma OneMoreIndex(shipments: seq<Shipment>, last: nat)
    requires last + 1 == |shipments|
    ensures last !in ActiveIndices(DropLast(shipments))
    ensures ActiveIndices(shipments)
         == ActiveIndices(DropLast(shipments)) + if IsActive(shipments[last]) then {last} else {}
  {
    forall i: nat
      ensures i in ActiveIndices(shipments) <==>
                i in ActiveIndices(DropLast(shipments)) || (i == last && IsActive(shipments[last]))
    {
      assert i < last ==> DropLast(shipments)[i] == shipments[i];
    }
  }

  lemma {:induction false} ActiveCountIsCardinality(shipments: seq<Shipment>)
    ensures ActiveCount(shipments) == |ActiveIndices(shipments)|
    decreases |shipments|
  {
    if shipments != [] {
      ActiveCountIsCardinality(DropLast(shipments));
      OneMoreIndex(shipments, |shipments| - 1);
    }
  }

  /**
   * A tick samples different active shipments: none if there are none, the only one if there is one,
   * and otherwise half of them, rounded down.
   */
  lemma SampleSize(shipments: seq<Shipment>, touches: seq<Touch>)
    ensures var active, n := ActiveIndices(shipments), |touches|;
            IsSample(shipments, touches) <==>
              && (forall i, j :: 0 <= i < j < n ==> touches[i].index != touches[j].index)
              && (forall i :: 0 <= i < n ==> touches[i].index in active)
              && (if |active| <= 1 then n == |active| else 2 * n == |active| || 2 * n + 1 == |active|)
  {
    ActiveCountIsCardinality(shipments);
  }

  function At(touches: seq<Touch>, now: int): (stamped: seq<(Touch, int)>)
    ensures |stamped| == |touches|
    ensures forall i :: 0 <= i < |touches| ==> stamped[i] == (touches[i], now)
  {
    if touches == [] then [] else At(DropLast(touches), now) + [(Last(touches), now)]
  }

  class Simulator {
    const tickSeconds: real

    constructor (tickSeconds: real)
      ensures this.tickSeconds == tickSeconds
    {
      this.tickSeconds := tickSeconds;
    }

    /** Consumes every row's stock for one tick and stores it rounded. */
    method ConsumeInventory(session: Session, jitters: seq<real>, now: int) returns (writes: nat)
      requires |jitters| == |session.inventory|
      modifies session`inventory
      ensures writes == |session.inventory| == |old(session.inventory)|
      ensures forall i :: 0 <= i < |session.inventory| ==>
                var row := old(session.inventory)[i];
                session.inventory[i] ==
                  row.(quantityOnHand :=
                         Stock(row.quantityOnHand, [Consumption(row.averageDailyUsage, tickSeconds, jitters[i])]),
                       updatedAt := now)
    {
      writes := 0;
      ghost var rows := session.inventory;
      for i := 0 to |session.inventory|
        invariant writes == i && |session.inventory| == |rows|
        invariant forall k :: i <= k < |rows| ==> session.inventory[k] == rows[k]
        invariant forall k :: 0 <= k < i ==>
                    session.inventory[k] ==
                      rows[k].(quantityOnHand :=
                                 Round4(Consume(rows[k].quantityOnHand,
                                          Consumption(rows[k].averageDailyUsage, tickSeconds, jitters[k]))),
                               updatedAt := now)
      {
        var row := session.inventory[i];
        var left := Consume(row.quantityOnHand, Consumption(row.averageDailyUsage, tickSeconds, jitters[i]));
        session.inventory := session.inventory[i := row.(quantityOnHand := Round4(left), updatedAt := now)];
        writes := writes + 1;
      }
      forall i | 0 <= i < |rows|
        ensures Stock(rows[i].quantityOnHand, [Consumption(rows[i].averageDailyUsage, tickSeconds, jitters[i])])
             == Round4(Consume(rows[i].quantityOnHand, Consumption(rows[i].averageDailyUsage, tickSeconds, jitters[i])))
      {
        var amounts := [Consumption(rows[i].averageDailyUsage, tickSeconds, jitters[i])];
        assert DropLast(amounts) == [];
      }
    }

    /** Touches one shipment: drifts its ETA, maybe advances it, and records the status change. */
    method TouchOne(session: Session, t: Touch, now: int) returns (writes: nat)
      requires Touchable(session.AsWorld(), t)
      modifies session`shipments, session`events
      ensures session.AsWorld() == TouchWorld(old(session.AsWorld()), t, now)
      ensures writes == 1 + |session.events| - |old(session.events)|
    {
      writes := 1;
      var shipment := session.shipments[t.index];
      var touched := TouchShipment(shipment, t, now);
      if touched.status != shipment.status {
        session.events := session.events + [ShipmentEvent(shipment.shipmentId, touched.status, now)];
        writes := 2;
      }
      session.shipments := session.shipments[t.index := touched];
    }

    /** Touches the sampled shipments one after another; what results is a run of the lifecycle. */
    method ProgressShipments(session: Session, touches: seq<Touch>, now: int) returns (writes: nat)
      requires IsSample(session.shipments, touches)
      modifies session`shipments, session`events
      ensures Progress(old(session.AsWorld()), At(touches, now)) == Some(session.AsWorld())
      ensures writes == |touches| + |session.events| - |old(session.events)|
    {
      writes := 0;
      ghost var start := session.AsWorld();
      for i := 0 to |touches|
        invariant Progress(start, At(touches[..i], now)) == Some(session.AsWorld())
        invariant StillActive(session.shipments, touches, i)
        invariant writes == i + |session.events| - |start.events|
      {
        ghost var before := session.AsWorld();
        ProgressOneMore(start, touches, i, now, before);
        StillActiveStep(before.shipments, touches, i,
                        TouchShipment(before.shipments[touches[i].index], touches[i], now));
        var n := TouchOne(session, touches[i], now);
        writes := writes + n;
      }
      assert touches[..|touches|] == touches;
    }
  }

  /** The touches from position `i` on find their shipments active. */
  predicate StillActive(shipments: seq<Shipment>, touches: seq<Touch>, i: nat) {
    && (forall j, k :: i <= j < k < |touches| ==> touches[j].index != touches[k].index)
    && (forall j :: i <= j < |touches| ==> touches[j].index < |shipments| && IsActive(shipments[touches[j].index]))
  }

  lemma StillActiveStep(shipments: seq<Shipment>, touches: seq<Touch>, i: nat, s: Shipment)
    requires i < |touches| && StillActive(shipments, touches, i)
    ensures StillActive(shipments[touches[i].index := s], touches, i + 1)
  {
  }

  lemma ProgressOneMore(start: World, touches: seq<Touch>, i: nat, now: int, v: World)
    requires i < |touches| && Progress(start, At(touches[..i], now)) == Some(v) && Touchable(v, touches[i])
    ensures Progress(start, At(touches[..i + 1], now)) == Some(TouchWorld(v, touches[i], now))
  {
    assert DropLast(touches[..i + 1]) == touches[..i];
    assert DropLast(At(touches[..i + 1], now)) == At(touches[..i], now);
  }
}
