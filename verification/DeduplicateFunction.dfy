/** Job 2's operator as an object: keyed state and counters updated record by record. */
module DeduplicateFunction {
  import opened Wrappers
  import opened Deduplication
  import opened Normalizer
  import PayloadHash

  /** Job 2: keyed by source and id, compared by content hash. */
  function Job2(fmt: PayloadHash.Format, ttlMs: int): Operator<NormalizedEvent> {
    Operator(DedupKey, (n: NormalizedEvent) => PayloadHash.Of(fmt, n.content),
             (n: NormalizedEvent) => n.sourceVersion, ttlMs)
  }

  class DeduplicateFunction {
    const fmt: PayloadHash.Format
    const stateTtlMs: int
    var state: map<string, DedupState>
    var out: seq<NormalizedEvent>
    var emittedNew: nat
    var emittedUpdate: nat
    var droppedDuplicate: nat
    /** The records handled so far, with their processing times. */
    ghost var history: seq<Sighting<NormalizedEvent>>

    ghost function Op(): Operator<NormalizedEvent>
    {
      Job2(fmt, stateTtlMs)
    }

    /** The object is where a run over its history leads; the counters account for every record. */
    ghost predicate Valid()
      reads this
    {
      && state == After(Op(), history)
      && out == Emitted(Op(), history)
      && emittedNew + emittedUpdate == |out|
      && emittedNew + emittedUpdate + droppedDuplicate == |history|
    }

    constructor (fmt: PayloadHash.Format, stateTtlMs: int)
      ensures Valid() && history == []
      ensures this.fmt == fmt && this.stateTtlMs == stateTtlMs
    {
      this.fmt, this.stateTtlMs := fmt, stateTtlMs;
      state, out := map[], [];
      emittedNew, emittedUpdate, droppedDuplicate := 0, 0, 0;
      history := [];
    }

    method Remember(event: NormalizedEvent, hash: string, now: int)
      modifies `state
      ensures state == old(state)[DedupKey(event) := DedupState(hash, event.sourceVersion, now)]
    {
      state := state[DedupKey(event) := DedupState(hash, event.sourceVersion, now)];
    }

    /** Decides on one record, and emits and remembers, or touches the state, accordingly. */
    method Handle(event: NormalizedEvent, now: int)
      modifies `state, `out, `emittedNew, `emittedUpdate, `droppedDuplicate
      ensures state == NextState(Op(), old(state), Sighting(event, now))
      ensures if DecisionFor(Op(), old(state), Sighting(event, now)).Drop?
              then && out == old(out) && droppedDuplicate == old(droppedDuplicate) + 1
                   && emittedNew + emittedUpdate == old(emittedNew + emittedUpdate)
              else && out == old(out) + [event] && droppedDuplicate == old(droppedDuplicate)
                   && emittedNew + emittedUpdate == old(emittedNew + emittedUpdate) + 1
      ensures emittedNew - old(emittedNew)
           == if Visible(old(state), DedupKey(event), now, stateTtlMs).None? then 1 else 0
    {
      var incomingHash := PayloadHash.Of(fmt, event.content);
      var key := DedupKey(event);
      var previous := Visible(state, key, now, stateTtlMs);
      var previousHash := if previous.Some? then Some(previous.value.payloadHash) else None;
      match Decide(previousHash, incomingHash)
      case EmitNew =>
        out := out + [event];
        Remember(event, incomingHash, now);
        emittedNew := emittedNew + 1;
      case EmitUpdate =>
        out := out + [event];
        Remember(event, incomingHash, now);
        emittedUpdate := emittedUpdate + 1;
      case Drop =>
        state := state[key := previous.value.(lastSeenAt := now)];
        droppedDuplicate := droppedDuplicate + 1;
    }

    method ProcessElement(event: NormalizedEvent, now: int)
      requires Valid()
      modifies this
      ensures Valid() && history == old(history) + [Sighting(event, now)]
      ensures out == if Repeats(Op(), history, |history| - 1) then old(out) else old(out) + [event]
    {
      RunStep(Op(), history, Sighting(event, now));
      Handle(event, now);
      history := history + [Sighting(event, now)];
    }
  }
}
