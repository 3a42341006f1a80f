/**
 * Job 2, the keyed deduplicator: the decision, the operator's keyed state with its time to live,
 * and what a whole run of the operator emits.
 */
module Deduplication {
  import opened Wrappers
  import opened Sequences

  datatype Decision = EmitNew | Drop | EmitUpdate

  /** Per-key state: the content last seen, the version that introduced it, the last sighting. */
  datatype DedupState = DedupState(payloadHash: string, sourceVersion: Option<string>, lastSeenAt: int)

  /** What the operator reads off a record of type `R`, and its time to live in milliseconds. */
  datatype Operator<!R> = Operator(
    key: R -> string, hash: R -> string, version: R -> Option<string>, ttlMs: int)

  /** A record together with the processing time at which the operator handles it. */
  datatype Sighting<+R> = Sighting(record: R, at: int)

  function Decide(previousHash: Option<string>, incomingHash: string): Decision
  {
    match previousHash
    case None => EmitNew
    case Some(h) => if h == incomingHash then Drop else EmitUpdate
  }

  /** A state read: entries written `ttlMs` or longer ago are never returned. */
  function Visible(st: map<string, DedupState>, key: string, now: int, ttlMs: int): Option<DedupState>
  {
    if key in st && now < st[key].lastSeenAt + ttlMs then Some(st[key]) else None
  }

  function DecisionFor<R>(op: Operator<R>, st: map<string, DedupState>, x: Sighting<R>): Decision
  {
    var previous := Visible(st, op.key(x.record), x.at, op.ttlMs);
    Decide(if previous.Some? then Some(previous.value.payloadHash) else None, op.hash(x.record))
  }

  function NextState<R>(op: Operator<R>, st: map<string, DedupState>, x: Sighting<R>): map<string, DedupState>
  {
    var k := op.key(x.record);
    if DecisionFor(op, st, x).Drop?
    then st[k := st[k].(lastSeenAt := x.at)]
    else st[k := DedupState(op.hash(x.record), op.version(x.record), x.at)]
  }

  /** The keyed state after a run that starts with no state. */
  function After<R>(op: Operator<R>, xs: seq<Sighting<R>>): map<string, DedupState>
  {
    if xs == [] then map[] else NextState(op, After(op, DropLast(xs)), Last(xs))
  }

  /** The records a run emits, in order. */
  function Emitted<R>(op: Operator<R>, xs: seq<Sighting<R>>): seq<R>
  {
    if xs == [] then []
    else if DecisionFor(op, After(op, DropLast(xs)), Last(xs)).Drop? then Emitted(op, DropLast(xs))
    else Emitted(op, DropLast(xs)) + [Last(xs).record]
  }

  // ---------------------------------------------------------------------------
  // The stateless rule

  /** Position of the last record of key `k` in `xs`, or -1. */
  function LastOf<R>(op: Operator<R>, xs: seq<Sighting<R>>, k: string): (j: int)
    ensures -1 <= j < |xs|
    ensures j >= 0 ==> op.key(xs[j].record) == k
    ensures forall i :: j < i < |xs| ==> op.key(xs[i].record) != k
  {
    if xs == [] then -1
    else if op.key(Last(xs).record) == k then |xs| - 1
    else LastOf(op, DropLast(xs), k)
  }

  /** Record `i` repeats the content of its key's immediately preceding record within one TTL. */
  predicate Repeats<R>(op: Operator<R>, xs: seq<Sighting<R>>, i: nat)
    requires i < |xs|
  {
    var j := LastOf(op, xs[..i], op.key(xs[i].record));
    && j >= 0
    && op.hash(xs[j].record) == op.hash(xs[i].record)
    && xs[i].at < xs[j].at + op.ttlMs
  }

  /** Positions of the records that do not repeat their predecessor. */
  function KeptBy<R>(op: Operator<R>, xs: seq<Sighting<R>>, n: nat): seq<R>
    requires n <= |xs|
  {
    if n == 0 then []
    else if Repeats(op, xs, n - 1) then KeptBy(op, xs, n - 1)
    else KeptBy(op, xs, n - 1) + [xs[n - 1].record]
  }

  /** The state remembers, for every key, exactly its last record: content and time. */
  lemma {:induction false} StateIsLastRecord<R>(op: Operator<R>, xs: seq<Sighting<R>>, k: string)
    ensures k in After(op, xs) <==> LastOf(op, xs, k) >= 0
    ensures k in After(op, xs) ==>
              var j := LastOf(op, xs, k);
              && After(op, xs)[k].payloadHash == op.hash(xs[j].record)
              && After(op, xs)[k].lastSeenAt == xs[j].at
    decreases |xs|
  {
    if xs != [] {
      StateIsLastRecord(op, DropLast(xs), k);
    }
  }

  /** Refinement: a run with state emits exactly what the stateless rule keeps. */
  lemma {:induction false} DropsExactlyRepeats<R>(op: Operator<R>, xs: seq<Sighting<R>>, i: nat)
    requires i < |xs|
    ensures DecisionFor(op, After(op, xs[..i]), xs[i]).Drop? <==> Repeats(op, xs, i)
  {
    StateIsLastRecord(op, xs[..i], op.key(xs[i].record));
  }

  /** One more record: the next state and output, and whether the record repeats its predecessor. */
  lemma RunStep<R>(op: Operator<R>, xs: seq<Sighting<R>>, x: Sighting<R>)
    ensures var longer := xs + [x];
            && After(op, longer) == NextState(op, After(op, xs), x)
            && (DecisionFor(op, After(op, xs), x).Drop? <==> Repeats(op, longer, |xs|))
            && Emitted(op, longer)
               == if Repeats(op, longer, |xs|) then Emitted(op, xs) else Emitted(op, xs) + [x.record]
  {
    var longer := xs + [x];
    assert DropLast(longer) == xs == longer[..|xs|];
    DropsExactlyRepeats(op, longer, |xs|);
  }

  lemma {:induction false} RunRefinesStatelessRule<R>(op: Operator<R>, xs: seq<Sighting<R>>)
    ensures Emitted(op, xs) == KeptBy(op, xs, |xs|)
  {
    RunRefinesStatelessRulePrefix(op, xs, |xs|);
    assert xs[..|xs|] == xs;
  }

  lemma {:induction false} RunRefinesStatelessRulePrefix<R>(op: Operator<R>, xs: seq<Sighting<R>>, n: nat)
    requires n <= |xs|
    ensures Emitted(op, xs[..n]) == KeptBy(op, xs, n)
  {
    if n > 0 {
      RunRefinesStatelessRulePrefix(op, xs, n - 1);
      DropsExactlyRepeats(op, xs, n - 1);
      assert DropLast(xs[..n]) == xs[..n - 1];
    }
  }

  // ---------------------------------------------------------------------------
  // Per-key view

  /** The records of key `k`, in order. */
  function OfKey<R>(op: Operator<R>, rs: seq<R>, k: string): seq<R>
  {
    if rs == [] then []
    else if op.key(Last(rs)) == k then OfKey(op, DropLast(rs), k) + [Last(rs)]
    else OfKey(op, DropLast(rs), k)
  }

  function Records<R>(xs: seq<Sighting<R>>): (rs: seq<R>)
    ensures |rs| == |xs|
    ensures forall i :: 0 <= i < |xs| ==> rs[i] == xs[i].record
  {
    if xs == [] then [] else Records(DropLast(xs)) + [Last(xs).record]
  }

  /** Runs of equal content replaced by their first record. */
  function Collapse<R>(op: Operator<R>, rs: seq<R>): seq<R>
  {
    if rs == [] then []
    else if |rs| > 1 && op.hash(rs[|rs| - 2]) == op.hash(Last(rs)) then Collapse(op, DropLast(rs))
    else Collapse(op, DropLast(rs)) + [Last(rs)]
  }

  /** The last record repeats the content its key had last, but only after the entry expired. */
  predicate LastIsLate<R>(op: Operator<R>, xs: seq<Sighting<R>>)
    requires xs != []
  {
    var j := LastOf(op, DropLast(xs), op.key(Last(xs).record));
    && j >= 0
    && op.hash(xs[j].record) == op.hash(Last(xs).record)
    && xs[j].at + op.ttlMs <= Last(xs).at
  }

  /** No record of key `k` repeats the content before it after the entry expired. */
  predicate InTime<R>(op: Operator<R>, xs: seq<Sighting<R>>, k: string)
  {
    xs == [] ||
    (InTime(op, DropLast(xs), k) && (op.key(Last(xs).record) == k ==> !LastIsLate(op, xs)))
  }

  /** The last record of a key, seen positionally or through the projection. */
  lemma {:induction false} LastOfKey<R>(op: Operator<R>, xs: seq<Sighting<R>>, k: string)
    ensures LastOf(op, xs, k) >= 0 <==> OfKey(op, Records(xs), k) != []
    ensures LastOf(op, xs, k) >= 0 ==> Last(OfKey(op, Records(xs), k)) == xs[LastOf(op, xs, k)].record
    decreases |xs|
  {
    if xs != [] {
      LastOfKey(op, DropLast(xs), k);
      assert DropLast(Records(xs)) == Records(DropLast(xs));
    }
  }

  lemma OfKeySnoc<R>(op: Operator<R>, rs: seq<R>, r: R, k: string)
    ensures OfKey(op, rs + [r], k) == if op.key(r) == k then OfKey(op, rs, k) + [r] else OfKey(op, rs, k)
  {
    assert DropLast(rs + [r]) == rs;
  }

  lemma {:induction false} OfKeyMembers<R>(op: Operator<R>, rs: seq<R>, k: string)
    ensures forall r :: r in OfKey(op, rs, k) ==> r in rs && op.key(r) == k
    decreases |rs|
  {
    if rs != [] {
      OfKeyMembers(op, DropLast(rs), k);
    }
  }

  lemma {:induction false} OfKeyHolds<R>(op: Operator<R>, rs: seq<R>, r: R)
    requires r in rs
    ensures r in OfKey(op, rs, op.key(r))
    decreases |rs|
  {
    if r != Last(rs) {
      assert r in DropLast(rs);
      OfKeyHolds(op, DropLast(rs), r);
    }
  }

  lemma CollapseSnoc<R>(op: Operator<R>, rs: seq<R>, r: R)
    ensures Collapse(op, rs + [r])
         == if rs != [] && op.hash(Last(rs)) == op.hash(r) then Collapse(op, rs) else Collapse(op, rs) + [r]
  {
    assert DropLast(rs + [r]) == rs;
    assert rs != [] ==> (rs + [r])[|rs + [r]| - 2] == Last(rs);
  }

  /**
   * Whatever the interleaving, a key's output is its input with runs of equal content collapsed: exactly
   * when no record of that key comes late. Every late one is emitted on top.
   */
  lemma {:induction false} OutputIsCollapsedInputIff<R>(op: Operator<R>, xs: seq<Sighting<R>>, k: string)
    ensures OfKey(op, Emitted(op, xs), k) == Collapse(op, OfKey(op, Records(xs), k)) <==> InTime(op, xs, k)
  {
    OutputAgainstCollapsed(op, xs, k);
  }

  lemma {:induction false} OutputAgainstCollapsed<R>(op: Operator<R>, xs: seq<Sighting<R>>, k: string)
    ensures var out, collapsed := OfKey(op, Emitted(op, xs), k), Collapse(op, OfKey(op, Records(xs), k));
            && |collapsed| <= |out|
            && (if InTime(op, xs, k) then out == collapsed else |collapsed| < |out|)
    decreases |xs|
  {
    if xs != [] {
      var before, x := DropLast(xs), Last(xs);
      OutputAgainstCollapsed(op, before, k);
      DropsIffSameContentInTime(op, xs);
      OfKeySnoc(op, Records(before), x.record, k);
      OfKeySnoc(op, Emitted(op, before), x.record, k);
      CollapseSnoc(op, OfKey(op, Records(before), k), x.record);
    }
  }

  /** The last record of a run is dropped exactly when its key last had its content and it is not late. */
  lemma DropsIffSameContentInTime<R>(op: Operator<R>, xs: seq<Sighting<R>>)
    requires xs != []
    ensures var before, x := DropLast(xs), Last(xs);
            var input := OfKey(op, Records(before), op.key(x.record));
            && (LastIsLate(op, xs) ==> input != [] && op.hash(Last(input)) == op.hash(x.record))
            && (DecisionFor(op, After(op, before), x).Drop? <==>
                  input != [] && op.hash(Last(input)) == op.hash(x.record) && !LastIsLate(op, xs))
  {
    assert xs[..|xs| - 1] == DropLast(xs);
    DropsExactlyRepeats(op, xs, |xs| - 1);
    LastOfKey(op, DropLast(xs), op.key(Last(xs).record));
  }

  /** Adjacent records differ in content. */
  predicate NoAdjacentRepeats<R>(op: Operator<R>, rs: seq<R>)
  {
    forall i :: 0 < i < |rs| ==> op.hash(rs[i - 1]) != op.hash(rs[i])
  }

  /** Collapsing: no adjacent repeats remain, nothing is invented or reordered, no content is lost. */
  lemma {:induction false} CollapseMeaning<R>(op: Operator<R>, rs: seq<R>)
    ensures NoAdjacentRepeats(op, Collapse(op, rs))
    ensures rs != [] ==> Collapse(op, rs) != [] && op.hash(Last(Collapse(op, rs))) == op.hash(Last(rs))
    ensures forall r :: r in rs ==> exists c :: c in Collapse(op, rs) && op.hash(c) == op.hash(r)
    decreases |rs|
  {
    if rs != [] {
      CollapseMeaning(op, DropLast(rs));
      var kept := Collapse(op, DropLast(rs));
      forall r | r in rs
        ensures exists c :: c in Collapse(op, rs) && op.hash(c) == op.hash(r)
      {
        if r in DropLast(rs) {
          var c :| c in kept && op.hash(c) == op.hash(r);
          assert c in Collapse(op, rs);
        } else if Collapse(op, rs) == kept {
          assert Last(kept) in kept;
        } else {
          assert r in Collapse(op, rs);
        }
      }
    }
  }

  /** A key's output never repeats a content back to back: exactly when no record of that key comes late. */
  lemma {:induction false} NoRepeatEmittedIff<R>(op: Operator<R>, xs: seq<Sighting<R>>, k: string)
    ensures NoAdjacentRepeats(op, OfKey(op, Emitted(op, xs), k)) <==> InTime(op, xs, k)
  {
    OutputEndsAsInput(op, xs, k);
  }

  lemma {:induction false} OutputEndsAsInput<R>(op: Operator<R>, xs: seq<Sighting<R>>, k: string)
    ensures var own, out := OfKey(op, Records(xs), k), OfKey(op, Emitted(op, xs), k);
            && (own == [] <==> out == [])
            && (own != [] ==> op.hash(Last(out)) == op.hash(Last(own)))
            && (NoAdjacentRepeats(op, out) <==> InTime(op, xs, k))
    decreases |xs|
  {
    if xs != [] {
      var before, x := DropLast(xs), Last(xs);
      OutputEndsAsInput(op, before, k);
      OfKeySnoc(op, Records(before), x.record, k);
      OfKeySnoc(op, Emitted(op, before), x.record, k);
      if op.key(x.record) == k {
        DropsIffSameContentInTime(op, xs);
        NoRepeatsSnoc(op, OfKey(op, Emitted(op, before), k), x.record);
      }
    }
  }

  lemma NoRepeatsSnoc<R>(op: Operator<R>, rs: seq<R>, r: R)
    ensures NoAdjacentRepeats(op, rs + [r]) <==>
            NoAdjacentRepeats(op, rs) && (rs != [] ==> op.hash(Last(rs)) != op.hash(r))
  {
    var longer := rs + [r];
    if NoAdjacentRepeats(op, longer) {
      PrefixHasNoAdjacentRepeats(op, rs, longer);
      assert rs != [] ==> op.hash(longer[|rs| - 1]) != op.hash(longer[|rs|]);
    }
  }

  /** Nothing is lost at any times: each record's content is among what its key emitted. */
  lemma {:induction false} EveryContentIsEmitted<R>(op: Operator<R>, xs: seq<Sighting<R>>, i: nat)
    requires i < |xs|
    ensures exists r :: && r in Emitted(op, xs) && op.key(r) == op.key(xs[i].record)
                        && op.hash(r) == op.hash(xs[i].record)
    decreases |xs|
  {
    var before, x := DropLast(xs), Last(xs);
    if i < |before| {
      EveryContentIsEmitted(op, before, i);
      var r :| && r in Emitted(op, before) && op.key(r) == op.key(xs[i].record)
               && op.hash(r) == op.hash(xs[i].record);
      assert r in Emitted(op, xs);
    } else if DecisionFor(op, After(op, before), x).Drop? {
      StateIsLastRecord(op, before, op.key(x.record));
      EveryContentIsEmitted(op, before, LastOf(op, before, op.key(x.record)));
    } else {
      assert Last(Emitted(op, xs)) == x.record;
    }
  }

  /** The version a key's entry names is that of the last record the key emitted, at any times. */
  lemma {:induction false} VersionIsLastEmitted<R>(op: Operator<R>, xs: seq<Sighting<R>>, k: string)
    ensures k in After(op, xs) <==> OfKey(op, Emitted(op, xs), k) != []
    ensures k in After(op, xs) ==>
              After(op, xs)[k].sourceVersion == op.version(Last(OfKey(op, Emitted(op, xs), k)))
    decreases |xs|
  {
    if xs != [] {
      VersionIsLastEmitted(op, DropLast(xs), k);
      OfKeySnoc(op, Emitted(op, DropLast(xs)), Last(xs).record, k);
    }
  }

  /** Two records: the second is dropped exactly if it has the key and content of the first and comes within the TTL. */
  lemma SecondIsDroppedIff<R>(op: Operator<R>, a: R, b: R, s: int, t: int)
    ensures Emitted(op, [Sighting(a, s), Sighting(b, t)])
         == if op.key(a) == op.key(b) && op.hash(a) == op.hash(b) && t < s + op.ttlMs then [a] else [a, b]
  {
    var xs := [Sighting(a, s), Sighting(b, t)];
    assert DropLast(xs) == [Sighting(a, s)] && DropLast([Sighting(a, s)]) == [];
    assert Emitted(op, [Sighting(a, s)]) == [a];
  }

  /** Nothing is invented: what a key emits was read. */
  lemma {:induction false} EmittedIsRead<R>(op: Operator<R>, xs: seq<Sighting<R>>, k: string, r: R) returns (i: nat)
    requires r in OfKey(op, Emitted(op, xs), k)
    ensures i < |xs| && xs[i].record == r
    decreases |xs|
  {
    if r == Last(xs).record {
      i := |xs| - 1;
    } else {
      OfKeySnoc(op, Emitted(op, DropLast(xs)), Last(xs).record, k);
      i := EmittedIsRead(op, DropLast(xs), k, r);
    }
  }

  lemma {:induction false} CollapseIsSubseq<R>(op: Operator<R>, rs: seq<R>)
    ensures Subseq(Collapse(op, rs), rs)
    decreases |rs|
  {
    if rs != [] {
      CollapseIsSubseq(op, DropLast(rs));
      assert rs == DropLast(rs) + [Last(rs)];
      SubseqExtend(Collapse(op, DropLast(rs)), DropLast(rs), [Last(rs)]);
      SubseqAppend(Collapse(op, DropLast(rs)), DropLast(rs), [Last(rs)]);
    }
  }

  // ---------------------------------------------------------------------------
  // Running the operator again: on its own output, and on a replayed block

  /** A stream whose keys never repeat themselves back to back passes unchanged, whatever the times. */
  lemma {:induction false} NothingToDrop<R>(op: Operator<R>, xs: seq<Sighting<R>>)
    requires forall k :: NoAdjacentRepeats(op, OfKey(op, Records(xs), k))
    ensures Emitted(op, xs) == Records(xs)
    decreases |xs|
  {
    if xs != [] {
      var before, x := DropLast(xs), Last(xs);
      var own := OfKey(op, Records(before), op.key(x.record));
      forall k
        ensures NoAdjacentRepeats(op, OfKey(op, Records(before), k))
      {
        OfKeySnoc(op, Records(before), x.record, k);
        assert NoAdjacentRepeats(op, OfKey(op, Records(xs), k));
        PrefixHasNoAdjacentRepeats(op, OfKey(op, Records(before), k), OfKey(op, Records(xs), k));
      }
      NothingToDrop(op, before);
      OfKeySnoc(op, Records(before), x.record, op.key(x.record));
      assert NoAdjacentRepeats(op, OfKey(op, Records(xs), op.key(x.record)));
      assert own != [] ==> op.hash((own + [x.record])[|own| - 1]) != op.hash((own + [x.record])[|own|]);
      DropsExactlyRepeats(op, xs, |xs| - 1);
      assert xs[..|xs| - 1] == before;
      LastOfKey(op, before, op.key(x.record));
    }
  }

  lemma PrefixHasNoAdjacentRepeats<R>(op: Operator<R>, a: seq<R>, b: seq<R>)
    requires a <= b && NoAdjacentRepeats(op, b)
    ensures NoAdjacentRepeats(op, a)
  {
    forall i | 0 < i < |a|
      ensures op.hash(a[i - 1]) != op.hash(a[i])
    {
      assert a[i - 1] == b[i - 1] && a[i] == b[i];
    }
  }

  /** Deduplicating a stream deduplicated without late records changes nothing, at any times and expiry. */
  lemma {:induction false} Idempotent<R>(op: Operator<R>, xs: seq<Sighting<R>>, ys: seq<Sighting<R>>)
    requires forall k :: InTime(op, xs, k)
    requires Records(ys) == Emitted(op, xs)
    ensures Emitted(op, ys) == Emitted(op, xs)
  {
    forall k
      ensures NoAdjacentRepeats(op, OfKey(op, Records(ys), k))
    {
      OutputIsCollapsedInputIff(op, xs, k);
      CollapseMeaning(op, OfKey(op, Records(xs), k));
    }
    NothingToDrop(op, ys);
  }

  /** `r` carries the content its key had last in `history`. */
  predicate IsCurrent<R>(op: Operator<R>, history: seq<R>, r: R)
  {
    var own := OfKey(op, history, op.key(r));
    own != [] && op.hash(Last(own)) == op.hash(r)
  }

  lemma {:induction false} CurrentRecordsChangeNothing<R>(op: Operator<R>, history: seq<R>, block: seq<R>, k: string)
    requires forall r :: r in block ==> IsCurrent(op, history, r)
    ensures OfKey(op, history, k) == [] ==> OfKey(op, history + block, k) == []
    ensures OfKey(op, history, k) != [] ==>
              && OfKey(op, history + block, k) != []
              && op.hash(Last(OfKey(op, history + block, k))) == op.hash(Last(OfKey(op, history, k)))
    decreases |block|
  {
    if block == [] {
      assert history + block == history;
    } else {
      assert IsCurrent(op, history, Last(block));
      CurrentRecordsChangeNothing(op, history, DropLast(block), k);
      assert history + block == history + DropLast(block) + [Last(block)];
      OfKeySnoc(op, history + DropLast(block), Last(block), k);
    }
  }

  lemma {:induction false} EmittedGrows<R>(op: Operator<R>, xs: seq<Sighting<R>>, ys: seq<Sighting<R>>)
    ensures Emitted(op, xs) <= Emitted(op, xs + ys)
    decreases |ys|
  {
    if ys == [] {
      assert xs + ys == xs;
    } else {
      EmittedGrows(op, xs, DropLast(ys));
      assert DropLast(xs + ys) == xs + DropLast(ys);
    }
  }

  lemma RecordsConcat<R>(xs: seq<Sighting<R>>, ys: seq<Sighting<R>>)
    ensures Records(xs + ys) == Records(xs) + Records(ys)
  {
  }

  /** After current records only, one more record in time is dropped exactly when it is current too. */
  lemma {:induction false} NextOfReplay<R>(op: Operator<R>, xs: seq<Sighting<R>>, ys: seq<Sighting<R>>, y: Sighting<R>)
    requires forall r :: r in Records(ys) ==> IsCurrent(op, Records(xs), r)
    requires InTime(op, xs + ys + [y], op.key(y.record))
    ensures Emitted(op, xs + ys + [y])
         == if IsCurrent(op, Records(xs), y.record) then Emitted(op, xs + ys) else Emitted(op, xs + ys) + [y.record]
  {
    assert DropLast(xs + ys + [y]) == xs + ys;
    RecordsConcat(xs, ys);
    CurrentRecordsChangeNothing(op, Records(xs), Records(ys), op.key(y.record));
    DropsIffSameContentInTime(op, xs + ys + [y]);
  }

  /**
   * Exactly which replays are silent: a block arriving after `xs` is dropped whole if and only if
   * every record in it carries the content its key had last before the block.
   */
  lemma {:induction false} ReplayIsSilentIff<R>(op: Operator<R>, xs: seq<Sighting<R>>, ys: seq<Sighting<R>>)
    requires forall k :: InTime(op, xs + ys, k)
    ensures Emitted(op, xs + ys) == Emitted(op, xs) <==>
            forall r :: r in Records(ys) ==> IsCurrent(op, Records(xs), r)
    decreases |ys|
  {
    if ys == [] {
      assert xs + ys == xs;
    } else {
      var front, y := DropLast(ys), Last(ys);
      assert xs + ys == xs + front + [y] && DropLast(xs + ys) == xs + front;
      forall k
        ensures InTime(op, xs + front, k)
      {
        assert InTime(op, xs + ys, k);
      }
      ReplayIsSilentIff(op, xs, front);
      EmittedGrows(op, xs, front);
      EmittedGrows(op, xs + front, [y]);
      assert Records(ys) == Records(front) + [y.record];
      if forall r :: r in Records(front) ==> IsCurrent(op, Records(xs), r) {
        NextOfReplay(op, xs, front, y);
      }
    }
  }

  /**
   * The slogan "a replay is dropped" fails as soon as a block holds two contents of one key: every
   * one of its records is emitted a second time.
   */
  lemma ReplayOfTwoVersionsReEmits<R>(op: Operator<R>, a: R, b: R, times: seq<int>)
    requires op.key(a) == op.key(b) && op.hash(a) != op.hash(b)
    requires |times| == 4
    ensures var xs := [Sighting(a, times[0]), Sighting(b, times[1]), Sighting(a, times[2]), Sighting(b, times[3])];
            Emitted(op, xs) == [a, b, a, b]
  {
    var xs := [Sighting(a, times[0]), Sighting(b, times[1]), Sighting(a, times[2]), Sighting(b, times[3])];
    assert DropLast(xs) == xs[..3] && DropLast(xs[..3]) == xs[..2];
    assert DropLast(xs[..2]) == xs[..1] && DropLast(xs[..1]) == [];
    assert Emitted(op, xs[..1]) == [a];
    assert Emitted(op, xs[..2]) == [a, b];
    assert Emitted(op, xs[..3]) == [a, b, a];
  }

  // ---------------------------------------------------------------------------
  // A stateless map in front of the operator

  /** The operator seen by records that first go through `f`. */
  function Through<R, S>(op: Operator<S>, f: R -> S): Operator<R>
  {
    Operator(r => op.key(f(r)), r => op.hash(f(r)), r => op.version(f(r)), op.ttlMs)
  }

  function MapAll<R, S>(f: R -> S, rs: seq<R>): (ss: seq<S>)
    ensures |ss| == |rs| && forall i :: 0 <= i < |rs| ==> ss[i] == f(rs[i])
  {
    if rs == [] then [] else MapAll(f, DropLast(rs)) + [f(Last(rs))]
  }

  function MapSightings<R, S>(f: R -> S, xs: seq<Sighting<R>>): (ys: seq<Sighting<S>>)
    ensures |ys| == |xs| && forall i :: 0 <= i < |xs| ==> ys[i] == Sighting(f(xs[i].record), xs[i].at)
  {
    if xs == [] then [] else MapSightings(f, DropLast(xs)) + [Sighting(f(Last(xs).record), Last(xs).at)]
  }

  /** Mapping and then deduplicating is deduplicating by the composed keys and hashes, then mapping. */
  lemma {:induction false} EmittedThrough<R, S>(op: Operator<S>, f: R -> S, xs: seq<Sighting<R>>)
    ensures After(op, MapSightings(f, xs)) == After(Through(op, f), xs)
    ensures Emitted(op, MapSightings(f, xs)) == MapAll(f, Emitted(Through(op, f), xs))
    decreases |xs|
  {
    if xs != [] {
      var ys := MapSightings(f, xs);
      EmittedThrough(op, f, DropLast(xs));
      assert DropLast(ys) == MapSightings(f, DropLast(xs)) && Last(ys) == Sighting(f(Last(xs).record), Last(xs).at);
      MapAllSnoc(f, Emitted(Through(op, f), DropLast(xs)), Last(xs).record);
    }
  }

  lemma MapAllSnoc<R, S>(f: R -> S, rs: seq<R>, r: R)
    ensures MapAll(f, rs + [r]) == MapAll(f, rs) + [f(r)]
  {
  }

  lemma {:induction false} OfKeyThrough<R, S>(op: Operator<S>, f: R -> S, rs: seq<R>, k: string)
    ensures OfKey(op, MapAll(f, rs), k) == MapAll(f, OfKey(Through(op, f), rs, k))
    decreases |rs|
  {
    if rs != [] {
      OfKeyThrough(op, f, DropLast(rs), k);
      assert DropLast(MapAll(f, rs)) == MapAll(f, DropLast(rs));
      MapAllSnoc(f, OfKey(Through(op, f), DropLast(rs), k), Last(rs));
    }
  }

  lemma {:induction false} InTimeThrough<R, S>(op: Operator<S>, f: R -> S, xs: seq<Sighting<R>>, k: string)
    ensures InTime(op, MapSightings(f, xs), k) <==> InTime(Through(op, f), xs, k)
    decreases |xs|
  {
    if xs != [] {
      var ys := MapSightings(f, xs);
      assert DropLast(ys) == MapSightings(f, DropLast(xs));
      InTimeThrough(op, f, DropLast(xs), k);
      LastOfThrough(op, f, DropLast(xs), op.key(Last(ys).record));
    }
  }

  lemma {:induction false} LastOfThrough<R, S>(op: Operator<S>, f: R -> S, xs: seq<Sighting<R>>, k: string)
    ensures LastOf(op, MapSightings(f, xs), k) == LastOf(Through(op, f), xs, k)
    decreases |xs|
  {
    if xs != [] {
      LastOfThrough(op, f, DropLast(xs), k);
      assert DropLast(MapSightings(f, xs)) == MapSightings(f, DropLast(xs));
    }
  }
}
