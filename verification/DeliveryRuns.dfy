// What holds over every run of the delivery log, with crashes, sweeps and repeated tasks.
module DeliveryRuns {
  import opened Merkle
  import opened MerkleBatch
  import opened KeyTree
  import opened DeliveryLog

  // ------------------------------------------------------------------ runs

  ghost predicate Reaches(h: Hash, s: Log, steps: seq<Step>, t: Log)
    decreases |steps|
  {
    if steps == [] then s == t
    else Enabled(s, steps[0]) && Reaches(h, Next(h, s, steps[0]), steps[1..], t)
  }

  function Rank(status: EventStatus): nat
  {
    match status case Queued => 0 case Batched => 1 case Anchored => 2
  }

  ghost predicate EventLater(e: Event, f: Event)
  {
    f.hash == e.hash && f.created == e.created && Rank(e.status) <= Rank(f.status) &&
    (e.place.Some? ==> f.place == e.place)
  }

  ghost predicate BatchLater(b: Batch, c: Batch)
  {
    c.root == b.root && c.leafCount == b.leafCount && (b.status == Confirmed ==> c.status == Confirmed)
  }

  // Rows are never removed, an event keeps the place it was given and its status only advances;
  // a batch keeps its root, stays confirmed, and what the chain accepted stays accepted.
  ghost predicate Later(s: Log, t: Log)
  {
    |s.events| <= |t.events| && |s.batches| <= |t.batches| &&
    (forall i :: 0 <= i < |s.events| ==> EventLater(s.events[i], t.events[i])) &&
    (forall b :: 0 <= b < |s.batches| ==> BatchLater(s.batches[b], t.batches[b])) &&
    forall b :: b in s.ledger ==> b in t.ledger && t.ledger[b] == s.ledger[b]
  }

  lemma StepIsLater'(h: Hash, s: Log, step: Step)
    requires Enabled(s, step)
    requires forall i :: 0 <= i < |s.events| ==> (s.events[i].status == Queued <==> s.events[i].place.None?)
    ensures Later(s, Next(h, s, step))
  {
  }

  lemma StepIsLater(h: Hash, s: Log, step: Step)
    requires RowsOk(s) && Enabled(s, step)
    ensures Later(s, Next(h, s, step))
  {
    forall i | 0 <= i < |s.events| ensures s.events[i].status == Queued <==> s.events[i].place.None? {
      assert EventOk(s, i);
    }
    StepIsLater'(h, s, step);
  }

  lemma {:induction false} RunKeeps(h: Hash, s: Log, steps: seq<Step>, t: Log)
    requires Inv(h, s) && Reaches(h, s, steps, t)
    ensures Inv(h, t) && Later(s, t)
    decreases |steps|
  {
    if steps != [] {
      var next := Next(h, s, steps[0]);
      StepKeeps(h, s, steps[0]);
      StepIsLater(h, s, steps[0]);
      RunKeeps(h, next, steps[1..], t);
    }
  }

  lemma EveryRunKeeps(h: Hash, steps: seq<Step>, t: Log)
    requires Reaches(h, EMPTY_LOG, steps, t)
    ensures Inv(h, t)
  {
    assert Inv(h, EMPTY_LOG);
    RunKeeps(h, EMPTY_LOG, steps, t);
  }

  // ------------------------------------------------------------------ what an event can rely on

  // The stored proof of an event verifies against the root of its batch ...
  lemma StoredProofVerifies(h: Hash, s: Log, i: nat)
    requires Inv(h, s) && i < |s.events| && s.events[i].status != Queued
    ensures s.events[i].place.Some? && s.events[i].place.value.batch < |s.batches|
    ensures var place := s.events[i].place.value;
      Verifies(h, s.events[i].hash, place.proof, s.batches[place.batch].root) &&
      place.leaf < s.batches[place.batch].leafCount &&
      |place.proof| <= CeilLog2(s.batches[place.batch].leafCount)
  {
    assert EventOk(s, i);
    var b := s.events[i].place.value.batch;
    assert HasRoster(h, s.events, b, s.batches[b]);
    var rows :| Roster(h, s.events, b, s.batches[b], rows);
    var k: nat :| k < |rows| && rows[k] == i;
    var hashes := LeafHashes(h, Hashes(s.events, rows));
    AuditPathVerifies(NodeOf(h), hashes, k);
    AuditPathLength(NodeOf(h), hashes, k);
  }

  // ... and once the event is confirmed, against a root that the chain has accepted.
  lemma ConfirmedIsOnChain(h: Hash, s: Log, i: nat)
    requires Inv(h, s) && i < |s.events| && s.events[i].status == Anchored
    ensures s.events[i].place.Some?
    ensures var place := s.events[i].place.value;
      place.batch in s.ledger && Verifies(h, s.events[i].hash, place.proof, s.ledger[place.batch])
  {
    StoredProofVerifies(h, s, i);
    assert EventOk(s, i);
    assert BatchOk(s, s.events[i].place.value.batch);
  }

  // An event is confirmed exactly when its batch is.
  lemma ConfirmedWithBatch(h: Hash, s: Log, i: nat)
    requires Inv(h, s) && i < |s.events| && s.events[i].place.Some?
    ensures s.events[i].place.value.batch < |s.batches|
    ensures s.events[i].status == Anchored <==> s.batches[s.events[i].place.value.batch].status == Confirmed
  {
    assert EventOk(s, i);
  }

  // ------------------------------------------------------------------ what the chain was asked

  // Rows and batches of a log that are new in a later one start queued and pending; a step changes a
  // batch to confirmed only by a check that saw it on the chain.
  lemma ConfirmedByCheck(h: Hash, s: Log, step: Step, b: nat)
    requires Enabled(s, step) && b < |Next(h, s, step).batches| && Next(h, s, step).batches[b].status == Confirmed
    ensures (b < |s.batches| && s.batches[b].status == Confirmed) ||
      (step == Check(b, true) && b < |s.batches| && s.batches[b].status == Submitted)
  {
  }

  lemma SubmittedByChain(h: Hash, s: Log, step: Step, b: nat)
    requires Enabled(s, step) && b < |Next(h, s, step).batches| && Next(h, s, step).batches[b].status == Submitted
    ensures (b < |s.batches| && s.batches[b].status == Submitted) || step == Submit(b, Accepted)
  {
  }

  // A confirmed batch was seen on the chain ...
  lemma {:induction false} ConfirmedWasSeen(h: Hash, s: Log, steps: seq<Step>, t: Log, b: nat)
    requires Reaches(h, s, steps, t) && b < |t.batches| && t.batches[b].status == Confirmed
    ensures (b < |s.batches| && s.batches[b].status == Confirmed) || exists c :: 0 <= c < |steps| && steps[c] == Check(b, true)
    decreases |steps|
  {
    if steps != [] {
      ConfirmedWasSeen(h, Next(h, s, steps[0]), steps[1..], t, b);
      if c :| 0 <= c < |steps| - 1 && steps[1..][c] == Check(b, true) {
        assert steps[c + 1] == Check(b, true);
      } else {
        ConfirmedByCheck(h, s, steps[0], b);
        assert steps[0] == Check(b, true) || s.batches[b].status == Confirmed;
      }
    }
  }

  // ... after the chain had accepted it.
  lemma {:induction false} ConfirmedWasSent(h: Hash, s: Log, steps: seq<Step>, t: Log, b: nat)
    requires Reaches(h, s, steps, t) && b < |t.batches| && t.batches[b].status == Confirmed
    requires b < |s.batches| ==> s.batches[b].status !in {Submitted, Confirmed}
    ensures exists a, c :: 0 <= a < c < |steps| && steps[a] == Submit(b, Accepted) && steps[c] == Check(b, true)
    decreases |steps|
  {
    var next := Next(h, s, steps[0]);
    if b < |next.batches| && next.batches[b].status == Confirmed {
      ConfirmedByCheck(h, s, steps[0], b);
    } else if b < |next.batches| && next.batches[b].status == Submitted {
      SubmittedByChain(h, s, steps[0], b);
      ConfirmedWasSeen(h, next, steps[1..], t, b);
      var c :| 0 <= c < |steps| - 1 && steps[1..][c] == Check(b, true);
      assert steps[0] == Submit(b, Accepted) && steps[c + 1] == Check(b, true);
    } else {
      ConfirmedWasSent(h, next, steps[1..], t, b);
      var a, c :| 0 <= a < c < |steps| - 1 && steps[1..][a] == Submit(b, Accepted) && steps[1..][c] == Check(b, true);
      assert steps[a + 1] == Submit(b, Accepted) && steps[c + 1] == Check(b, true);
    }
  }

  // In every run, a confirmed event has a batch that the chain accepted first and was seen to have afterwards.
  lemma AnchoredWasSeen(h: Hash, steps: seq<Step>, t: Log, i: nat)
    requires Reaches(h, EMPTY_LOG, steps, t) && i < |t.events| && t.events[i].status == Anchored
    ensures t.events[i].place.Some?
    ensures var b := t.events[i].place.value.batch;
      exists a, c :: 0 <= a < c < |steps| && steps[a] == Submit(b, Accepted) && steps[c] == Check(b, true)
  {
    EveryRunKeeps(h, steps, t);
    assert EventOk(t, i);
    ConfirmedWasSent(h, EMPTY_LOG, steps, t, t.events[i].place.value.batch);
  }

  // A submitted batch that is seen on the chain is confirmed for good, with all its events.
  lemma SeenIsConfirmed(h: Hash, s: Log, b: nat, steps: seq<Step>, t: Log)
    requires Inv(h, s) && b < |s.batches| && s.batches[b].status == Submitted
    requires Reaches(h, Next(h, s, Check(b, true)), steps, t)
    ensures b < |t.batches| && t.batches[b].status == Confirmed
    ensures forall i :: 0 <= i < |t.events| && InBatch(t.events[i], b) ==> t.events[i].status == Anchored
  {
    var next := Next(h, s, Check(b, true));
    assert BatchOk(s, b);
    StepKeeps(h, s, Check(b, true));
    assert next.batches[b].status == Confirmed;
    RunKeeps(h, next, steps, t);
    forall i | 0 <= i < |t.events| && InBatch(t.events[i], b) ensures t.events[i].status == Anchored {
      assert EventOk(t, i);
    }
  }

  // No two events share a leaf of a batch, and the leaf counts add up to the events outside the queue.
  lemma OneLeafEach(h: Hash, s: Log, i: nat, j: nat)
    requires Inv(h, s) && i < |s.events| && j < |s.events| && s.events[i].place.Some? && s.events[j].place.Some?
    requires s.events[i].place.value.batch == s.events[j].place.value.batch
    requires s.events[i].place.value.leaf == s.events[j].place.value.leaf
    ensures i == j
  {
    assert EventOk(s, i);
    var b := s.events[i].place.value.batch;
    assert HasRoster(h, s.events, b, s.batches[b]);
    var rows :| Roster(h, s.events, b, s.batches[b], rows);
    assert i in rows && j in rows;
  }

  ghost predicate HoldsProof(e: Event, b: nat, hash: Bytes, proof: seq<ProofStep<Bytes>>)
  {
    InBatch(e, b) && e.hash == hash && e.place.value.proof == proof
  }

  // Nothing but an event of the batch, with its stored proof, verifies against an accepted root.
  lemma ChainProvesMembership(h: Hash, s: Log, b: nat, hash: Bytes, proof: seq<ProofStep<Bytes>>, rows: seq<nat>, inputs: set<Bytes>)
    requires Digests(h) && Inv(h, s) && b in s.ledger && Verifies(h, hash, proof, s.ledger[b])
    requires b < |s.batches| && Roster(h, s.events, b, s.batches[b], rows)
    requires InputsOf(h, Hashes(s.events, rows), inputs) && CollisionFree(h, inputs + ProofInputs(h, hash, proof))
    ensures exists i: nat :: i < |s.events| && HoldsProof(s.events[i], b, hash, proof)
  {
    var hashes := Hashes(s.events, rows);
    VerifiesIffProofOfMember(h, hash, proof, hashes, inputs);
    var k: nat :| k < |hashes| && hashes[k] == hash && proof == BatchProof(h, hashes, k);
    assert HoldsProof(s.events[rows[k]], b, hash, proof);
  }

  // ------------------------------------------------------------------ the unique constraint on roots

  // inputs covers the strings hashed for every batch so far.
  ghost predicate Covers(h: Hash, s: Log, inputs: set<Bytes>)
  {
    forall b, rows :: 0 <= b < |s.batches| && Roster(h, s.events, b, s.batches[b], rows) ==>
      InputsOf(h, Hashes(s.events, rows), inputs)
  }

  // A new batch of queued events never has the root of an older one.
  lemma RootIsNew(h: Hash, s: Log, rows: seq<nat>, inputs: set<Bytes>)
    requires Digests(h) && Inv(h, s) && rows != [] && QueuedRows(s.events, rows)
    requires Covers(h, s, inputs) && InputsOf(h, Hashes(s.events, rows), inputs) && CollisionFree(h, inputs)
    ensures !RootKnown(s.batches, BatchRoot(h, Hashes(s.events, rows)))
  {
    forall b | 0 <= b < |s.batches| ensures s.batches[b].root != BatchRoot(h, Hashes(s.events, rows)) {
      RootDiffers(h, s, rows, inputs, b);
    }
  }

  lemma RootDiffers(h: Hash, s: Log, rows: seq<nat>, inputs: set<Bytes>, b: nat)
    requires Digests(h) && Inv(h, s) && rows != [] && QueuedRows(s.events, rows)
    requires Covers(h, s, inputs) && InputsOf(h, Hashes(s.events, rows), inputs) && CollisionFree(h, inputs)
    requires b < |s.batches|
    ensures s.batches[b].root != BatchRoot(h, Hashes(s.events, rows))
  {
    assert HasRoster(h, s.events, b, s.batches[b]);
    var older :| Roster(h, s.events, b, s.batches[b], older);
    assert EventOk(s, rows[0]);
    assert Hashes(s.events, rows)[0] == s.events[rows[0]].hash;
    assert Hashes(s.events, older)[0] == s.events[older[0]].hash;
    assert s.events[rows[0]].hash != s.events[older[0]].hash;
    if s.batches[b].root == BatchRoot(h, Hashes(s.events, rows)) {
      EqualRootsEqualBatches(h, Hashes(s.events, rows), Hashes(s.events, older), inputs);
    }
  }

  // ------------------------------------------------------------------ nothing stays behind

  // Anything but a crash, or a flush that finds its root in the log already.
  ghost predicate IsCalm(h: Hash, s: Log, step: Step)
    requires Enabled(s, step)
  {
    match step
    case Crash => false
    case Commit(rows) => rows == [] || !RootKnown(s.batches, BatchRoot(h, Hashes(s.events, rows)))
    case _ => true
  }

  ghost predicate ReachesCalmly(h: Hash, s: Log, steps: seq<Step>, t: Log)
    decreases |steps|
  {
    if steps == [] then s == t
    else Enabled(s, steps[0]) && IsCalm(h, s, steps[0]) && ReachesCalmly(h, Next(h, s, steps[0]), steps[1..], t)
  }

  // How many ids the flushes among the steps ask for.
  function Wanted(steps: seq<Step>): nat
  {
    if steps == [] then 0 else (if steps[0].Take? then steps[0].limit else 0) + Wanted(steps[1..])
  }

  lemma {:induction false} CalmIsRun(h: Hash, s: Log, steps: seq<Step>, t: Log)
    requires ReachesCalmly(h, s, steps, t)
    ensures Reaches(h, s, steps, t)
    decreases |steps|
  {
    if steps != [] {
      CalmIsRun(h, Next(h, s, steps[0]), steps[1..], t);
    }
  }

  // The row is in a batch, in the hands of a flush, or among the first m ids of the list.
  ghost predicate OnItsWay(s: Log, i: nat, m: nat)
  {
    i < |s.events| &&
    (IsQueued(s.events, i) ==> (s.taken.Some? && i in s.taken.value) || exists p :: 0 <= p < m && p < |s.queue| && s.queue[p] == i)
  }

  lemma OnItsWayNext(h: Hash, s: Log, step: Step, i: nat, m: nat)
    requires Enabled(s, step) && IsCalm(h, s, step) && OnItsWay(s, i, m)
    ensures OnItsWay(Next(h, s, step), i, if !step.Take? then m else if step.limit < m then m - step.limit else 0)
  {
    var t := Next(h, s, step);
    if IsQueued(t.events, i) && !(s.taken.Some? && i in s.taken.value) {
      var p :| 0 <= p < m && p < |s.queue| && s.queue[p] == i;
      if step.Take? {
        if step.limit <= p {
          assert t.queue[p - step.limit] == i;
        }
      } else {
        assert t.queue[p] == i;
      }
    }
  }

  // Whatever else happens, once the flushes have asked for m ids none of the first m is left behind.
  lemma {:induction false} NothingBehind(h: Hash, s: Log, steps: seq<Step>, t: Log, i: nat, m: nat)
    requires ReachesCalmly(h, s, steps, t) && OnItsWay(s, i, m) && m <= Wanted(steps) && t.taken.None?
    ensures i < |t.events| && !IsQueued(t.events, i)
    decreases |steps|
  {
    if steps != [] {
      OnItsWayNext(h, s, steps[0], i, m);
      var left := if !steps[0].Take? then m else if steps[0].limit < m then m - steps[0].limit else 0;
      NothingBehind(h, Next(h, s, steps[0]), steps[1..], t, i, left);
    }
  }

  // A sweep after any steps at all, and then calm ones with flushes for the whole list, the last one complete.
  ghost predicate SweepRound(h: Hash, s: Log, now: int, before: seq<Step>, mid: Log, rows: seq<nat>, after: seq<Step>, t: Log)
  {
    Reaches(h, s, before, mid) && Swept(mid.events, now, rows) &&
    ReachesCalmly(h, Next(h, mid, Sweep(now, rows)), after, t) &&
    |mid.queue| + |rows| <= Wanted(after) && t.taken.None?
  }

  ghost predicate Sweeps(h: Hash, s: Log, nows: seq<int>, t: Log)
    decreases |nows|
  {
    if nows == [] then s == t
    else exists before, mid, rows, after, next ::
      SweepRound(h, s, nows[0], before, mid, rows, after, next) && Sweeps(h, next, nows[1..], t)
  }

  lemma SweepRoundKeeps(h: Hash, s: Log, now: int, before: seq<Step>, mid: Log, rows: seq<nat>, after: seq<Step>, t: Log)
    requires Inv(h, s) && SweepRound(h, s, now, before, mid, rows, after, t)
    ensures Inv(h, mid) && Later(s, mid) && Inv(h, t) && Later(mid, t)
  {
    RunKeeps(h, s, before, mid);
    StepKeeps(h, mid, Sweep(now, rows));
    CalmIsRun(h, Next(h, mid, Sweep(now, rows)), after, t);
    RunKeeps(h, Next(h, mid, Sweep(now, rows)), after, t);
  }

  // What the sweep found is in a batch after its round.
  lemma SweptAreBatched(h: Hash, s: Log, now: int, before: seq<Step>, mid: Log, rows: seq<nat>, after: seq<Step>, t: Log, i: nat)
    requires SweepRound(h, s, now, before, mid, rows, after, t) && i in rows
    ensures i < |t.events| && !IsQueued(t.events, i)
  {
    var swept := Next(h, mid, Sweep(now, rows));
    var k :| 0 <= k < |rows| && rows[k] == i;
    assert swept.queue[|mid.queue| + k] == i;
    NothingBehind(h, swept, after, t, i, |swept.queue|);
  }

  // Rows of the final log t that are old at a time and were not in a batch yet.
  ghost function Waiting(s: Log, t: Log, now: int): set<nat>
  {
    set i: nat | i < |t.events| && t.events[i].created < now - SWEEP_AGE && (i < |s.events| ==> IsQueued(s.events, i))
  }

  lemma LaterTrans(s: Log, t: Log, v: Log)
    requires Later(s, t) && Later(t, v)
    ensures Later(s, v)
  {
  }

  lemma WaitingShrinks(s: Log, t: Log, v: Log, now: int)
    requires Later(s, t)
    ensures Waiting(t, v, now) <= Waiting(s, v, now)
  {
  }

  // Each round takes SWEEP_LIMIT waiting rows off, or every stale one.
  lemma RoundTakesOff(h: Hash, s: Log, now: int, before: seq<Step>, mid: Log, rows: seq<nat>, after: seq<Step>, t: Log, v: Log, last: int)
    requires Inv(h, s) && SweepRound(h, s, now, before, mid, rows, after, t) && Later(t, v) && now <= last
    ensures |Waiting(t, v, last)| + |rows| <= |Waiting(s, v, last)|
  {
    SweepRoundKeeps(h, s, now, before, mid, rows, after, t);
    LaterTrans(mid, t, v);
    WaitingShrinks(s, mid, v, last);
    WaitingShrinks(mid, t, v, last);
    forall i | i in RowSet(rows) ensures i in Waiting(mid, v, last) && i !in Waiting(t, v, last) {
      SweptAreBatched(h, s, now, before, mid, rows, after, t, i);
      assert IsStale(mid.events, now, i);
    }
    DistinctSize(rows);
    SizeOfBoth(Waiting(t, v, last), RowSet(rows), Waiting(s, v, last));
  }

  lemma SizeOfBoth(a: set<nat>, b: set<nat>, c: set<nat>)
    requires a !! b && a <= c && b <= c
    ensures |a| + |b| <= |c|
  {
    assert |a + b| == |a| + |b|;
    SubsetSize(a + b, c);
  }

  lemma {:induction false} SubsetSize(a: set<nat>, c: set<nat>)
    requires a <= c
    ensures |a| <= |c|
  {
    if a != {} {
      var x :| x in a;
      SubsetSize(a - {x}, c - {x});
    }
  }

  lemma {:induction false} SweepsKeep(h: Hash, s: Log, nows: seq<int>, t: Log)
    requires Inv(h, s) && Sweeps(h, s, nows, t)
    ensures Inv(h, t) && Later(s, t)
    decreases |nows|
  {
    if nows != [] {
      var before, mid, rows, after, next :|
        SweepRound(h, s, nows[0], before, mid, rows, after, next) && Sweeps(h, next, nows[1..], t);
      SweepRoundKeeps(h, s, nows[0], before, mid, rows, after, next);
      SweepsKeep(h, next, nows[1..], t);
      LaterTrans(s, mid, next);
      LaterTrans(s, next, t);
    }
  }

  lemma RoundBatchesOrTakesOff(
    h: Hash, s: Log, now: int, before: seq<Step>, mid: Log, rows: seq<nat>, after: seq<Step>, t: Log, v: Log, last: int, i: nat)
    requires Inv(h, s) && SweepRound(h, s, now, before, mid, rows, after, t) && Later(t, v) && now <= last
    requires i < |s.events| && s.events[i].created + SWEEP_AGE < now
    ensures i < |t.events| && t.events[i].created == s.events[i].created
    ensures IsQueued(t.events, i) ==> |Waiting(t, v, last)| + SWEEP_LIMIT <= |Waiting(s, v, last)|
  {
    SweepRoundKeeps(h, s, now, before, mid, rows, after, t);
    if i in rows {
      SweptAreBatched(h, s, now, before, mid, rows, after, t, i);
    } else if IsQueued(mid.events, i) {
      assert IsStale(mid.events, now, i);
      RoundTakesOff(h, s, now, before, mid, rows, after, t, v, last);
    }
  }

  lemma {:induction false} QueuedNoLonger(h: Hash, s: Log, nows: seq<int>, t: Log, i: nat, last: int)
    requires Inv(h, s) && Sweeps(h, s, nows, t) && i < |s.events|
    requires forall j :: 0 <= j < |nows| ==> s.events[i].created + SWEEP_AGE < nows[j] <= last
    requires s.events[i].created + SWEEP_AGE < last && |Waiting(s, t, last)| <= |nows| * SWEEP_LIMIT
    ensures i < |t.events| && !IsQueued(t.events, i)
    decreases |nows|
  {
    if nows == [] {
      assert i !in Waiting(s, t, last);
    } else {
      var before, mid, rows, after, next :|
        SweepRound(h, s, nows[0], before, mid, rows, after, next) && Sweeps(h, next, nows[1..], t);
      SweepRoundKeeps(h, s, nows[0], before, mid, rows, after, next);
      SweepsKeep(h, next, nows[1..], t);
      RoundBatchesOrTakesOff(h, s, nows[0], before, mid, rows, after, next, t, last, i);
      if IsQueued(next.events, i) {
        QueuedNoLonger(h, next, nows[1..], t, i, last);
      }
    }
  }

  // However its id was lost, a queued event is in a batch after one sweep for every SWEEP_LIMIT rows
  // that are, or get, old by the last of them, each followed by enough flushes.
  lemma SweptEventsReachABatch(h: Hash, s: Log, nows: seq<int>, t: Log, i: nat, last: int)
    requires Inv(h, s) && Sweeps(h, s, nows, t) && i < |s.events|
    requires forall j :: 0 <= j < |nows| ==> s.events[i].created + SWEEP_AGE < nows[j] <= last
    requires s.events[i].created + SWEEP_AGE < last && |Waiting(s, t, last)| <= |nows| * SWEEP_LIMIT
    ensures Inv(h, t) && Later(s, t) && t.events[i].status != Queued && t.events[i].place.Some?
  {
    SweepsKeep(h, s, nows, t);
    QueuedNoLonger(h, s, nows, t, i, last);
    assert EventOk(t, i);
  }
}
