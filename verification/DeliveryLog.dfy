// The delivery log: waiting events, batches with a Merkle root, and the worker's steps, lost or repeated.
module DeliveryLog {
  import opened Merkle
  import opened MerkleBatch
  import opened KeyTree

  const SWEEP_AGE := 600
  const SWEEP_LIMIT := 5000

  datatype EventStatus = Queued | Batched | Anchored

  // Where an event stands in the log: its batch, its leaf and the stored proof.
  datatype Place = Place(batch: nat, leaf: nat, proof: seq<ProofStep<Bytes>>)

  // A row of chain_events. Rows are numbered in the order of insertion.
  datatype Event = Event(hash: Bytes, created: int, status: EventStatus, place: Option<Place>)

  datatype BatchStatus = Pending | Submitted | Confirmed | Failed

  // A row of chain_batches, numbered likewise.
  datatype Batch = Batch(root: Bytes, leafCount: nat, status: BatchStatus, hasTx: bool, attempts: nat)

  // The database, the Redis list of waiting ids, the ids in the hands of the process that holds the
  // flush lock, and the comments that the chain has accepted under each idempotency key.
  datatype Log = Log(events: seq<Event>, batches: seq<Batch>, queue: seq<nat>, taken: Option<seq<nat>>,
                     ledger: map<nat, Bytes>)

  const EMPTY_LOG := Log([], [], [], None, map[])

  // ------------------------------------------------------------------ what the queries return

  ghost predicate Distinct(rows: seq<nat>)
  {
    forall i, j :: 0 <= i < j < |rows| ==> rows[i] != rows[j]
  }

  predicate IsQueued(events: seq<Event>, i: nat)
  {
    i < |events| && events[i].status == Queued
  }

  predicate IsStale(events: seq<Event>, now: int, i: nat)
  {
    IsQueued(events, i) && events[i].created < now - SWEEP_AGE
  }

  // Rows that are queued and whose id is among ids, oldest first; ties in any order.
  ghost predicate Selected(events: seq<Event>, ids: seq<nat>, rows: seq<nat>)
  {
    Distinct(rows) &&
    (forall k :: 0 <= k < |rows| ==> rows[k] in ids && IsQueued(events, rows[k])) &&
    (forall i: nat :: i in ids && IsQueued(events, i) ==> i in rows) &&
    forall k, l :: 0 <= k < l < |rows| ==> events[rows[k]].created <= events[rows[l]].created
  }

  // At most SWEEP_LIMIT stale rows, and all of them when there are fewer.
  ghost predicate Swept(events: seq<Event>, now: int, rows: seq<nat>)
  {
    Distinct(rows) && |rows| <= SWEEP_LIMIT &&
    (forall i: nat :: i in rows ==> IsStale(events, now, i)) &&
    (|rows| < SWEEP_LIMIT ==> forall i: nat :: IsStale(events, now, i) ==> i in rows)
  }

  function Hashes(events: seq<Event>, rows: seq<nat>): seq<Bytes>
    requires forall k :: 0 <= k < |rows| ==> rows[k] < |events|
  {
    seq(|rows|, k requires 0 <= k < |rows| => events[rows[k]].hash)
  }

  // ------------------------------------------------------------------ the steps

  datatype Outcome = Accepted | AcceptedButCrashed | Refused | RefusedForGood

  datatype Step =
    | Record(hash: Bytes, created: int)
    | Push(id: nat)
    | Take(limit: nat)
    | Commit(rows: seq<nat>)
    | Crash
    | Sweep(now: int, rows: seq<nat>)
    | Submit(batch: nat, outcome: Outcome)
    | Check(batch: nat, seen: bool)
    | Retry(batch: nat)

  predicate HashKnown(events: seq<Event>, hash: Bytes)
  {
    exists i :: 0 <= i < |events| && events[i].hash == hash
  }

  predicate RootKnown(batches: seq<Batch>, root: Bytes)
  {
    exists b :: 0 <= b < |batches| && batches[b].root == root
  }

  // Whether the step can be taken; a Celery task can be delivered at any time, for any batch.
  ghost predicate Enabled(s: Log, step: Step)
  {
    match step
    case Take(_) => s.taken.None?
    case Commit(rows) => s.taken.Some? && Selected(s.events, s.taken.value, rows)
    case Crash => s.taken.Some?
    case Sweep(now, rows) => Swept(s.events, now, rows)
    case _ => true
  }

  ghost function IndexOf(rows: seq<nat>, i: nat): (k: nat)
    requires i in rows
    ensures k < |rows| && rows[k] == i
  {
    var k: nat :| k < |rows| && rows[k] == i;
    k
  }

  // Row k of the batch gets leaf k and the proof of that leaf.
  ghost function Assigned(h: Hash, events: seq<Event>, rows: seq<nat>, b: nat): (r: seq<Event>)
    requires forall k :: 0 <= k < |rows| ==> rows[k] < |events|
    ensures |r| == |events|
  {
    seq(|events|, i requires 0 <= i < |events| =>
      if i in rows then events[i].(status := Batched,
        place := Some(Place(b, IndexOf(rows, i), BatchProof(h, Hashes(events, rows), IndexOf(rows, i)))))
      else events[i])
  }

  ghost function Confirming(events: seq<Event>, b: nat): (r: seq<Event>)
    ensures |r| == |events|
  {
    seq(|events|, i requires 0 <= i < |events| =>
      if events[i].place.Some? && events[i].place.value.batch == b then events[i].(status := Anchored) else events[i])
  }

  ghost function AfterCommit(h: Hash, s: Log, rows: seq<nat>): Log
    requires forall k :: 0 <= k < |rows| ==> rows[k] < |s.events|
  {
    if rows == [] || RootKnown(s.batches, BatchRoot(h, Hashes(s.events, rows))) then s.(taken := None)
    else s.(events := Assigned(h, s.events, rows, |s.batches|), taken := None,
            batches := s.batches + [Batch(BatchRoot(h, Hashes(s.events, rows)), |rows|, Pending, false, 0)])
  }

  ghost function AfterSubmit(s: Log, b: nat, outcome: Outcome): Log
  {
    if b >= |s.batches| || s.batches[b].status in {Submitted, Confirmed} then s
    else
      var batch := s.batches[b];
      var ledger := if outcome in {Accepted, AcceptedButCrashed} && b !in s.ledger then s.ledger[b := batch.root] else s.ledger;
      match outcome
      case Accepted =>
        s.(ledger := ledger,
           batches := s.batches[b := batch.(status := Submitted, hasTx := true, attempts := batch.attempts + 1)])
      case AcceptedButCrashed => s.(ledger := ledger)
      case Refused => s.(batches := s.batches[b := batch.(attempts := batch.attempts + 1)])
      case RefusedForGood => s.(batches := s.batches[b := batch.(status := Failed, attempts := batch.attempts + 1)])
  }

  ghost function AfterCheck(s: Log, b: nat, seen: bool): Log
  {
    if b < |s.batches| && s.batches[b].status == Submitted && s.batches[b].hasTx && seen then
      s.(batches := s.batches[b := s.batches[b].(status := Confirmed)], events := Confirming(s.events, b))
    else s
  }

  ghost function Next(h: Hash, s: Log, step: Step): Log
    requires Enabled(s, step)
  {
    match step
    case Record(hash, created) =>
      if HashKnown(s.events, hash) then s else s.(events := s.events + [Event(hash, created, Queued, None)])
    case Push(id) => s.(queue := s.queue + [id])
    case Take(limit) =>
      var n := if limit < |s.queue| then limit else |s.queue|;
      s.(queue := s.queue[n..], taken := Some(s.queue[..n]))
    case Commit(rows) => AfterCommit(h, s, rows)
    case Crash => s.(taken := None)
    case Sweep(_, rows) => s.(queue := s.queue + rows)
    case Submit(b, outcome) => AfterSubmit(s, b, outcome)
    case Check(b, seen) => AfterCheck(s, b, seen)
    case Retry(b) =>
      if b < |s.batches| && s.batches[b].status == Failed then
        s.(batches := s.batches[b := s.batches[b].(status := Pending)])
      else s
  }

  // ------------------------------------------------------------------ what every state satisfies

  ghost predicate InBatch(e: Event, b: nat)
  {
    e.place.Some? && e.place.value.batch == b
  }

  // The rows of batch b in the order of their leaves.
  ghost predicate Roster(h: Hash, events: seq<Event>, b: nat, batch: Batch, rows: seq<nat>)
  {
    |rows| == batch.leafCount > 0 &&
    (forall k :: 0 <= k < |rows| ==> rows[k] < |events|) &&
    batch.root == BatchRoot(h, Hashes(events, rows)) &&
    (forall k :: 0 <= k < |rows| ==> events[rows[k]].place == Some(Place(b, k, BatchProof(h, Hashes(events, rows), k)))) &&
    forall i :: 0 <= i < |events| && InBatch(events[i], b) ==> i in rows
  }

  ghost predicate HasRoster(h: Hash, events: seq<Event>, b: nat, batch: Batch)
  {
    exists rows :: Roster(h, events, b, batch, rows)
  }

  ghost predicate EventOk(s: Log, i: nat)
    requires i < |s.events|
  {
    var e := s.events[i];
    (e.status == Queued <==> e.place.None?) &&
    (e.place.Some? ==>
      (e.place.value.batch < |s.batches| &&
       (e.status == Anchored <==> s.batches[e.place.value.batch].status == Confirmed)))
  }

  ghost predicate BatchOk(s: Log, b: nat)
    requires b < |s.batches|
  {
    var batch := s.batches[b];
    (batch.status in {Submitted, Confirmed} ==> batch.hasTx) && (batch.hasTx ==> b in s.ledger)
  }

  ghost predicate HashesDiffer(events: seq<Event>)
  {
    forall i, j :: 0 <= i < j < |events| ==> events[i].hash != events[j].hash
  }

  ghost predicate RootsDiffer(batches: seq<Batch>)
  {
    forall b, c :: 0 <= b < c < |batches| ==> batches[b].root != batches[c].root
  }

  ghost predicate RowsOk(s: Log)
  {
    (forall i {:trigger EventOk(s, i)} :: 0 <= i < |s.events| ==> EventOk(s, i)) &&
    (forall b {:trigger BatchOk(s, b)} :: 0 <= b < |s.batches| ==> BatchOk(s, b)) &&
    forall b :: b in s.ledger ==> b < |s.batches| && s.ledger[b] == s.batches[b].root
  }

  ghost predicate Rostered(h: Hash, events: seq<Event>, batches: seq<Batch>)
  {
    forall b {:trigger HasRoster(h, events, b, batches[b])} :: 0 <= b < |batches| ==> HasRoster(h, events, b, batches[b])
  }

  ghost predicate Inv(h: Hash, s: Log)
  {
    HashesDiffer(s.events) && RootsDiffer(s.batches) && RowsOk(s) && Rostered(h, s.events, s.batches) &&
    |SettledRows(s.events)| == TotalLeaves(s.batches)
  }

  ghost function SettledRows(events: seq<Event>): set<nat>
  {
    set i: nat | i < |events| && events[i].status != Queued
  }

  ghost function TotalLeaves(batches: seq<Batch>): nat
  {
    if batches == [] then 0 else TotalLeaves(batches[..|batches| - 1]) + batches[|batches| - 1].leafCount
  }

  // ------------------------------------------------------------------ rosters are stable

  // Rows of the batch are the same in both, up to their status.
  ghost predicate SameRows(before: seq<Event>, after: seq<Event>, b: nat)
  {
    |before| <= |after| &&
    (forall i :: 0 <= i < |before| ==> after[i].hash == before[i].hash) &&
    (forall i :: 0 <= i < |before| && InBatch(before[i], b) ==> after[i].place == before[i].place) &&
    (forall i :: 0 <= i < |after| && InBatch(after[i], b) ==> i < |before| && InBatch(before[i], b))
  }

  lemma RosterStable(h: Hash, before: seq<Event>, after: seq<Event>, b: nat, batch: Batch, newer: Batch)
    requires HasRoster(h, before, b, batch) && SameRows(before, after, b)
    requires newer.root == batch.root && newer.leafCount == batch.leafCount
    ensures HasRoster(h, after, b, newer)
  {
    var rows :| Roster(h, before, b, batch, rows);
    assert Hashes(after, rows) == Hashes(before, rows);
    assert Roster(h, after, b, newer, rows);
  }

  lemma {:induction false} TotalLeavesUpdate(batches: seq<Batch>, b: nat, batch: Batch)
    requires b < |batches| && batch.leafCount == batches[b].leafCount
    ensures TotalLeaves(batches[b := batch]) == TotalLeaves(batches)
  {
    var n := |batches| - 1;
    if b < n {
      assert batches[b := batch][..n] == batches[..n][b := batch];
      TotalLeavesUpdate(batches[..n], b, batch);
    } else {
      assert batches[b := batch][..n] == batches[..n];
    }
  }

  lemma TotalLeavesAppend(batches: seq<Batch>, batch: Batch)
    ensures TotalLeaves(batches + [batch]) == TotalLeaves(batches) + batch.leafCount
  {
    assert (batches + [batch])[..|batches|] == batches;
  }

  ghost function RowSet(rows: seq<nat>): set<nat>
  {
    set i | i in rows
  }

  lemma {:induction false} DistinctSize(rows: seq<nat>)
    requires Distinct(rows)
    ensures |RowSet(rows)| == |rows|
  {
    if rows != [] {
      var n := |rows| - 1;
      DistinctSize(rows[..n]);
      assert rows == rows[..n] + [rows[n]];
      assert RowSet(rows) == RowSet(rows[..n]) + {rows[n]} && rows[n] !in RowSet(rows[..n]);
    }
  }

  // ------------------------------------------------------------------ every step keeps it

  lemma RostersStable(h: Hash, s: Log, t: Log)
    requires RowsOk(s) && Rostered(h, s.events, s.batches) && |t.batches| == |s.batches|
    requires forall b :: 0 <= b < |s.batches| ==> SameRows(s.events, t.events, b)
    requires forall b :: 0 <= b < |s.batches| ==>
      t.batches[b].root == s.batches[b].root && t.batches[b].leafCount == s.batches[b].leafCount
    ensures Rostered(h, t.events, t.batches)
  {
    forall b | 0 <= b < |t.batches| ensures HasRoster(h, t.events, b, t.batches[b]) {
      assert HasRoster(h, s.events, b, s.batches[b]);
      RosterStable(h, s.events, t.events, b, s.batches[b], t.batches[b]);
    }
  }

  lemma SettledSame(s: Log, t: Log)
    requires |s.events| <= |t.events|
    requires forall i :: 0 <= i < |s.events| ==> (t.events[i].status == Queued <==> s.events[i].status == Queued)
    requires forall i :: |s.events| <= i < |t.events| ==> t.events[i].status == Queued
    ensures SettledRows(t.events) == SettledRows(s.events)
  {
  }

  // A batch row that changes neither root nor leaf count, and the status of its events with it.
  ghost predicate Updates(s: Log, t: Log, b: nat)
  {
    b < |s.batches| && |t.batches| == |s.batches| && t.batches == s.batches[b := t.batches[b]] &&
    t.batches[b].root == s.batches[b].root && t.batches[b].leafCount == s.batches[b].leafCount &&
    (t.ledger == s.ledger || t.ledger == s.ledger[b := s.batches[b].root]) && BatchOk(t, b) &&
    if t.batches[b].status == Confirmed then t.events == Confirming(s.events, b)
    else t.events == s.events && s.batches[b].status != Confirmed
  }

  lemma UpdateKeepsRows(s: Log, t: Log, b: nat)
    requires RowsOk(s) && Updates(s, t, b)
    ensures RowsOk(t)
  {
    forall i | 0 <= i < |t.events| ensures EventOk(t, i) {
      assert EventOk(s, i);
    }
    forall c | 0 <= c < |t.batches| ensures BatchOk(t, c) {
      assert BatchOk(s, c);
    }
  }

  lemma UpdateKeeps(h: Hash, s: Log, t: Log, b: nat)
    requires Inv(h, s) && Updates(s, t, b)
    ensures Inv(h, t)
  {
    UpdateKeepsRows(s, t, b);
    TotalLeavesUpdate(s.batches, b, t.batches[b]);
    RostersStable(h, s, t);
    forall i | 0 <= i < |s.events| ensures t.events[i].status == Queued <==> s.events[i].status == Queued {
      assert EventOk(s, i);
    }
    SettledSame(s, t);
  }

  lemma AssignedRow(h: Hash, events: seq<Event>, rows: seq<nat>, b: nat, k: nat)
    requires Distinct(rows) && k < |rows| && forall l :: 0 <= l < |rows| ==> rows[l] < |events|
    ensures Assigned(h, events, rows, b)[rows[k]] ==
      events[rows[k]].(status := Batched, place := Some(Place(b, k, BatchProof(h, Hashes(events, rows), k))))
  {
    assert rows[k] in rows && IndexOf(rows, rows[k]) == k;
  }

  ghost predicate QueuedRows(events: seq<Event>, rows: seq<nat>)
  {
    Distinct(rows) && forall k :: 0 <= k < |rows| ==> rows[k] < |events| && events[rows[k]].status == Queued
  }

  lemma NewRoster(h: Hash, s: Log, rows: seq<nat>)
    requires RowsOk(s) && rows != [] && QueuedRows(s.events, rows)
    ensures HasRoster(h, Assigned(h, s.events, rows, |s.batches|), |s.batches|,
                      Batch(BatchRoot(h, Hashes(s.events, rows)), |rows|, Pending, false, 0))
  {
    var b, batch := |s.batches|, Batch(BatchRoot(h, Hashes(s.events, rows)), |rows|, Pending, false, 0);
    var events := Assigned(h, s.events, rows, b);
    assert Hashes(events, rows) == Hashes(s.events, rows);
    forall k | 0 <= k < |rows|
      ensures events[rows[k]].place == Some(Place(b, k, BatchProof(h, Hashes(events, rows), k)))
    {
      AssignedRow(h, s.events, rows, b, k);
    }
    forall i | 0 <= i < |events| && InBatch(events[i], b) ensures i in rows {
      assert EventOk(s, i);
    }
    assert Roster(h, events, b, batch, rows);
  }

  lemma AssignedRowsOk(h: Hash, s: Log, rows: seq<nat>, t: Log)
    requires RowsOk(s) && QueuedRows(s.events, rows) && t == AfterCommit(h, s, rows)
    ensures RowsOk(t)
  {
    forall i | 0 <= i < |t.events| ensures EventOk(t, i) {
      assert EventOk(s, i);
    }
    forall c | 0 <= c < |t.batches| ensures BatchOk(t, c) {
      if c < |s.batches| {
        assert BatchOk(s, c);
      }
    }
  }

  lemma AssignedRosters(h: Hash, s: Log, rows: seq<nat>, t: Log)
    requires RowsOk(s) && Rostered(h, s.events, s.batches) && QueuedRows(s.events, rows) && t == AfterCommit(h, s, rows)
    ensures Rostered(h, t.events, t.batches)
  {
    forall c | 0 <= c < |t.batches| ensures HasRoster(h, t.events, c, t.batches[c]) {
      if c == |s.batches| {
        NewRoster(h, s, rows);
      } else {
        assert HasRoster(h, s.events, c, s.batches[c]);
        forall i | 0 <= i < |s.events|
          ensures InBatch(s.events[i], c) ==> t.events[i].place == s.events[i].place
          ensures InBatch(t.events[i], c) ==> InBatch(s.events[i], c)
        {
          assert EventOk(s, i);
        }
        RosterStable(h, s.events, t.events, c, s.batches[c], t.batches[c]);
      }
    }
  }

  lemma SettledGrows(h: Hash, events: seq<Event>, rows: seq<nat>, b: nat)
    requires QueuedRows(events, rows)
    ensures |SettledRows(Assigned(h, events, rows, b))| == |SettledRows(events)| + |rows|
  {
    DistinctSize(rows);
    assert SettledRows(Assigned(h, events, rows, b)) == SettledRows(events) + RowSet(rows);
    assert SettledRows(events) !! RowSet(rows);
  }

  lemma AssignedDiffer(h: Hash, s: Log, rows: seq<nat>, t: Log)
    requires HashesDiffer(s.events) && RootsDiffer(s.batches) && QueuedRows(s.events, rows) && t == AfterCommit(h, s, rows)
    ensures HashesDiffer(t.events) && RootsDiffer(t.batches)
  {
    assert |t.events| == |s.events|;
    forall i | 0 <= i < |s.events| ensures t.events[i].hash == s.events[i].hash {
    }
    if t.batches != s.batches {
      var n := |s.batches|;
      forall b | 0 <= b < n ensures s.batches[b].root != t.batches[n].root {
      }
    }
  }

  lemma AssignedTotals(h: Hash, s: Log, rows: seq<nat>, t: Log)
    requires |SettledRows(s.events)| == TotalLeaves(s.batches) && QueuedRows(s.events, rows) && t == AfterCommit(h, s, rows)
    ensures |SettledRows(t.events)| == TotalLeaves(t.batches)
  {
    if rows != [] && !RootKnown(s.batches, BatchRoot(h, Hashes(s.events, rows))) {
      TotalLeavesAppend(s.batches, t.batches[|s.batches|]);
      SettledGrows(h, s.events, rows, |s.batches|);
    }
  }

  lemma CommitKeeps(h: Hash, s: Log, rows: seq<nat>)
    requires Inv(h, s) && QueuedRows(s.events, rows)
    ensures Inv(h, AfterCommit(h, s, rows))
  {
    var t := AfterCommit(h, s, rows);
    AssignedDiffer(h, s, rows, t);
    AssignedRowsOk(h, s, rows, t);
    AssignedRosters(h, s, rows, t);
    AssignedTotals(h, s, rows, t);
  }

  lemma RecordKeeps(h: Hash, s: Log, hash: Bytes, created: int)
    requires Inv(h, s) && !HashKnown(s.events, hash)
    ensures Inv(h, s.(events := s.events + [Event(hash, created, Queued, None)]))
  {
    var t := s.(events := s.events + [Event(hash, created, Queued, None)]);
    forall i | 0 <= i < |t.events| ensures EventOk(t, i) {
      if i < |s.events| {
        assert EventOk(s, i);
      }
    }
    forall c | 0 <= c < |t.batches| ensures BatchOk(t, c) {
      assert BatchOk(s, c);
    }
    RostersStable(h, s, t);
    SettledSame(s, t);
  }

  lemma QueueKeeps(h: Hash, s: Log, t: Log)
    requires Inv(h, s) && t == s.(queue := t.queue, taken := t.taken)
    ensures Inv(h, t)
  {
    forall i | 0 <= i < |t.events| ensures EventOk(t, i) {
      assert EventOk(s, i);
    }
    forall c | 0 <= c < |t.batches| ensures BatchOk(t, c) {
      assert BatchOk(s, c);
    }
    RostersStable(h, s, t);
  }

  // No step of any process, crash or repetition breaks the log.
  lemma StepKeeps(h: Hash, s: Log, step: Step)
    requires Inv(h, s) && Enabled(s, step)
    ensures Inv(h, Next(h, s, step))
  {
    var t := Next(h, s, step);
    match step
    case Record(hash, created) => if !HashKnown(s.events, hash) { RecordKeeps(h, s, hash, created); }
    case Commit(rows) => CommitKeeps(h, s, rows);
    case Submit(b, outcome) => if t != s { assert BatchOk(s, b); UpdateKeeps(h, s, t, b); }
    case Check(b, seen) => if t != s { assert BatchOk(s, b); UpdateKeeps(h, s, t, b); }
    case Retry(b) => if t != s { assert BatchOk(s, b); UpdateKeeps(h, s, t, b); }
    case _ => QueueKeeps(h, s, t);
  }
}
