// The worker's tasks on the delivery log, over mutable tables.
module DeliveryWorker {
  import opened Merkle
  import opened MerkleBatch
  import opened KeyTree
  import opened DeliveryLog
  import opened DeliveryRuns

  function Inserted(rows: seq<nat>, p: nat, id: nat): (r: seq<nat>)
    requires p <= |rows|
    ensures |r| == |rows| + 1
    ensures forall k :: 0 <= k < |r| ==> r[k] == if k < p then rows[k] else if k == p then id else rows[k - 1]
  {
    rows[..p] + [id] + rows[p..]
  }

  lemma InsertedRows(rows: seq<nat>, p: nat, id: nat, i: nat)
    requires p <= |rows|
    ensures i in Inserted(rows, p, id) <==> i in rows || i == id
  {
    var r := Inserted(rows, p, id);
    if i in rows {
      var k :| 0 <= k < |rows| && rows[k] == i;
      assert r[if k < p then k else k + 1] == i;
    } else if i == id {
      assert r[p] == id;
    }
  }

  lemma InsertedDistinct(rows: seq<nat>, p: nat, id: nat)
    requires Distinct(rows) && id !in rows && p <= |rows|
    ensures Distinct(Inserted(rows, p, id))
  {
  }

  // Inserted where the newer rows begin.
  lemma InsertedInOrder(events: seq<Event>, rows: seq<nat>, p: nat, id: nat)
    requires p <= |rows| && id < |events| && forall k :: 0 <= k < |rows| ==> rows[k] < |events|
    requires forall k, l :: 0 <= k < l < |rows| ==> events[rows[k]].created <= events[rows[l]].created
    requires p > 0 ==> events[rows[p - 1]].created <= events[id].created
    requires forall l :: p <= l < |rows| ==> events[id].created < events[rows[l]].created
    ensures var r := Inserted(rows, p, id);
      (forall k :: 0 <= k < |r| ==> r[k] < |events|) &&
      forall k, l :: 0 <= k < l < |r| ==> events[r[k]].created <= events[r[l]].created
  {
    assert forall k :: 0 <= k < p ==> events[rows[k]].created <= events[id].created;
  }

  lemma InsertedSelected(events: seq<Event>, ids: seq<nat>, rows: seq<nat>, p: nat, id: nat)
    requires Selected(events, ids, rows) && IsQueued(events, id) && id !in rows && p <= |rows|
    requires p > 0 ==> events[rows[p - 1]].created <= events[id].created
    requires forall l :: p <= l < |rows| ==> events[id].created < events[rows[l]].created
    ensures Selected(events, ids + [id], Inserted(rows, p, id))
  {
    var r := Inserted(rows, p, id);
    InsertedDistinct(rows, p, id);
    InsertedInOrder(events, rows, p, id);
    InsertedMembers(events, ids, rows, p, id);
  }

  lemma InsertedMembers(events: seq<Event>, ids: seq<nat>, rows: seq<nat>, p: nat, id: nat)
    requires p <= |rows| && IsQueued(events, id)
    requires forall k :: 0 <= k < |rows| ==> rows[k] in ids && IsQueued(events, rows[k])
    requires forall i: nat :: i in ids && IsQueued(events, i) ==> i in rows
    ensures var r := Inserted(rows, p, id);
      (forall k :: 0 <= k < |r| ==> r[k] in ids + [id] && IsQueued(events, r[k])) &&
      forall i: nat :: i in ids + [id] && IsQueued(events, i) ==> i in r
  {
    forall i: nat | i in ids + [id] && IsQueued(events, i) ensures i in Inserted(rows, p, id) {
      InsertedRows(rows, p, id, i);
    }
  }

  // What building a batch has done, if it has built one.
  ghost predicate Builds(h: Hash, s: Log, rows: seq<nat>, v: Log)
  {
    rows != [] && |v.events| == |s.events| && (forall k :: 0 <= k < |rows| ==> rows[k] < |s.events|) &&
    v.batches == s.batches + [Batch(BatchRoot(h, Hashes(s.events, rows)), |rows|, BatchStatus.Pending, false, 0)] &&
    (forall k :: 0 <= k < |rows| ==>
      v.events[rows[k]] == s.events[rows[k]].(status := Batched,
        place := Some(Place(|s.batches|, k, BatchProof(h, Hashes(s.events, rows), k))))) &&
    forall i :: 0 <= i < |s.events| && i !in rows ==> v.events[i] == s.events[i]
  }

  lemma CommitDoes(h: Hash, s: Log, rows: seq<nat>)
    requires Inv(h, s) && Enabled(s, Commit(rows))
    ensures var v := Next(h, s, Commit(rows));
      Inv(h, v) && Later(s, v) && v.taken == None && v.queue == s.queue &&
      if |v.batches| == |s.batches| + 1 then Builds(h, s, rows, v) else v.events == s.events && v.batches == s.batches
  {
    var v := Next(h, s, Commit(rows));
    StepKeeps(h, s, Commit(rows));
    StepIsLater(h, s, Commit(rows));
    if |v.batches| == |s.batches| + 1 {
      forall k | 0 <= k < |rows|
        ensures v.events[rows[k]] == s.events[rows[k]].(status := Batched,
          place := Some(Place(|s.batches|, k, BatchProof(h, Hashes(s.events, rows), k))))
      {
        AssignedRow(h, s.events, rows, |s.batches|, k);
      }
    }
  }

  class Journal {
    var events: seq<Event>
    var batches: seq<Batch>
    var queue: seq<nat>
    var taken: Option<seq<nat>>
    var ledger: map<nat, Bytes>

    ghost function State(): Log
      reads this
    {
      Log(events, batches, queue, taken, ledger)
    }

    constructor ()
      ensures State() == EMPTY_LOG && forall h :: Inv(h, State())
    {
      events, batches, queue, taken, ledger := [], [], [], None, map[];
    }

    // chain_service: the row, and after the commit its id in the waiting list.
    method RecordEvent(h: Hash, hash: Bytes, created: int) returns (id: Option<nat>)
      requires Inv(h, State())
      modifies this
      ensures State() == Next(h, old(State()), Record(hash, created)) && Inv(h, State()) && Later(old(State()), State())
      ensures HashKnown(events, hash) && (id.None? <==> HashKnown(old(events), hash))
      ensures id.Some? ==> id.value == |old(events)| && events == old(events) + [Event(hash, created, Queued, None)]
      ensures id.None? ==> events == old(events)
      ensures batches == old(batches) && queue == old(queue) && taken == old(taken) && ledger == old(ledger)
    {
      StepKeeps(h, State(), Record(hash, created));
      StepIsLater(h, State(), Record(hash, created));
      if HashKnown(events, hash) {
        return None;
      }
      id := Some(|events|);
      events := events + [Event(hash, created, Queued, None)];
      assert events[|events| - 1].hash == hash;
    }

    method PushId(h: Hash, id: nat)
      requires Inv(h, State())
      modifies this
      ensures State() == Next(h, old(State()), Push(id)) && Inv(h, State()) && Later(old(State()), State())
      ensures id < |events| ==> OnItsWay(State(), id, |queue|)
      ensures queue == old(queue) + [id] && events == old(events) && batches == old(batches)
    {
      StepKeeps(h, State(), Push(id));
      StepIsLater(h, State(), Push(id));
      assert (queue + [id])[|queue|] == id;
      queue := queue + [id];
    }

    // flush_batch, first half: the lock and the ids.
    method TakeIds(h: Hash, limit: nat) returns (ok: bool)
      requires Inv(h, State())
      modifies this
      ensures ok <==> old(taken).None?
      ensures State() == if ok then Next(h, old(State()), Take(limit)) else old(State())
      ensures Inv(h, State()) && Later(old(State()), State())
      ensures ok ==> taken.Some? && taken.value + queue == old(queue) && |taken.value| == if limit < |old(queue)| then limit else |old(queue)|
      ensures events == old(events) && batches == old(batches) && ledger == old(ledger)
    {
      if taken.None? {
        StepKeeps(h, State(), Take(limit));
      }
      ok := taken.None?;
      if ok {
        var n := if limit < |queue| then limit else |queue|;
        taken, queue := Some(queue[..n]), queue[n..];
      }
    }

    // The process dies, or the transaction is rolled back; the lock expires.
    method Abandon(h: Hash)
      requires taken.Some? && Inv(h, State())
      modifies this
      ensures State() == Next(h, old(State()), Crash) && Inv(h, State()) && Later(old(State()), State())
      ensures forall i: nat :: i in old(taken).value && IsQueued(old(events), i) ==> IsQueued(events, i)
      ensures taken == None && queue == old(queue) && events == old(events) && batches == old(batches)
    {
      StepKeeps(h, State(), Crash);
      taken := None;
    }

    // The query of flush_batch: queued rows among the ids, oldest first.
    method SelectQueued(ids: seq<nat>) returns (rows: seq<nat>)
      ensures Selected(events, ids, rows)
    {
      rows := [];
      for k := 0 to |ids|
        invariant Selected(events, ids[..k], rows)
      {
        assert ids[..k + 1] == ids[..k] + [ids[k]];
        if ids[k] < |events| && events[ids[k]].status == Queued && ids[k] !in rows {
          rows := Insert(ids[..k], rows, ids[k]);
        }
      }
      assert ids[..|ids|] == ids;
    }

    method Insert(ids: seq<nat>, rows: seq<nat>, id: nat) returns (r: seq<nat>)
      requires Selected(events, ids, rows) && IsQueued(events, id) && id !in rows
      ensures Selected(events, ids + [id], r)
    {
      var p: nat := |rows|;
      while p > 0 && events[rows[p - 1]].created > events[id].created
        invariant p <= |rows| && forall l :: p <= l < |rows| ==> events[id].created < events[rows[l]].created
      {
        p := p - 1;
      }
      r := Inserted(rows, p, id);
      InsertedSelected(events, ids, rows, p, id);
    }

    // flush_batch, second half: one transaction that builds the tree and assigns the rows.
    method CommitBatch(h: Hash) returns (rows: seq<nat>, built: bool)
      requires taken.Some? && Inv(h, State())
      modifies this
      ensures Enabled(old(State()), Commit(rows))
      ensures State() == Next(h, old(State()), Commit(rows)) && Inv(h, State()) && Later(old(State()), State())
      ensures built <==> |batches| == |old(batches)| + 1
      // one pending batch with the root of the selected rows, each of which has its leaf; or nothing
      ensures Selected(old(events), old(taken).value, rows) && taken == None && queue == old(queue)
      ensures !built ==> events == old(events) && batches == old(batches)
      ensures built ==> Builds(h, old(State()), rows, State())
    {
      ghost var before := State();
      rows, built := BuildBatch(h);
      CommitDoes(h, before, rows);
    }

    method BuildBatch(h: Hash) returns (rows: seq<nat>, built: bool)
      requires taken.Some?
      modifies this
      ensures Enabled(old(State()), Commit(rows)) && State() == Next(h, old(State()), Commit(rows))
      ensures built <==> |batches| == |old(batches)| + 1
    {
      rows := SelectQueued(taken.value);
      taken := None;
      if rows == [] {
        return rows, false;
      }
      var hashes := Hashes(events, rows);
      var tree := Build(h, hashes);
      if RootKnown(batches, tree.root) {
        return rows, false;
      }
      var b := |batches|;
      batches := batches + [Batch(tree.root, |rows|, Pending, false, 0)];
      AssignRows(h, rows, b, tree.proofs);
      built := true;
    }

    method AssignRows(h: Hash, rows: seq<nat>, b: nat, proofs: seq<seq<ProofStep<Bytes>>>)
      requires QueuedRows(events, rows) && |proofs| == |rows|
      requires forall k :: 0 <= k < |rows| ==> proofs[k] == BatchProof(h, Hashes(events, rows), k)
      modifies this`events
      ensures events == Assigned(h, old(events), rows, b)
    {
      ghost var target := Assigned(h, events, rows, b);
      for k := 0 to |rows|
        invariant |events| == |old(events)|
        invariant forall i :: 0 <= i < |events| ==> events[i] == if i in rows[..k] then target[i] else old(events)[i]
      {
        AssignedRow(h, old(events), rows, b, k);
        assert rows[..k + 1] == rows[..k] + [rows[k]];
        assert rows[k] !in rows[..k];
        events := events[rows[k] := events[rows[k]].(status := Batched, place := Some(Place(b, k, proofs[k])))];
      }
      assert rows[..|rows|] == rows;
      assert events == target;
    }

    // sweep_orphans
    method SweepOrphans(h: Hash, now: int) returns (rows: seq<nat>)
      requires Inv(h, State())
      modifies this
      ensures Swept(old(events), now, rows)
      ensures State() == Next(h, old(State()), Sweep(now, rows)) && Inv(h, State()) && Later(old(State()), State())
      ensures queue == old(queue) + rows && events == old(events) && batches == old(batches)
    {
      rows := [];
      var i: nat := 0;
      while i < |events| && |rows| < SWEEP_LIMIT
        invariant i <= |events| && |rows| <= SWEEP_LIMIT && Distinct(rows)
        invariant forall k :: 0 <= k < |rows| ==> rows[k] < i
        invariant forall j: nat :: j in rows <==> j < i && IsStale(events, now, j)
      {
        if events[i].status == Queued && events[i].created < now - SWEEP_AGE {
          rows := rows + [i];
        }
        i := i + 1;
      }
      StepKeeps(h, State(), Sweep(now, rows));
      queue := queue + rows;
    }

    // submit_batch: anchoring under the batch's id, and the commit that follows it.
    method SubmitBatch(h: Hash, b: nat, outcome: Outcome)
      requires Inv(h, State())
      modifies this
      ensures State() == Next(h, old(State()), Submit(b, outcome)) && Inv(h, State()) && Later(old(State()), State())
      ensures b in old(ledger) || outcome.Refused? || outcome.RefusedForGood? ==> ledger == old(ledger)
      ensures ledger == old(ledger) || (b < |batches| && ledger == old(ledger)[b := batches[b].root])
      // accepted: submitted; refused: as it was, and failed after the last retry; nothing for others
      ensures |batches| == |old(batches)| && events == old(events) && forall c :: 0 <= c < |batches| && c != b ==> batches[c] == old(batches)[c]
      ensures b < |batches| && old(batches)[b].status in {Submitted, Confirmed} ==> batches[b] == old(batches)[b]
      ensures b < |batches| && old(batches)[b].status in {BatchStatus.Pending, Failed} ==>
        batches[b].status == (match outcome
                              case Accepted => Submitted
                              case AcceptedButCrashed => old(batches)[b].status
                              case Refused => old(batches)[b].status
                              case RefusedForGood => Failed) &&
        (batches[b].hasTx <==> outcome.Accepted? || old(batches)[b].hasTx) &&
        batches[b].attempts == old(batches)[b].attempts + if outcome.AcceptedButCrashed? then 0 else 1
      ensures b < |batches| && (outcome.Accepted? || outcome.AcceptedButCrashed?) ==>
        b in ledger && ledger[b] == batches[b].root
    {
      if b < |batches| {
        assert BatchOk(State(), b);
      }
      StepKeeps(h, State(), Submit(b, outcome));
      StepIsLater(h, State(), Submit(b, outcome));
      if b >= |batches| || batches[b].status == Submitted || batches[b].status == Confirmed {
        return;
      }
      if (outcome == Accepted || outcome == AcceptedButCrashed) && b !in ledger {
        ledger := ledger[b := batches[b].root];
      }
      var attempts := batches[b].attempts + 1;
      match outcome
      case Accepted => batches := batches[b := batches[b].(status := Submitted, hasTx := true, attempts := attempts)];
      case AcceptedButCrashed =>
      case Refused => batches := batches[b := batches[b].(attempts := attempts)];
      case RefusedForGood => batches := batches[b := batches[b].(status := Failed, attempts := attempts)];
    }

    // confirm_batch
    method ConfirmBatch(h: Hash, b: nat, seen: bool) returns (confirmed: bool)
      requires Inv(h, State())
      modifies this
      ensures State() == Next(h, old(State()), Check(b, seen)) && Inv(h, State()) && Later(old(State()), State())
      ensures confirmed <==> b < |batches| && batches[b].status == Confirmed
      // confirmed exactly if it was, or if it was submitted and the chain has it; then its events are too
      ensures confirmed <==>
        (b < |old(batches)| && (old(batches)[b].status == Confirmed ||
                                (old(batches)[b].status == Submitted && old(batches)[b].hasTx && seen)))
      ensures !(b < |old(batches)| && old(batches)[b].status == Submitted && old(batches)[b].hasTx && seen) ==>
        State() == old(State())
      ensures |events| == |old(events)| && forall i :: 0 <= i < |events| ==>
        if confirmed && InBatch(old(events)[i], b) then events[i] == old(events)[i].(status := Anchored) else events[i] == old(events)[i]
      ensures |batches| == |old(batches)| && forall c :: 0 <= c < |batches| && c != b ==> batches[c] == old(batches)[c]
    {
      StepKeeps(h, State(), Check(b, seen));
      StepIsLater(h, State(), Check(b, seen));
      forall i | 0 <= i < |events| && InBatch(events[i], b)
        ensures b < |batches| && batches[b].status == Confirmed ==> events[i].status == Anchored
      {
        assert EventOk(State(), i);
      }
      if b >= |batches| || batches[b].status != Submitted || !batches[b].hasTx {
        return b < |batches| && batches[b].status == Confirmed;
      }
      if !seen {
        return false;
      }
      batches := batches[b := batches[b].(status := Confirmed)];
      ConfirmRows(b);
      confirmed := true;
    }

    method ConfirmRows(b: nat)
      modifies this`events
      ensures events == Confirming(old(events), b)
    {
      for i := 0 to |events|
        invariant |events| == |old(events)|
        invariant forall j :: 0 <= j < |events| ==> events[j] == if j < i then Confirming(old(events), b)[j] else old(events)[j]
      {
        if events[i].place.Some? && events[i].place.value.batch == b {
          events := events[i := events[i].(status := Anchored)];
        }
      }
    }

    // retry_batch
    method RetryBatch(h: Hash, b: nat)
      requires Inv(h, State())
      modifies this
      ensures State() == Next(h, old(State()), Retry(b)) && Inv(h, State()) && Later(old(State()), State())
      ensures b < |batches| ==> batches[b].status != Failed
      ensures |batches| == |old(batches)| && events == old(events) && forall c :: 0 <= c < |batches| ==>
        batches[c] == if c == b && old(batches)[c].status == Failed then old(batches)[c].(status := BatchStatus.Pending) else old(batches)[c]
    {
      StepKeeps(h, State(), Retry(b));
      StepIsLater(h, State(), Retry(b));
      if b < |batches| && batches[b].status == Failed {
        batches := batches[b := batches[b].(status := Pending)];
      }
    }
  }
}
