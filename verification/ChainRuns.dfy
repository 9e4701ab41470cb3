// What the history of a group says about its membership events: chain status and rotation of each, in every run.
module ChainRuns {
  import opened KeyTree
  import opened GroupModel
  import opened GroupRuns

  // One of the first n steps was this one.
  ghost predicate Did(steps: seq<Step>, n: nat, s: Step)
    requires n <= |steps|
  {
    exists k :: 0 <= k < n && steps[k] == s
  }

  // The event was confirmed, and a commit accepted afterwards.
  ghost predicate CommittedSince(steps: seq<Step>, n: nat, i: nat)
    requires n <= |steps|
  {
    exists c, k :: 0 <= c < k < n && steps[c] == ConfirmStep(i) && steps[k].CommitStep?
  }

  // Confirmed once the chain was seen to have it, submitted once the chain took it, failed if it only refused it.
  ghost function ChainOf(steps: seq<Step>, n: nat, i: nat): ChainStatus
    requires n <= |steps|
  {
    if Did(steps, n, ConfirmStep(i)) then Confirmed
    else if Did(steps, n, AnchorStep(i, true)) then Submitted
    else if Did(steps, n, AnchorStep(i, false)) then Failed
    else Pending
  }

  // The rotation is asked for by the confirmation and done by the next commit.
  ghost function RotationOf(steps: seq<Step>, n: nat, i: nat): Rotation
    requires n <= |steps|
  {
    if CommittedSince(steps, n, i) then Done else if Did(steps, n, ConfirmStep(i)) then Requested else Waiting
  }

  // An event that is there has the status of its history; with a later one nothing has happened yet.
  ghost predicate AsDone(g: Group, steps: seq<Step>, n: nat, i: nat)
    requires n <= |steps|
  {
    if i < |g.events| then g.events[i].chain == ChainOf(steps, n, i) && g.events[i].rotation == RotationOf(steps, n, i)
    else ChainOf(steps, n, i) == Pending && RotationOf(steps, n, i) == Waiting
  }

  lemma DidNext(steps: seq<Step>, n: nat, s: Step)
    requires n < |steps|
    ensures Did(steps, n + 1, s) <==> Did(steps, n, s) || steps[n] == s
  {
  }

  lemma CommittedNext(steps: seq<Step>, n: nat, i: nat)
    requires n < |steps|
    ensures CommittedSince(steps, n + 1, i) <==>
      CommittedSince(steps, n, i) || (Did(steps, n, ConfirmStep(i)) && steps[n].CommitStep?)
  {
    if c, k :| 0 <= c < k < n + 1 && steps[c] == ConfirmStep(i) && steps[k].CommitStep? {
      assert k < n ==> CommittedSince(steps, n, i);
    }
    if Did(steps, n, ConfirmStep(i)) && steps[n].CommitStep? {
      var c :| 0 <= c < n && steps[c] == ConfirmStep(i);
      assert steps[c] == ConfirmStep(i) && steps[n].CommitStep?;
    }
  }

  // What one step does to the history of one event.
  ghost predicate HistoryNext(steps: seq<Step>, n: nat, i: nat)
    requires n < |steps|
  {
    var s := steps[n];
    ChainOf(steps, n + 1, i) ==
      (if s == ConfirmStep(i) then Confirmed
       else if s == AnchorStep(i, true) && ChainOf(steps, n, i) != Confirmed then Submitted
       else if s == AnchorStep(i, false) && ChainOf(steps, n, i) == Pending then Failed
       else ChainOf(steps, n, i)) &&
    RotationOf(steps, n + 1, i) ==
      (if s == ConfirmStep(i) && RotationOf(steps, n, i) == Waiting then Requested
       else if s.CommitStep? && RotationOf(steps, n, i) == Requested then Done
       else RotationOf(steps, n, i))
  }

  lemma HistoryGoesOn(steps: seq<Step>, n: nat, i: nat)
    requires n < |steps|
    ensures HistoryNext(steps, n, i)
  {
    DidNext(steps, n, ConfirmStep(i));
    DidNext(steps, n, AnchorStep(i, true));
    DidNext(steps, n, AnchorStep(i, false));
    CommittedNext(steps, n, i);
  }

  lemma AsDoneNext(w: World, steps: seq<Step>, n: nat, v: World, i: nat)
    requires n < |steps| && AsDone(w.g, steps, n, i) && Next(w, steps[n], v)
    ensures AsDone(v.g, steps, n + 1, i)
  {
    HistoryGoesOn(steps, n, i);
  }

  lemma HistoryStep(ws: seq<World>, steps: seq<Step>, n: nat, i: nat)
    requires IsRun(ws, steps) && n < |steps| && AsDone(ws[n].g, steps, n, i)
    ensures AsDone(ws[n + 1].g, steps, n + 1, i)
  {
    AsDoneNext(ws[n], steps, n, ws[n + 1], i);
  }

  lemma {:induction false} HistoryIs(ws: seq<World>, steps: seq<Step>, n: nat, i: nat)
    requires IsRun(ws, steps) && n < |ws|
    ensures AsDone(ws[n].g, steps, n, i)
  {
    if n > 0 {
      HistoryIs(ws, steps, n - 1, i);
      HistoryStep(ws, steps, n - 1, i);
    }
  }

  // In every state of every run the chain status and the rotation of an event follow from what was done.
  lemma EventFollowsHistory(ws: seq<World>, steps: seq<Step>, n: nat, i: nat)
    requires IsRun(ws, steps) && n < |ws| && i < |ws[n].g.events|
    ensures ws[n].g.events[i].chain == ChainOf(steps, n, i)
    ensures ws[n].g.events[i].rotation == RotationOf(steps, n, i)
  {
    HistoryIs(ws, steps, n, i);
  }

  // A confirmed event was taken by the chain before: it was sent, and seen there later.
  lemma ConfirmedWasSent(ws: seq<World>, steps: seq<Step>, n: nat, i: nat)
    requires IsRun(ws, steps) && n < |ws| && i < |ws[n].g.events| && ws[n].g.events[i].chain == Confirmed
    ensures exists a, c :: 0 <= a < c < n && steps[a] == AnchorStep(i, true) && steps[c] == ConfirmStep(i)
  {
    EventFollowsHistory(ws, steps, n, i);
    var c :| 0 <= c < n && steps[c] == ConfirmStep(i);
    assert Next(ws[c], steps[c], ws[c + 1]);
    EventFollowsHistory(ws, steps, c, i);
    var a :| 0 <= a < c && steps[a] == AnchorStep(i, true);
    assert steps[a] == AnchorStep(i, true) && steps[c] == ConfirmStep(i);
  }

  // The group says that a rotation is pending exactly while some event asks for one.
  lemma PendingIffRequested(ws: seq<World>, steps: seq<Step>, n: nat)
    requires IsRun(ws, steps) && n < |ws|
    ensures ws[n].g.rotationPending <==> exists i: nat :: i < |ws[n].g.events| && RotationOf(steps, n, i) == Requested
  {
    RotationsPending(ws, steps, n);
    if i :| IsRequested(ws[n].g, i) {
      HistoryIs(ws, steps, n, i);
    }
    if i: nat :| i < |ws[n].g.events| && RotationOf(steps, n, i) == Requested {
      HistoryIs(ws, steps, n, i);
      assert IsRequested(ws[n].g, i);
    }
  }

  lemma {:induction false} RotationsPending(ws: seq<World>, steps: seq<Step>, n: nat)
    requires IsRun(ws, steps) && n < |ws|
    ensures ws[n].g.rotationPending <==> exists i :: IsRequested(ws[n].g, i)
  {
    if n > 0 {
      RotationsPending(ws, steps, n - 1);
      PendingNext(ws[n - 1], steps[n - 1], ws[n]);
    }
  }

  lemma PendingNext(w: World, s: Step, v: World)
    requires Next(w, s, v) && (w.g.rotationPending <==> exists i :: IsRequested(w.g, i))
    ensures v.g.rotationPending <==> exists i :: IsRequested(v.g, i)
  {
    if s.ConfirmStep? {
      assert IsRequested(v.g, s.i);
    } else if !s.CommitStep? {
      forall i ensures IsRequested(v.g, i) <==> IsRequested(w.g, i) {
      }
    }
  }
}
