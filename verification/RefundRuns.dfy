// Cancelling a pairing request and giving its generation slot back: two stores, and a crash in between at any time.
module RefundRuns {
  import opened KeyTree
  import opened Sessions
  import opened Pairing
  import Q = GenerationQuota

  // One pairing request and the generations of its identity; owed counts the processes that were told
  // to give the slot back and have neither done so nor died.
  datatype State = State(w: World, history: seq<Q.Generation>, owed: nat)

  datatype Move =
    | Act(action: Action, now: int)
    // the SQL half of a cancellation
    | GiveBack(at: real)
    | Die
    // generations and refunds of other requests
    | Generate(attempt: Q.Attempt)
    | GiveBackOther(request: nat, cutoff: real)

  predicate CanMove(s: State, request: nat, m: Move)
  {
    match m
    case Act(action, now) => Takes(s.w, request, action, now)
    case GiveBack(_) => s.owed > 0
    case Die => s.owed > 0
    case Generate(attempt) => attempt.request != request
    case GiveBackOther(other, _) => other != request
  }

  function ReplyTo(w: World, request: nat, action: Action, now: int): Reply
    requires Takes(w, request, action, now)
  {
    Acts(w, request, action, now).1
  }

  function Moved(s: State, request: nat, m: Move): State
    requires CanMove(s, request, m)
  {
    match m
    case Act(action, now) =>
      State(Acts(s.w, request, action, now).0, s.history,
            s.owed + if ReplyTo(s.w, request, action, now).Refund? then 1 else 0)
    case GiveBack(at) => s.(history := Q.Refund(s.history, request, at - Q.TTL), owed := s.owed - 1)
    case Die => s.(owed := s.owed - 1)
    case Generate(attempt) => s.(history := s.history + [Q.Generation(attempt, false)])
    case GiveBackOther(other, cutoff) => s.(history := Q.Refund(s.history, other, cutoff))
  }

  ghost predicate Reaches(s: State, request: nat, run: seq<Move>, t: State)
    decreases |run|
  {
    if run == [] then s == t
    else CanMove(s, request, run[0]) && Reaches(Moved(s, request, run[0]), request, run[1..], t)
  }

  // The request was generated once, as number k.
  ghost predicate OneSlot(history: seq<Q.Generation>, request: nat, k: nat)
  {
    k < |history| && forall i :: 0 <= i < |history| ==> (history[i].attempt.request == request <==> i == k)
  }

  ghost predicate Begins(s: State, request: nat, k: nat)
  {
    Starts(s.w, request) && OneSlot(s.history, request, k) && !s.history[k].refunded && s.owed == 0
  }

  // ------------------------------------------------------------------ a refund needs a pending request

  // A cancellation with the right secret that finds the record alive and pending.
  predicate CancelsPending(w: World, m: Move)
  {
    m.Act? && m.action.Update? && m.action.change.Cancel? && w.record.Some? && m.now < w.record.value.expiresAt &&
    w.record.value.status == Pending && m.action.change.poll == w.record.value.poll
  }

  ghost predicate CancelledPending(s: State, request: nat, run: seq<Move>)
    decreases |run|
  {
    run != [] && CanMove(s, request, run[0]) &&
    (CancelsPending(s.w, run[0]) || CancelledPending(Moved(s, request, run[0]), request, run[1..]))
  }

  // Nothing of a refund yet.
  ghost predicate Unowed(s: State, request: nat, k: nat)
  {
    OneSlot(s.history, request, k) && !s.history[k].refunded && s.owed == 0 &&
    (s.w.record.Some? ==> !s.w.record.value.refundPending)
  }

  // What giving back does to the one slot, and to all others.
  lemma GiveBackIs(history: seq<Q.Generation>, request: nat, k: nat, cutoff: real)
    requires OneSlot(history, request, k)
    ensures var after := Q.Refund(history, request, cutoff);
      OneSlot(after, request, k) && (after == history || after == history[k := history[k].(refunded := true)])
    ensures history[k].refunded ==> Q.Refund(history, request, cutoff) == history
  {
    var after := Q.Refund(history, request, cutoff);
    forall i | 0 <= i < |history|
      ensures after[i].attempt == history[i].attempt
      ensures i != k ==> after[i] == history[i]
      ensures after[i].refunded == history[i].refunded || after[i].refunded
      ensures history[i].refunded ==> after[i] == history[i]
    {
      Q.RefundOnlyOwn(history, request, cutoff, i);
      RefundOnlySets(history, request, cutoff, i);
    }
  }

  lemma {:induction false} RefundOnlySets(history: seq<Q.Generation>, request: nat, cutoff: real, i: nat)
    requires i < |history|
    ensures var g := Q.Refund(history, request, cutoff)[i]; g == history[i] || g == history[i].(refunded := true)
  {
    var n := |history| - 1;
    if i < n {
      RefundOnlySets(history[..n], request, cutoff, i);
    }
  }

  lemma OtherGiveBack(history: seq<Q.Generation>, request: nat, k: nat, other: nat, cutoff: real)
    requires OneSlot(history, request, k) && other != request
    ensures var after := Q.Refund(history, other, cutoff); OneSlot(after, request, k) && after[k] == history[k]
  {
    forall i | 0 <= i < |history| ensures Q.Refund(history, other, cutoff)[i].attempt == history[i].attempt {
      Q.RefundOnlyOwn(history, other, cutoff, i);
    }
    Q.RefundOnlyOwn(history, other, cutoff, k);
  }

  lemma SlotStays(s: State, request: nat, k: nat, m: Move)
    requires CanMove(s, request, m) && OneSlot(s.history, request, k)
    ensures OneSlot(Moved(s, request, m).history, request, k)
    ensures s.history[k].refunded ==> Moved(s, request, m).history[k].refunded
    ensures !m.GiveBack? ==> Moved(s, request, m).history[k] == s.history[k]
  {
    match m
    case GiveBack(at) => GiveBackIs(s.history, request, k, at - Q.TTL);
    case GiveBackOther(other, cutoff) => OtherGiveBack(s.history, request, k, other, cutoff);
    case _ =>
  }

  // Only a cancellation of a pending request starts a refund.
  lemma UnowedStays(s: State, request: nat, k: nat, m: Move)
    requires Unowed(s, request, k) && CanMove(s, request, m) && !CancelsPending(s.w, m)
    ensures Unowed(Moved(s, request, m), request, k)
  {
    SlotStays(s, request, k, m);
  }

  lemma {:induction false} NoRefundBefore(s: State, request: nat, k: nat, run: seq<Move>, t: State)
    requires Unowed(s, request, k) && Reaches(s, request, run, t) && !CancelledPending(s, request, run)
    ensures Unowed(t, request, k)
    decreases |run|
  {
    if run != [] {
      UnowedStays(s, request, k, run[0]);
      NoRefundBefore(Moved(s, request, run[0]), request, k, run[1..], t);
    }
  }

  // In every run, a cancellation that is told to refund found the request pending, or an earlier one did;
  // and the slot is given back only after such a cancellation.
  lemma RefundsOnlyPending(s: State, request: nat, k: nat, run: seq<Move>, t: State, poll: nat, now: int)
    requires Begins(s, request, k) && Reaches(s, request, run, t)
    ensures OneSlot(t.history, request, k)
    ensures t.history[k].refunded ==> CancelledPending(s, request, run)
    ensures Updated(t.w, request, Cancel(poll), now).1.Refund? ==>
      CancelledPending(s, request, run) || CancelsPending(t.w, Act(Update(Cancel(poll)), now))
  {
    SlotRunStays(s, request, k, run, t);
    if !CancelledPending(s, request, run) {
      NoRefundBefore(s, request, k, run, t);
    }
  }

  lemma {:induction false} SlotRunStays(s: State, request: nat, k: nat, run: seq<Move>, t: State)
    requires OneSlot(s.history, request, k) && Reaches(s, request, run, t)
    ensures OneSlot(t.history, request, k) && (s.history[k].refunded ==> t.history[k].refunded)
    decreases |run|
  {
    if run != [] {
      SlotStays(s, request, k, run[0]);
      SlotRunStays(Moved(s, request, run[0]), request, k, run[1..], t);
    }
  }

  // ------------------------------------------------------------------ at most one slot

  // How many times giving back has freed a slot.
  ghost function Freed(s: State, request: nat, run: seq<Move>, t: State): nat
    requires Reaches(s, request, run, t)
    decreases |run|
  {
    if run == [] then 0
    else
      var next := Moved(s, request, run[0]);
      (if run[0].GiveBack? && next.history != s.history then 1 else 0) + Freed(next, request, run[1..], t)
  }

  // However often a cancellation is repeated, with crashes between its two steps or after them, the
  // slot of the request is freed at most once, and no other slot ever.
  lemma {:induction false} FreedAtMostOnce(s: State, request: nat, k: nat, run: seq<Move>, t: State)
    requires OneSlot(s.history, request, k) && Reaches(s, request, run, t)
    ensures OneSlot(t.history, request, k)
    ensures Freed(s, request, run, t) + (if s.history[k].refunded then 1 else 0) == if t.history[k].refunded then 1 else 0
    decreases |run|
  {
    if run != [] {
      SlotStays(s, request, k, run[0]);
      if run[0].GiveBack? {
        GiveBackIs(s.history, request, k, run[0].at - Q.TTL);
      }
      FreedAtMostOnce(Moved(s, request, run[0]), request, k, run[1..], t);
    }
  }

  // ------------------------------------------------------------------ a refund is not forgotten

  // Until the refund is noted as done, a repeated cancellation is told to refund again.
  lemma {:induction false} CancelAsksAgain(s: State, request: nat, run: seq<Move>, t: State, poll: nat, now: int)
    requires Reaches(s, request, run, t) && s.w.record.Some? && s.w.record.value.refundPending && RecordOk(s.w.record.value)
    requires forall i :: 0 <= i < |run| ==> !(run[i].Act? && run[i].action.Update? && run[i].action.change.ClearRefund?)
    requires t.w.record.Some? && now < t.w.record.value.expiresAt && poll == t.w.record.value.poll
    ensures Updated(t.w, request, Cancel(poll), now).1 == Refund(s.w.record.value.identity)
    decreases |run|
  {
    if run != [] {
      var next := Moved(s, request, run[0]);
      StillPending(s, request, run[0]);
      if next.w.record.None? {
        GoneForGood(next, request, run[1..], t);
        assert false;
      }
      CancelAsksAgain(next, request, run[1..], t, poll, now);
    }
  }

  lemma StillPending(s: State, request: nat, m: Move)
    requires CanMove(s, request, m) && s.w.record.Some? && s.w.record.value.refundPending && RecordOk(s.w.record.value)
    requires !(m.Act? && m.action.Update? && m.action.change.ClearRefund?)
    ensures var r := Moved(s, request, m).w.record;
      r.Some? ==> r.value.refundPending && RecordOk(r.value) && r.value.identity == s.w.record.value.identity
  {
  }

  lemma {:induction false} GoneForGood(s: State, request: nat, run: seq<Move>, t: State)
    requires Reaches(s, request, run, t) && s.w.record.None?
    ensures t.w.record.None?
    decreases |run|
  {
    if run != [] {
      GoneForGood(Moved(s, request, run[0]), request, run[1..], t);
    }
  }
}
