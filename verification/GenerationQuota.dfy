// Three QR generations in twenty minutes for one identity, with refunds by request, over a row
// that is rewritten, refunded and purged.
module GenerationQuota {
  import opened KeyTree

  const TTL := 1200.0
  const GENERATION_LIMIT := 3

  datatype Attempt = Attempt(request: nat, at: real)

  // What was generated so far, in order, and whether its slot was given back.
  datatype Generation = Generation(attempt: Attempt, refunded: bool)

  // ------------------------------------------------------------------ lists

  // The attempts after a moment.
  function Recent(attempts: seq<Attempt>, cutoff: real): seq<Attempt>
  {
    if attempts == [] then []
    else
      var init := Recent(attempts[..|attempts| - 1], cutoff);
      if attempts[|attempts| - 1].at > cutoff then init + [attempts[|attempts| - 1]] else init
  }

  // All but those of one request after a moment.
  function Without(attempts: seq<Attempt>, request: nat, cutoff: real): seq<Attempt>
  {
    if attempts == [] then []
    else
      var init := Without(attempts[..|attempts| - 1], request, cutoff);
      var last := attempts[|attempts| - 1];
      if last.request == request && last.at > cutoff then init else init + [last]
  }

  // Generations that are not refunded, after a moment.
  function Held(history: seq<Generation>, cutoff: real): seq<Attempt>
  {
    if history == [] then []
    else
      var init := Held(history[..|history| - 1], cutoff);
      var last := history[|history| - 1];
      if !last.refunded && last.attempt.at > cutoff then init + [last.attempt] else init
  }

  function Refund(history: seq<Generation>, request: nat, cutoff: real): (h: seq<Generation>)
    ensures |h| == |history|
  {
    if history == [] then []
    else
      var last := history[|history| - 1];
      Refund(history[..|history| - 1], request, cutoff) +
      [if last.attempt.request == request && last.attempt.at > cutoff then last.(refunded := true) else last]
  }

  // How many generations in the window after from, up to and including to, are not refunded.
  function CountIn(history: seq<Generation>, from: real, to: real): nat
  {
    if history == [] then 0
    else
      var last := history[|history| - 1];
      CountIn(history[..|history| - 1], from, to) +
      if !last.refunded && from < last.attempt.at <= to then 1 else 0
  }

  ghost predicate UpTo(history: seq<Generation>, clock: real)
  {
    forall i :: 0 <= i < |history| ==> history[i].attempt.at <= clock
  }

  // ------------------------------------------------------------------ lemmas about them

  lemma {:induction false} CountWithin(history: seq<Generation>, from: real, to: real)
    ensures CountIn(history, from, to) <= |Held(history, from)|
    ensures UpTo(history, to) ==> CountIn(history, from, to) == |Held(history, from)|
  {
    if history != [] {
      CountWithin(history[..|history| - 1], from, to);
    }
  }

  lemma {:induction false} RecentHeld(history: seq<Generation>, horizon: real, cutoff: real)
    requires horizon <= cutoff
    ensures Recent(Held(history, horizon), cutoff) == Held(history, cutoff)
  {
    if history != [] {
      var init, last := history[..|history| - 1], history[|history| - 1];
      RecentHeld(init, horizon, cutoff);
      if !last.refunded && last.attempt.at > horizon {
        assert (Held(init, horizon) + [last.attempt])[..|Held(init, horizon)|] == Held(init, horizon);
      }
    }
  }

  lemma {:induction false} NothingHeld(history: seq<Generation>, cutoff: real)
    requires forall i :: 0 <= i < |history| ==> history[i].attempt.at <= cutoff
    ensures Held(history, cutoff) == []
  {
    if history != [] {
      NothingHeld(history[..|history| - 1], cutoff);
    }
  }

  // Giving back a slot takes exactly that attempt out, and never adds to a window.
  lemma {:induction false} RefundHeld(history: seq<Generation>, request: nat, cutoff: real, horizon: real)
    requires horizon <= cutoff
    ensures Held(Refund(history, request, cutoff), horizon) == Without(Held(history, horizon), request, cutoff)
  {
    if history != [] {
      var init, last := history[..|history| - 1], history[|history| - 1];
      var after := Refund(history, request, cutoff);
      RefundHeld(init, request, cutoff, horizon);
      assert after[..|history| - 1] == Refund(init, request, cutoff);
      if !last.refunded && last.attempt.at > horizon {
        assert (Held(init, horizon) + [last.attempt])[..|Held(init, horizon)|] == Held(init, horizon);
      }
    }
  }

  lemma {:induction false} RefundCount(history: seq<Generation>, request: nat, cutoff: real, from: real, to: real)
    ensures CountIn(Refund(history, request, cutoff), from, to) <= CountIn(history, from, to)
  {
    if history != [] {
      var init := history[..|history| - 1];
      RefundCount(init, request, cutoff, from, to);
      assert Refund(history, request, cutoff)[..|init|] == Refund(init, request, cutoff);
    }
  }

  predicate IsOwnAfter(g: Generation, request: nat, cutoff: real)
  {
    g.attempt.request == request && g.attempt.at > cutoff
  }

  // A refund touches exactly the attempts of its request in the window, and is not given twice.
  lemma {:induction false} RefundOnlyOwn(history: seq<Generation>, request: nat, cutoff: real, i: nat)
    requires i < |history|
    ensures Refund(history, request, cutoff)[i].attempt == history[i].attempt
    ensures Refund(history, request, cutoff)[i].refunded <==> history[i].refunded || IsOwnAfter(history[i], request, cutoff)
  {
    var n := |history| - 1;
    if i < n {
      RefundOnlyOwn(history[..n], request, cutoff, i);
    }
  }

  lemma {:induction false} RefundOnce(history: seq<Generation>, request: nat, cutoff: real, later: real)
    requires cutoff <= later
    ensures Refund(Refund(history, request, cutoff), request, later) == Refund(history, request, cutoff)
  {
    if history != [] {
      var init := history[..|history| - 1];
      RefundOnce(init, request, cutoff, later);
      assert Refund(history, request, cutoff)[..|init|] == Refund(init, request, cutoff);
    }
  }

  // Once the oldest attempt has left the window, fewer are held.
  lemma {:induction false} FewerLater(attempts: seq<Attempt>, cutoff: real)
    requires attempts != [] && attempts[0].at <= cutoff
    ensures |Recent(attempts, cutoff)| < |attempts|
  {
    var init := attempts[..|attempts| - 1];
    if init != [] {
      FewerLater(init, cutoff);
    }
  }

  // A refund in the window frees a slot: fewer attempts are held, and the next one finds room.
  lemma {:induction false} RefundFrees(history: seq<Generation>, request: nat, cutoff: real, k: nat)
    requires k < |history| && IsOwnAfter(history[k], request, cutoff) && !history[k].refunded
    ensures |Held(Refund(history, request, cutoff), cutoff)| < |Held(history, cutoff)|
  {
    var n := |history| - 1;
    var init := history[..n];
    assert Refund(history, request, cutoff)[..n] == Refund(init, request, cutoff);
    if k < n {
      RefundFrees(init, request, cutoff, k);
    } else {
      RefundHeld(init, request, cutoff, cutoff);
      WithoutFewer(Held(init, cutoff), request, cutoff);
    }
  }

  lemma {:induction false} WithoutFewer(attempts: seq<Attempt>, request: nat, cutoff: real)
    ensures |Without(attempts, request, cutoff)| <= |attempts|
  {
    if attempts != [] {
      WithoutFewer(attempts[..|attempts| - 1], request, cutoff);
    }
  }

  // Without a row there is nothing to give back.
  lemma {:induction false} NothingToRefund(history: seq<Generation>, request: nat, cutoff: real, horizon: real)
    requires Held(history, horizon) == [] && horizon <= cutoff
    ensures Refund(history, request, cutoff) == history
  {
    if history != [] {
      NothingToRefund(history[..|history| - 1], request, cutoff, horizon);
    }
  }

  // ------------------------------------------------------------------ the row of an identity

  // The window that ends at a moment.
  ghost predicate WindowOk(history: seq<Generation>, to: real)
  {
    CountIn(history, to - TTL, to) <= GENERATION_LIMIT
  }

  lemma NextWindow(history: seq<Generation>, attempt: Attempt, to: real)
    requires UpTo(history, attempt.at) && WindowOk(history, to) && |Held(history, attempt.at - TTL)| < GENERATION_LIMIT
    ensures WindowOk(history + [Generation(attempt, false)], to)
  {
    var longer := history + [Generation(attempt, false)];
    assert longer[..|history|] == history;
    if attempt.at <= to {
      CountNarrower(history, attempt.at - TTL, to - TTL, to);
      CountWithin(history, attempt.at - TTL, to);
    }
  }

  lemma {:induction false} CountNarrower(history: seq<Generation>, from: real, later: real, to: real)
    requires from <= later
    ensures CountIn(history, later, to) <= CountIn(history, from, to)
  {
    if history != [] {
      CountNarrower(history[..|history| - 1], from, later, to);
    }
  }

  // No window has more generations than the limit, and none lies after the clock.
  ghost predicate HistoryOk(history: seq<Generation>, clock: real)
  {
    UpTo(history, clock) && forall to {:trigger WindowOk(history, to)} :: WindowOk(history, to)
  }

  lemma NextKeeps(history: seq<Generation>, clock: real, attempt: Attempt)
    requires HistoryOk(history, clock) && clock <= attempt.at && |Held(history, attempt.at - TTL)| < GENERATION_LIMIT
    ensures HistoryOk(history + [Generation(attempt, false)], attempt.at)
  {
    forall to ensures WindowOk(history + [Generation(attempt, false)], to) {
      assert WindowOk(history, to);
      NextWindow(history, attempt, to);
    }
  }

  lemma RefundKeeps(history: seq<Generation>, clock: real, request: nat, cutoff: real)
    requires HistoryOk(history, clock)
    ensures HistoryOk(Refund(history, request, cutoff), clock)
    ensures forall i :: 0 <= i < |history| ==> Refund(history, request, cutoff)[i].attempt == history[i].attempt
  {
    var after := Refund(history, request, cutoff);
    forall i | 0 <= i < |history| ensures after[i].attempt == history[i].attempt {
      RefundOnlyOwn(history, request, cutoff, i);
    }
    forall to ensures WindowOk(after, to) {
      assert WindowOk(history, to);
      RefundCount(history, request, cutoff, to - TTL, to);
    }
  }

  // The row holds the unrefunded generations since some moment before the window, and nothing was
  // generated after its last update.
  ghost predicate RowOk(attempts: seq<Attempt>, updatedAt: real, history: seq<Generation>, horizon: real)
  {
    attempts == Held(history, horizon) &&
    forall i :: 0 <= i < |history| ==> history[i].attempt.at <= updatedAt || history[i].attempt.at <= horizon
  }

  lemma ReleasedRow(attempts: seq<Attempt>, updatedAt: real, history: seq<Generation>, horizon: real, request: nat,
                    cutoff: real, now: real)
    requires RowOk(attempts, updatedAt, history, horizon) && horizon <= cutoff
    requires forall i :: 0 <= i < |history| ==> history[i].attempt.at <= now
    ensures RowOk(Without(attempts, request, cutoff), now, Refund(history, request, cutoff), horizon)
  {
    RefundHeld(history, request, cutoff, horizon);
    forall i | 0 <= i < |history| ensures Refund(history, request, cutoff)[i].attempt == history[i].attempt {
      RefundOnlyOwn(history, request, cutoff, i);
    }
  }

  lemma ReservedRow(history: seq<Generation>, attempt: Attempt, cutoff: real)
    requires cutoff < attempt.at && forall i :: 0 <= i < |history| ==> history[i].attempt.at <= attempt.at
    ensures RowOk(Held(history, cutoff) + [attempt], attempt.at, history + [Generation(attempt, false)], cutoff)
  {
    assert (history + [Generation(attempt, false)])[..|history|] == history;
  }

  // Reading the row at a later moment gives what is held since then.
  lemma ActiveRow(attempts: seq<Attempt>, updatedAt: real, history: seq<Generation>, horizon: real, cutoff: real)
    requires RowOk(attempts, updatedAt, history, horizon) && horizon <= cutoff
    ensures Recent(attempts, cutoff) == Held(history, cutoff)
    ensures updatedAt <= cutoff ==> Held(history, cutoff) == []
  {
    RecentHeld(history, horizon, cutoff);
    if updatedAt <= cutoff {
      NothingHeld(history, cutoff);
    }
  }

  // max(1, ceil(seconds))
  function SecondsUntil(seconds: real): (n: int)
    ensures n >= 1 && seconds <= n as real && (n == 1 || (n - 1) as real < seconds)
  {
    var up := if seconds.Floor as real == seconds then seconds.Floor else seconds.Floor + 1;
    if up < 1 then 1 else up
  }

  lemma WaitSuffices(history: seq<Generation>, cutoff: real, later: real)
    requires cutoff <= later && Held(history, cutoff) != [] && Held(history, cutoff)[0].at <= later
    ensures |Held(history, later)| < |Held(history, cutoff)|
  {
    FewerLater(Held(history, cutoff), later);
    RecentHeld(history, cutoff, later);
  }

  // No second less, or the oldest attempt would still be in the window.
  predicate IsLeastWait(held: seq<Attempt>, now: real, wait: int)
  {
    held != [] && (wait == 1 || now + (wait - 1) as real < held[0].at + TTL)
  }

  // Exactly the attempts of the request in the window are given back; and if there were any, there is room.
  ghost predicate GivesBack(history: seq<Generation>, request: nat, now: real, after: seq<Generation>)
  {
    |after| == |history| &&
    (forall i :: 0 <= i < |history| ==>
      after[i] == if IsOwnAfter(history[i], request, now - TTL) then history[i].(refunded := true) else history[i]) &&
    ((exists i :: 0 <= i < |history| && IsOwnAfter(history[i], request, now - TTL) && !history[i].refunded) ==>
     CountIn(after, now - TTL, now) < CountIn(history, now - TTL, now) <= GENERATION_LIMIT)
  }

  lemma ReleaseIs(history: seq<Generation>, clock: real, request: nat, now: real)
    requires HistoryOk(history, clock) && clock <= now
    ensures GivesBack(history, request, now, Refund(history, request, now - TTL))
  {
    var cutoff := now - TTL;
    var after := Refund(history, request, cutoff);
    forall i | 0 <= i < |history|
      ensures after[i] == if IsOwnAfter(history[i], request, cutoff) then history[i].(refunded := true) else history[i]
    {
      RefundOnlyOwn(history, request, cutoff, i);
    }
    assert WindowOk(history, now);
    CountWithin(history, cutoff, now);
    CountWithin(after, cutoff, now);
    if k :| 0 <= k < |history| && IsOwnAfter(history[k], request, cutoff) && !history[k].refunded {
      RefundFrees(history, request, cutoff, k);
    }
  }

  // The row after a release; without a row there is nothing to give back.
  lemma ReleaseKeeps(stored: bool, attempts: seq<Attempt>, updatedAt: real, history: seq<Generation>, clock: real, horizon: real,
                     request: nat, now: real)
    requires RowIs(stored, attempts, updatedAt, history, clock, horizon) && clock <= now
    ensures RowIs(stored, Without(attempts, request, now - TTL), now, Refund(history, request, now - TTL), now, horizon)
    ensures !stored ==> Refund(history, request, now - TTL) == history
  {
    RefundKeeps(history, clock, request, now - TTL);
    ReleasedRow(if stored then attempts else [], if stored then updatedAt else horizon, history, horizon, request, now - TTL, now);
    if !stored {
      NothingToRefund(history, request, now - TTL, horizon);
    }
  }

  ghost predicate RowIs(stored: bool, attempts: seq<Attempt>, updatedAt: real, history: seq<Generation>, clock: real, horizon: real)
  {
    HistoryOk(history, clock) && horizon <= clock - TTL &&
    RowOk(if stored then attempts else [], if stored then updatedAt else horizon, history, horizon)
  }

  datatype Reservation = Reserved(remaining: nat) | TooMany(retryAfter: int)

  class Quota {
    // the row, if there is one
    var stored: bool
    var attempts: seq<Attempt>
    var updatedAt: real
    ghost var history: seq<Generation>
    ghost var clock: real
    ghost var horizon: real

    ghost predicate Valid()
      reads this
    {
      RowIs(stored, attempts, updatedAt, history, clock, horizon)
    }

    constructor ()
      ensures Valid() && history == []
    {
      stored, attempts, updatedAt := false, [], 0.0;
      history, clock, horizon := [], 0.0, -TTL;
    }

    // Refused exactly when the window that ends now is full, and then a retry after the given seconds
    // finds room; they are the least ones after which the oldest attempt has left the window.
    method Reserve(request: nat, now: real) returns (r: Reservation)
      requires Valid() && clock <= now
      modifies this
      ensures Valid() && clock == now
      ensures r.Reserved? <==> CountIn(old(history), now - TTL, now) < GENERATION_LIMIT
      ensures r.Reserved? ==>
        history == old(history) + [Generation(Attempt(request, now), false)] &&
        r.remaining == GENERATION_LIMIT - 1 - CountIn(old(history), now - TTL, now)
      ensures r.TooMany? ==> history == old(history) && r.retryAfter >= 1
      ensures r.TooMany? ==> |Held(history, now + r.retryAfter as real - TTL)| < |Held(history, now - TTL)|
      ensures r.TooMany? ==> IsLeastWait(Held(history, now - TTL), now, r.retryAfter)
    {
      CountWithin(history, now - TTL, now);
      var cutoff := now - TTL;
      ghost var before := history;
      ActiveRow(if stored then attempts else [], if stored then updatedAt else horizon, history, horizon, cutoff);
      clock := now;
      var active := if stored && updatedAt >= cutoff then Recent(attempts, cutoff) else [];
      if |active| >= GENERATION_LIMIT {
        r := TooMany(SecondsUntil(active[0].at + TTL - now));
        WaitSuffices(history, cutoff, now + r.retryAfter as real - TTL);
        return;
      }
      NextKeeps(before, old(clock), Attempt(request, now));
      ReservedRow(before, Attempt(request, now), cutoff);
      stored, attempts, updatedAt := true, active + [Attempt(request, now)], now;
      history := history + [Generation(Attempt(request, now), false)];
      horizon := cutoff;
      r := Reserved(GENERATION_LIMIT - |attempts|);
    }

    // Gives back the slot of one request, if it is still in the window.
    method Release(request: nat, now: real)
      requires Valid() && clock <= now
      modifies this
      ensures Valid() && clock == now
      ensures history == Refund(old(history), request, now - TTL)
      ensures GivesBack(old(history), request, now, history)
    {
      ReleaseIs(history, clock, request, now);
      ReleaseKeeps(stored, attempts, updatedAt, history, clock, horizon, request, now);
      clock, history := now, Refund(history, request, now - TTL);
      if !stored {
        return;
      }
      attempts, updatedAt := Without(attempts, request, now - TTL), now;
    }

    // Another identity's reservation removes rows that were not updated for a whole window.
    method Purge(now: real)
      requires Valid() && clock <= now
      modifies this
      ensures Valid() && clock == now && history == old(history)
      ensures stored <==> old(stored) && now - TTL <= old(updatedAt)
      ensures stored ==> attempts == old(attempts) && updatedAt == old(updatedAt)
    {
      clock := now;
      if stored && updatedAt < now - TTL {
        ActiveRow(attempts, updatedAt, history, horizon, now - TTL);
        stored, attempts := false, [];
        horizon := now - TTL;
      }
    }
  }

}
