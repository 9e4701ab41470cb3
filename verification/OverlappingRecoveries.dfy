// Recoveries of one user that overlap: the lock is looked up first and the failure counted only after the realms replied.
module OverlappingRecoveries {
  import opened KeyTree
  import opened Lockout

  // The counter in Redis, how many attempts are between their two halves, and a moment before which
  // the lock cannot run out: LOCK_SECONDS after it was last set.
  datatype Desk = Desk(counter: Counter, running: nat, held: real)

  datatype Move =
    // the lock is looked up, and removed with the count if it has run out
    | Start(now: real)
    // the replies are in
    | Finish(later: real, replies: seq<Reply>)
    // Redis drops a lock whose time is over, and keeps the count
    | Forget(now: real)

  function TimeOf(m: Move): real
  {
    match m case Start(now) => now case Finish(later, _) => later case Forget(now) => now
  }

  // The worker runs as many attempts at once as it has processes.
  predicate CanDo(processes: nat, d: Desk, m: Move)
  {
    match m
    case Start(_) => d.running < processes
    case Finish(_, _) => d.running > 0
    case Forget(now) => d.counter.lock.Some? && d.counter.lock.value <= now
  }

  function AfterFinish(limit: nat, threshold: nat, d: Desk, later: real, replies: seq<Reply>): Desk
    requires d.running > 0
  {
    var locks, left := LatestLock(replies), d.running - 1;
    if locks.Some? then Desk(Counter(0, Some(Later(locks.value, later + LOCK_SECONDS))), left, later + LOCK_SECONDS)
    else if CountSealed(replies) >= threshold then Desk(Counter(0, None), left, d.held)
    else if !SomeWrong(replies) then d.(running := left)
    else if d.counter.failures + 1 >= limit then Desk(Counter(0, Some(later + LOCK_SECONDS)), left, later + LOCK_SECONDS)
    else d.(counter := d.counter.(failures := d.counter.failures + 1), running := left)
  }

  function Done(limit: nat, threshold: nat, processes: nat, d: Desk, m: Move): Desk
    requires CanDo(processes, d, m)
  {
    match m
    case Start(now) =>
      if Blocks(CounterMeter(d.counter), now) then d else d.(counter := Cleared(d.counter), running := d.running + 1)
    case Finish(later, replies) => AfterFinish(limit, threshold, d, later, replies)
    case Forget(_) => d.(counter := d.counter.(lock := None))
  }

  // The guess was evaluated by some realm.
  predicate Evaluates(m: Move)
  {
    m.Finish? && (LatestLock(m.replies).Some? || SomeWrong(m.replies))
  }

  // Moves in the order of their times, all with wrong guesses.
  ghost predicate Runs(limit: nat, threshold: nat, processes: nat, d: Desk, moves: seq<Move>, start: real, end: real)
    decreases |moves|
  {
    if moves == [] then start <= end
    else
      start <= TimeOf(moves[0]) && CanDo(processes, d, moves[0]) &&
      (moves[0].Finish? ==> NoneSealed(moves[0].replies)) &&
      Runs(limit, threshold, processes, Done(limit, threshold, processes, d, moves[0]), moves[1..], TimeOf(moves[0]), end)
  }

  function Guesses(moves: seq<Move>): nat
  {
    if moves == [] then 0 else (if Evaluates(moves[0]) then 1 else 0) + Guesses(moves[1..])
  }

  // One at a time, the two halves make up the attempt as a whole.
  lemma OneAtATime(limit: nat, threshold: nat, c: Counter, held: real, now: real, replies: seq<Reply>, later: real)
    requires !Blocks(CounterMeter(c), now) && limit > 0
    ensures Done(limit, threshold, 1, Done(limit, threshold, 1, Desk(c, 0, held), Start(now)), Finish(later, replies)).counter ==
      AfterReplies(limit, threshold, c, now, replies, later).0
  {
  }

  // ------------------------------------------------------------------ the bound

  predicate DeskOk(limit: nat, processes: nat, d: Desk, now: real)
  {
    d.counter.failures < limit && d.running <= processes && d.held <= now + LOCK_SECONDS &&
    (d.counter.lock.Some? ==> d.held <= d.counter.lock.value)
  }

  // Guesses of one cycle: the limit, and those already under way when the lock is set.
  function Cycle(limit: nat, processes: nat): nat
    requires processes > 0
  {
    limit + processes - 1
  }

  // An upper bound on the guesses still evaluated up to end.
  function Allowance(limit: nat, processes: nat, d: Desk, now: real, end: real): nat
    requires processes > 0 && d.counter.failures < limit
  {
    if d.counter.lock.Some? then
      d.running + if end < Later(d.held, now) then 0 else Cycle(limit, processes) * (1 + Periods(end - Later(d.held, now)))
    else limit - d.counter.failures + processes - 1 + Cycle(limit, processes) * Periods(end - now)
  }

  lemma AllowanceShrinks(limit: nat, processes: nat, d: Desk, start: real, now: real, end: real)
    requires processes > 0 && d.counter.failures < limit && start <= now
    ensures Allowance(limit, processes, d, now, end) <= Allowance(limit, processes, d, start, end)
  {
    if d.counter.lock.Some? {
      PeriodsMonotone(end - Later(d.held, now), end - Later(d.held, start));
      TimesMonotone(Cycle(limit, processes), 1 + Periods(end - Later(d.held, now)), 1 + Periods(end - Later(d.held, start)));
    } else {
      PeriodsMonotone(end - now, end - start);
      TimesMonotone(Cycle(limit, processes), Periods(end - now), Periods(end - start));
    }
  }

  // A lock costs a whole period.
  lemma LockedAllowance(cycle: nat, held: real, now: real, end: real)
    requires held == now + LOCK_SECONDS
    ensures (if end < held then 0 else cycle * (1 + Periods(end - held))) <= cycle * Periods(end - now)
  {
    if held <= end {
      PeriodEarlier(end - now);
    }
  }

  lemma LaterLock(cycle: nat, held: real, next: real, now: real, end: real)
    requires held <= next && next == now + LOCK_SECONDS && next <= end
    ensures cycle * (1 + Periods(end - next)) <= cycle * (1 + Periods(end - Later(held, now)))
  {
    PeriodsMonotone(end - next, end - Later(held, now));
    TimesMonotone(cycle, 1 + Periods(end - next), 1 + Periods(end - Later(held, now)));
  }

  lemma SetsLock(limit: nat, processes: nat, d: Desk, next: Desk, now: real, end: real)
    requires processes > 0 && DeskOk(limit, processes, d, now) && d.running > 0 && now <= end
    requires next.running == d.running - 1 && next.held == now + LOCK_SECONDS
    requires next.counter.failures == 0 && next.counter.lock.Some?
    ensures 1 + Allowance(limit, processes, next, now, end) <= Allowance(limit, processes, d, now, end)
  {
    LockedAllowance(Cycle(limit, processes), next.held, now, end);
    if next.held <= end {
      LaterLock(Cycle(limit, processes), d.held, next.held, now, end);
    }
  }

  lemma FinishSpends(limit: nat, threshold: nat, processes: nat, d: Desk, later: real, replies: seq<Reply>, end: real)
    requires threshold > 0 && processes > 0 && DeskOk(limit, processes, d, later) && d.running > 0 && later <= end
    requires NoneSealed(replies)
    ensures var next := AfterFinish(limit, threshold, d, later, replies);
      DeskOk(limit, processes, next, later) &&
      (if Evaluates(Finish(later, replies)) then 1 else 0) + Allowance(limit, processes, next, later, end) <=
        Allowance(limit, processes, d, later, end)
  {
    NoneSealedCount(replies);
    var next := AfterFinish(limit, threshold, d, later, replies);
    if next.counter.lock.Some? && next.held == later + LOCK_SECONDS && next.counter.failures == 0 && Evaluates(Finish(later, replies)) {
      SetsLock(limit, processes, d, next, later, end);
    }
  }

  lemma MoveSpends(limit: nat, threshold: nat, processes: nat, d: Desk, m: Move, end: real)
    requires threshold > 0 && processes > 0 && DeskOk(limit, processes, d, TimeOf(m)) && CanDo(processes, d, m)
    requires TimeOf(m) <= end && (m.Finish? ==> NoneSealed(m.replies))
    ensures var next := Done(limit, threshold, processes, d, m);
      DeskOk(limit, processes, next, TimeOf(m)) &&
      (if Evaluates(m) then 1 else 0) + Allowance(limit, processes, next, TimeOf(m), end) <=
        Allowance(limit, processes, d, TimeOf(m), end)
  {
    match m
    case Finish(later, replies) => FinishSpends(limit, threshold, processes, d, later, replies, end);
    case _ =>
      OneMore(Cycle(limit, processes), Periods(end - TimeOf(m)));
  }

  lemma {:induction false} RunEnds(limit: nat, threshold: nat, processes: nat, d: Desk, moves: seq<Move>, start: real, end: real)
    requires Runs(limit, threshold, processes, d, moves, start, end)
    ensures start <= end
    decreases |moves|
  {
    if moves != [] {
      RunEnds(limit, threshold, processes, Done(limit, threshold, processes, d, moves[0]), moves[1..], TimeOf(moves[0]), end);
    }
  }

  lemma {:induction false} GuessesWithinAllowance(
    limit: nat, threshold: nat, processes: nat, d: Desk, moves: seq<Move>, start: real, end: real)
    requires threshold > 0 && processes > 0 && DeskOk(limit, processes, d, start)
    requires Runs(limit, threshold, processes, d, moves, start, end)
    ensures Guesses(moves) <= Allowance(limit, processes, d, start, end)
    decreases |moves|
  {
    if moves != [] {
      var now, next := TimeOf(moves[0]), Done(limit, threshold, processes, d, moves[0]);
      RunEnds(limit, threshold, processes, next, moves[1..], now, end);
      MoveSpends(limit, threshold, processes, d, moves[0], end);
      AllowanceShrinks(limit, processes, d, start, now, end);
      GuessesWithinAllowance(limit, threshold, processes, next, moves[1..], now, end);
    }
  }

  // With so many processes, no more wrong guesses than the limit and one for each further process are
  // evaluated in every period begun, besides those under way at the start.
  lemma OverlappingGuessBound(
    limit: nat, threshold: nat, processes: nat, d: Desk, moves: seq<Move>, start: real, end: real)
    requires threshold > 0 && processes > 0 && DeskOk(limit, processes, d, start)
    requires Runs(limit, threshold, processes, d, moves, start, end)
    ensures Guesses(moves) <= d.running + (limit + processes - 1) * (Periods(end - start) + 1)
  {
    RunEnds(limit, threshold, processes, d, moves, start, end);
    GuessesWithinAllowance(limit, threshold, processes, d, moves, start, end);
    OneMore(Cycle(limit, processes), Periods(end - start));
    if d.counter.lock.Some? {
      PeriodsMonotone(end - Later(d.held, start), end - start);
      TimesMonotone(Cycle(limit, processes), 1 + Periods(end - Later(d.held, start)), 1 + Periods(end - start));
    }
  }

  // ------------------------------------------------------------------ the bound is reached

  const ONE_WRONG := [Wrong(0)]

  lemma OneWrong()
    ensures LatestLock(ONE_WRONG) == None && SomeWrong(ONE_WRONG) && CountSealed(ONE_WRONG) == 0 && NoneSealed(ONE_WRONG)
  {
    assert ONE_WRONG[..0] == [] && ONE_WRONG[0].Wrong?;
  }

  // One after the other, started together, and found wrong together; all at one moment.
  function InTurn(n: nat, now: real): seq<Move>
  {
    if n == 0 then [] else [Start(now), Finish(now, ONE_WRONG)] + InTurn(n - 1, now)
  }

  function Started(n: nat, now: real): seq<Move>
  {
    if n == 0 then [] else [Start(now)] + Started(n - 1, now)
  }

  function FoundWrong(n: nat, now: real): seq<Move>
  {
    if n == 0 then [] else [Finish(now, ONE_WRONG)] + FoundWrong(n - 1, now)
  }

  lemma Prefixed(m: Move, moves: seq<Move>)
    ensures Guesses([m] + moves) == (if Evaluates(m) then 1 else 0) + Guesses(moves)
  {
    assert ([m] + moves)[1..] == moves;
  }

  lemma RunsPrefixed(limit: nat, threshold: nat, processes: nat, d: Desk, m: Move, moves: seq<Move>, end: real)
    requires CanDo(processes, d, m) && (m.Finish? ==> NoneSealed(m.replies))
    requires Runs(limit, threshold, processes, Done(limit, threshold, processes, d, m), moves, TimeOf(m), end)
    ensures Runs(limit, threshold, processes, d, [m] + moves, TimeOf(m), end)
  {
    assert ([m] + moves)[1..] == moves;
  }

  lemma {:induction false} FoundWrongRuns(limit: nat, threshold: nat, processes: nat, d: Desk, n: nat, now: real)
    requires threshold > 0 && d.running == n
    ensures Runs(limit, threshold, processes, d, FoundWrong(n, now), now, now) && Guesses(FoundWrong(n, now)) == n
    decreases n
  {
    if n > 0 {
      OneWrong();
      var m := Finish(now, ONE_WRONG);
      FoundWrongRuns(limit, threshold, processes, Done(limit, threshold, processes, d, m), n - 1, now);
      RunsPrefixed(limit, threshold, processes, d, m, FoundWrong(n - 1, now), now);
      Prefixed(m, FoundWrong(n - 1, now));
    }
  }

  lemma {:induction false} StartedRuns(limit: nat, threshold: nat, processes: nat, d: Desk, n: nat, now: real, rest: seq<Move>)
    requires d.counter.lock.None? && d.running + n <= processes
    requires Runs(limit, threshold, processes, d.(running := d.running + n), rest, now, now)
    ensures Runs(limit, threshold, processes, d, Started(n, now) + rest, now, now)
    ensures Guesses(Started(n, now) + rest) == Guesses(rest)
    decreases n
  {
    if n == 0 {
      assert Started(n, now) + rest == rest;
    } else {
      var moves := Started(n - 1, now) + rest;
      StartedRuns(limit, threshold, processes, d.(running := d.running + 1), n - 1, now, rest);
      RunsPrefixed(limit, threshold, processes, d, Start(now), moves, now);
      Prefixed(Start(now), moves);
      assert Started(n, now) + rest == [Start(now)] + moves;
    }
  }

  lemma OneTurn(limit: nat, threshold: nat, processes: nat, d: Desk, now: real, moves: seq<Move>)
    requires threshold > 0 && processes > 0 && d.counter.lock.None? && d.running == 0 && d.counter.failures + 1 < limit
    requires Runs(limit, threshold, processes, d.(counter := Counter(d.counter.failures + 1, None)), moves, now, now)
    ensures Runs(limit, threshold, processes, d, [Start(now)] + ([Finish(now, ONE_WRONG)] + moves), now, now)
    ensures Guesses([Start(now)] + ([Finish(now, ONE_WRONG)] + moves)) == 1 + Guesses(moves)
  {
    OneWrong();
    var m, begun := Finish(now, ONE_WRONG), Done(limit, threshold, processes, d, Start(now));
    assert Done(limit, threshold, processes, begun, m) == d.(counter := Counter(d.counter.failures + 1, None));
    RunsPrefixed(limit, threshold, processes, begun, m, moves, now);
    Prefixed(m, moves);
    RunsPrefixed(limit, threshold, processes, d, Start(now), [m] + moves, now);
    Prefixed(Start(now), [m] + moves);
  }

  lemma {:induction false} InTurnRuns(limit: nat, threshold: nat, processes: nat, d: Desk, n: nat, now: real, rest: seq<Move>)
    requires threshold > 0 && processes > 0 && d.counter.lock.None? && d.running == 0 && d.counter.failures + n < limit
    requires Runs(limit, threshold, processes, d.(counter := Counter(d.counter.failures + n, None)), rest, now, now)
    ensures Runs(limit, threshold, processes, d, InTurn(n, now) + rest, now, now)
    ensures Guesses(InTurn(n, now) + rest) == n + Guesses(rest)
    decreases n
  {
    if n == 0 {
      assert InTurn(n, now) + rest == rest;
    } else {
      InTurnRuns(limit, threshold, processes, d.(counter := Counter(d.counter.failures + 1, None)), n - 1, now, rest);
      OneTurn(limit, threshold, processes, d, now, InTurn(n - 1, now) + rest);
      assert InTurn(n, now) + rest == [Start(now)] + ([Finish(now, ONE_WRONG)] + (InTurn(n - 1, now) + rest));
    }
  }

  // At a single moment so many guesses are evaluated: all but the last in turn, and the last one by every process.
  lemma OverlappingGuessesReached(limit: nat, threshold: nat, processes: nat, now: real) returns (moves: seq<Move>)
    requires limit > 0 && threshold > 0 && processes > 0
    ensures Runs(limit, threshold, processes, Desk(Counter(0, None), 0, now), moves, now, now)
    ensures Guesses(moves) == limit + processes - 1 == (limit + processes - 1) * (Periods(now - now) + 1)
  {
    var last := Desk(Counter(limit - 1, None), 0, now);
    FoundWrongRuns(limit, threshold, processes, last.(running := processes), processes, now);
    StartedRuns(limit, threshold, processes, last, processes, now, FoundWrong(processes, now));
    var rest := Started(processes, now) + FoundWrong(processes, now);
    InTurnRuns(limit, threshold, processes, Desk(Counter(0, None), 0, now), limit - 1, now, rest);
    moves := InTurn(limit - 1, now) + rest;
  }
}
