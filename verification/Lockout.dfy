// PIN guesses against a lock: the realm's counter, the worker's counter across
// realms and the local vault, all over one abstract meter.
module Lockout {
  import opened KeyTree

  const LOCK_SECONDS := 900.0

  // ------------------------------------------------------------------ the meter

  // Either open with a number of wrong guesses so far, or locked up to a moment.
  datatype Meter = Open(wrong: nat) | Locked(until: real)

  predicate Blocks(m: Meter, now: real)
  {
    m.Locked? && now < m.until
  }

  // A wrong guess that is evaluated: a lock that has run out starts a new count, and the guess
  // that reaches the limit, if none before it, locks for at least LOCK_SECONDS.
  ghost predicate Counts(limit: nat, m: Meter, now: real, next: Meter)
  {
    var wrong := (if m.Locked? then 0 else m.wrong) + 1;
    if next.Locked? then now + LOCK_SECONDS <= next.until else wrong < limit && next.wrong == wrong
  }

  // An attempt is evaluated only while nothing blocks it; one that is not changes nothing, except
  // that a lock that has run out may be cleared.
  ghost predicate Guess(limit: nat, m: Meter, now: real, next: Meter, evaluated: bool)
  {
    if evaluated then !Blocks(m, now) && Counts(limit, m, now, next)
    else next == m || (m.Locked? && m.until <= now && next == Open(0))
  }

  // Whole lock periods in a stretch of time.
  function Periods(seconds: real): (n: nat)
    ensures n as real * LOCK_SECONDS <= seconds < (n + 1) as real * LOCK_SECONDS || (seconds < 0.0 && n == 0)
  {
    if seconds < 0.0 then 0 else (seconds / LOCK_SECONDS).Floor
  }

  function Later(a: real, b: real): real
  {
    if a < b then b else a
  }

  // An upper bound on the guesses evaluated from start up to end.
  function Budget(limit: nat, m: Meter, start: real, end: real): nat
  {
    match m
    case Open(wrong) => (if wrong < limit then limit - wrong else 1) + limit * Periods(end - start)
    case Locked(until) =>
      if end < Later(until, start) then 0 else limit * (1 + Periods(end - Later(until, start)))
  }

  lemma PeriodsMonotone(a: real, b: real)
    requires a <= b
    ensures Periods(a) <= Periods(b)
  {
  }

  lemma PeriodEarlier(seconds: real)
    requires LOCK_SECONDS <= seconds
    ensures Periods(seconds - LOCK_SECONDS) + 1 == Periods(seconds)
  {
  }

  lemma TimesMonotone(limit: nat, a: nat, b: nat)
    requires a <= b
    ensures limit * a <= limit * b
  {
  }

  // Time that passes without a guess never adds to the budget ...
  lemma BudgetShrinks(limit: nat, m: Meter, start: real, now: real, end: real)
    requires start <= now
    ensures Budget(limit, m, now, end) <= Budget(limit, m, start, end)
  {
    match m
    case Open(_) =>
      PeriodsMonotone(end - now, end - start);
      TimesMonotone(limit, Periods(end - now), Periods(end - start));
    case Locked(until) =>
      var a, b := Periods(end - Later(until, now)), Periods(end - Later(until, start));
      PeriodsMonotone(end - Later(until, now), end - Later(until, start));
      TimesMonotone(limit, 1 + a, 1 + b);
  }

  lemma LockedBudget(limit: nat, until: real, now: real, end: real)
    requires limit > 0 && now + LOCK_SECONDS <= until
    ensures Budget(limit, Locked(until), now, end) <= limit * Periods(end - now)
  {
    if until <= end {
      PeriodEarlier(end - now);
      PeriodsMonotone(end - until, end - now - LOCK_SECONDS);
      TimesMonotone(limit, 1 + Periods(end - until), Periods(end - now));
    }
  }

  // ... and a guess that is evaluated uses one of it up.
  lemma GuessSpends(limit: nat, m: Meter, now: real, next: Meter, end: real, evaluated: bool)
    requires limit > 0 && now <= end && Guess(limit, m, now, next, evaluated)
    ensures (if evaluated then 1 else 0) + Budget(limit, next, now, end) <= Budget(limit, m, now, end)
  {
    if evaluated {
      if next.Locked? {
        LockedBudget(limit, next.until, now, end);
      }
      if m.Locked? {
        assert limit * (1 + Periods(end - now)) == limit + limit * Periods(end - now);
      }
    }
  }

  // From any state: the limit once, and once more for every period.
  lemma BudgetBound(limit: nat, m: Meter, start: real, end: real)
    requires limit > 0 && start <= end
    ensures Budget(limit, m, start, end) <= limit * (Periods(end - start) + 1)
  {
    match m
    case Open(_) => OneMore(limit, Periods(end - start));
    case Locked(until) =>
      PeriodsMonotone(end - Later(until, start), end - start);
      TimesMonotone(limit, 1 + Periods(end - Later(until, start)), 1 + Periods(end - start));
  }

  lemma OneMore(limit: nat, n: nat)
    ensures limit * (1 + n) == limit * (n + 1) == limit + limit * n
  {
  }

  // ------------------------------------------------------------------ runs

  // A machine with states S that takes a wrong guess at a moment, with an input I.
  datatype Machine<!S, !I> = Machine(view: S -> Meter, wrong: I -> bool,
                                     step: (S, real, I) -> S, evaluates: (S, real, I) -> bool)

  ghost predicate Meters<S(!new), I(!new)>(limit: nat, machine: Machine<S, I>)
  {
    forall s, now, input {:trigger machine.step(s, now, input)} :: machine.wrong(input) ==>
      Guess(limit, machine.view(s), now, machine.view(machine.step(s, now, input)), machine.evaluates(s, now, input))
  }

  ghost predicate Ascending(times: seq<real>, start: real, end: real)
  {
    if times == [] then start <= end else start <= times[0] <= end && Ascending(times[1..], times[0], end)
  }

  function Evaluated<S, I>(machine: Machine<S, I>, s: S, times: seq<real>, inputs: seq<I>): nat
    requires |inputs| == |times|
    decreases |times|
  {
    if times == [] then 0
    else
      (if machine.evaluates(s, times[0], inputs[0]) then 1 else 0) +
      Evaluated(machine, machine.step(s, times[0], inputs[0]), times[1..], inputs[1..])
  }

  lemma {:induction false} EvaluatedWithinBudget<S(!new), I(!new)>(
    limit: nat, machine: Machine<S, I>, s: S, times: seq<real>, inputs: seq<I>, start: real, end: real)
    requires limit > 0 && Meters(limit, machine) && |inputs| == |times| && Ascending(times, start, end)
    requires forall i :: 0 <= i < |inputs| ==> machine.wrong(inputs[i])
    ensures Evaluated(machine, s, times, inputs) <= Budget(limit, machine.view(s), start, end)
    decreases |times|
  {
    if times != [] {
      var now, next := times[0], machine.step(s, times[0], inputs[0]);
      EvaluatedWithinBudget(limit, machine, next, times[1..], inputs[1..], now, end);
      BudgetShrinks(limit, machine.view(s), start, now, end);
      GuessSpends(limit, machine.view(s), now, machine.view(next), end, machine.evaluates(s, now, inputs[0]));
    }
  }

  // However the wrong guesses are timed, no more than the limit for every period begun is evaluated.
  lemma GuessBound<S(!new), I(!new)>(
    limit: nat, machine: Machine<S, I>, s: S, times: seq<real>, inputs: seq<I>, start: real, end: real)
    requires limit > 0 && Meters(limit, machine) && |inputs| == |times| && Ascending(times, start, end)
    requires forall i :: 0 <= i < |inputs| ==> machine.wrong(inputs[i])
    ensures Evaluated(machine, s, times, inputs) <= limit * (Periods(end - start) + 1)
  {
    EvaluatedWithinBudget(limit, machine, s, times, inputs, start, end);
    assert start <= end by {
      if times != [] {
        assert start <= times[0] <= end;
      }
    }
    BudgetBound(limit, machine.view(s), start, end);
  }

  // ------------------------------------------------------------------ the realm

  datatype Answer = NoShare | LockedOut(until: real) | WrongPin(left: nat) | Share(share: nat)

  // A row of shares: the version, the secret that must be presented, the share and the counter.
  datatype Row = Row(version: nat, auth: nat, share: nat, attempts: nat, updated: real)

  function RealmMeter(limit: nat, row: Row): Meter
  {
    if row.attempts >= limit then Locked(row.updated + LOCK_SECONDS) else Open(row.attempts)
  }

  function AfterWrong(limit: nat, row: Row, now: real): Row
  {
    if Blocks(RealmMeter(limit, row), now) then row
    else row.(attempts := (if row.attempts >= limit then 0 else row.attempts) + 1, updated := now)
  }

  // The row after backups have arrived, each as the row it would make.
  function AfterPuts(row: Option<Row>, puts: seq<Row>): Option<Row>
  {
    if puts == [] then row
    else
      var before, last := AfterPuts(row, puts[..|puts| - 1]), puts[|puts| - 1];
      if before.Some? && last.version < before.value.version then before else Some(last)
  }

  // In whatever order backups arrive, and however often, the newest version is the one that is kept.
  lemma {:induction false} NewestBackupWins(row: Option<Row>, puts: seq<Row>, newest: nat)
    requires newest < |puts| && (row.Some? ==> row.value.version < puts[newest].version)
    requires forall i :: 0 <= i < |puts| && puts[i] != puts[newest] ==> puts[i].version < puts[newest].version
    ensures AfterPuts(row, puts) == Some(puts[newest])
  {
    var n := |puts| - 1;
    if newest < n {
      NewestBackupWins(row, puts[..n], newest);
    } else {
      NoNewerThan(row, puts[..n], puts[newest]);
    }
  }

  lemma {:induction false} NoNewerThan(row: Option<Row>, puts: seq<Row>, bound: Row)
    requires row.Some? ==> row.value.version <= bound.version
    requires forall i :: 0 <= i < |puts| ==> puts[i].version <= bound.version
    ensures AfterPuts(row, puts).Some? ==> AfterPuts(row, puts).value.version <= bound.version
  {
    if puts != [] {
      NoNewerThan(row, puts[..|puts| - 1], bound);
    }
  }

  // What a realm answers to a guess, and its row afterwards.
  function Answered(limit: nat, row: Row, given: nat, now: real): (Row, Answer)
    requires limit > 0
  {
    if Blocks(RealmMeter(limit, row), now) then (row, LockedOut(RealmMeter(limit, row).until))
    else if given == row.auth then (row.(attempts := 0, updated := now), Share(row.share))
    else
      var next := AfterWrong(limit, row, now);
      (next, match RealmMeter(limit, next)
             case Open(wrong) => WrongPin(limit - wrong)
             case Locked(until) => LockedOut(until))
  }

  // At the limit, for LOCK_SECONDS after the guess that reached it.
  predicate LockedAt(limit: nat, row: Row, now: real)
  {
    row.attempts >= limit && now < row.updated + LOCK_SECONDS
  }

  class Realm {
    var row: Option<Row>
    const limit: nat

    constructor (limit: nat)
      ensures this.limit == limit && row == None
    {
      this.limit := limit;
      row := None;
    }

    // An older backup never replaces a newer one; a stored one starts a new count.
    method PutShare(version: nat, auth: nat, share: nat, now: real)
      modifies this
      ensures row == AfterPuts(old(row), [Row(version, auth, share, 0, now)])
      ensures row == Some(Row(version, auth, share, 0, now)) || (old(row).Some? && row == old(row))
      ensures row == Some(Row(version, auth, share, 0, now)) <== (old(row).Some? ==> old(row).value.version <= version)
      ensures row.Some? && version <= row.value.version
      ensures old(row).Some? ==> old(row).value.version <= row.value.version
    {
      assert [Row(version, auth, share, 0, now)][..0] == [];
      if row.None? || row.value.version <= version {
        row := Some(Row(version, auth, share, 0, now));
      }
    }

    method Recover(given: nat, now: real) returns (r: Answer)
      requires limit > 0
      modifies this
      ensures old(row).Some? ==> row.Some? && (row.value, r) == Answered(limit, old(row).value, given, now)
      ensures old(row).None? ==> r == NoShare && row == None
      ensures old(row).Some? && LockedAt(limit, old(row).value, now) ==>
        row == old(row) && r == LockedOut(old(row).value.updated + LOCK_SECONDS)
      // the right secret starts a new count, a wrong one counts one more, or the first one after a lock
      ensures old(row).Some? && !LockedAt(limit, old(row).value, now) ==>
        row.value == old(row).value.(attempts := row.value.attempts, updated := now) &&
        if given == old(row).value.auth then r == Share(old(row).value.share) && row.value.attempts == 0
        else
          row.value.attempts == (if old(row).value.attempts < limit then old(row).value.attempts + 1 else 1) &&
          r == if row.value.attempts < limit then WrongPin(limit - row.value.attempts) else LockedOut(now + LOCK_SECONDS)
    {
      if row.None? {
        return NoShare;
      }
      var kept := row.value;
      if kept.attempts >= limit && now < kept.updated + LOCK_SECONDS {
        return LockedOut(kept.updated + LOCK_SECONDS);
      }
      if given == kept.auth {
        row := Some(kept.(attempts := 0, updated := now));
        return Share(kept.share);
      }
      var attempts := (if kept.attempts >= limit then 0 else kept.attempts) + 1;
      row := Some(kept.(attempts := attempts, updated := now));
      if attempts >= limit {
        return LockedOut(now + LOCK_SECONDS);
      }
      r := WrongPin(limit - attempts);
    }
  }

  function RealmMachine(limit: nat): Machine<Row, ()>
  {
    Machine(row => RealmMeter(limit, row), _ => true, (row, now, _) => AfterWrong(limit, row, now),
            (row, now, _) => !Blocks(RealmMeter(limit, row), now))
  }

  // Of the wrong guesses presented to a realm between start and end, without a new backup in between.
  lemma RealmGuessBound(limit: nat, row: Row, times: seq<real>, inputs: seq<()>, start: real, end: real)
    requires limit > 0 && |inputs| == |times| && Ascending(times, start, end)
    ensures Evaluated(RealmMachine(limit), row, times, inputs) <= limit * (Periods(end - start) + 1)
  {
    GuessBound(limit, RealmMachine(limit), row, times, inputs, start, end);
  }

  // The row after guesses, right or wrong.
  function AfterGuesses(limit: nat, row: Row, times: seq<real>, given: seq<nat>): Row
    requires limit > 0 && |given| == |times|
  {
    if times == [] then row
    else
      var n := |times| - 1;
      Answered(limit, AfterGuesses(limit, row, times[..n], given[..n]), given[n], times[n]).0
  }

  ghost predicate NoneAfter(times: seq<real>, now: real)
  {
    forall i :: 0 <= i < |times| ==> times[i] <= now
  }

  lemma {:induction false} GuessesKeepShare(limit: nat, row: Row, times: seq<real>, given: seq<nat>, now: real)
    requires limit > 0 && |given| == |times| && NoneAfter(times, now) && row.updated <= now
    ensures var r := AfterGuesses(limit, row, times, given);
      r.share == row.share && r.auth == row.auth && r.version == row.version && r.updated <= now
  {
    if times != [] {
      var n := |times| - 1;
      GuessesKeepShare(limit, row, times[..n], given[..n], now);
    }
  }

  // The share survives any number of guesses: when the last of them is LOCK_SECONDS ago, the right
  // secret obtains it.
  lemma ShareSurvives(limit: nat, row: Row, times: seq<real>, given: seq<nat>, last: real, now: real)
    requires limit > 0 && |given| == |times| && NoneAfter(times, last) && row.updated <= last && last + LOCK_SECONDS <= now
    ensures Answered(limit, AfterGuesses(limit, row, times, given), row.auth, now).1 == Share(row.share)
  {
    GuessesKeepShare(limit, row, times, given, last);
  }

  // ------------------------------------------------------------------ the guesses left at a realm

  // Wrong guesses up to and including the one that locks: a lock that has run out gives the full number.
  function RealmLeft(limit: nat, row: Row): nat
  {
    if row.attempts < limit then limit - row.attempts else limit
  }

  ghost predicate AllWrong(row: Row, given: seq<nat>)
  {
    forall i :: 0 <= i < |given| ==> given[i] != row.auth
  }

  // One wrong guess at a realm that is not locked takes one, and tells how many are left; the last one locks.
  lemma WrongGuessTakesOne(limit: nat, row: Row, given: nat, now: real)
    requires limit > 0 && !LockedAt(limit, row, now) && given != row.auth
    ensures var (next, answer) := Answered(limit, row, given, now);
      next.auth == row.auth &&
      if RealmLeft(limit, row) == 1 then LockedAt(limit, next, now) && answer == LockedOut(now + LOCK_SECONDS)
      else RealmLeft(limit, next) == RealmLeft(limit, row) - 1 && next.attempts < limit && answer == WrongPin(RealmLeft(limit, next))
  {
  }

  // From a realm that is not locked exactly so many wrong guesses lock it, and no fewer, whenever they come.
  lemma {:induction false} RealmLeftIsExact(limit: nat, row: Row, times: seq<real>, given: seq<nat>)
    requires limit > 0 && |given| == |times| && AllWrong(row, given) && 0 < |times| <= RealmLeft(limit, row)
    requires !LockedAt(limit, row, times[0])
    ensures var r := AfterGuesses(limit, row, times, given);
      r.auth == row.auth && r.updated == times[|times| - 1] &&
      (r.attempts >= limit <==> |times| == RealmLeft(limit, row)) &&
      (|times| < RealmLeft(limit, row) ==> RealmLeft(limit, r) == RealmLeft(limit, row) - |times|)
  {
    var n := |times| - 1;
    if n == 0 {
      assert times[..0] == [] && given[..0] == [];
      WrongGuessTakesOne(limit, row, given[0], times[0]);
    } else {
      RealmLeftIsExact(limit, row, times[..n], given[..n]);
      WrongGuessTakesOne(limit, AfterGuesses(limit, row, times[..n], given[..n]), given[n], times[n]);
    }
  }

  // ------------------------------------------------------------------ the worker

  datatype Reply = Sealed | Rejected(until: real) | Wrong(left: nat) | Unreachable

  datatype Counter = Counter(failures: nat, lock: Option<real>)

  datatype Result = RecoveryLocked(until: real) | Done | RecoveryWrong(left: nat) | Failed

  function CounterMeter(c: Counter): Meter
  {
    if c.lock.Some? then Locked(c.lock.value) else Open(c.failures)
  }

  function LatestLock(replies: seq<Reply>): Option<real>
  {
    if replies == [] then None
    else
      var rest := LatestLock(replies[..|replies| - 1]);
      var last := replies[|replies| - 1];
      if !last.Rejected? then rest
      else if rest.None? then Some(last.until) else Some(Later(rest.value, last.until))
  }

  function CountSealed(replies: seq<Reply>): nat
  {
    if replies == [] then 0
    else CountSealed(replies[..|replies| - 1]) + if replies[|replies| - 1].Sealed? then 1 else 0
  }

  predicate SomeWrong(replies: seq<Reply>)
  {
    exists i :: 0 <= i < |replies| && replies[i].Wrong?
  }

  // A lock that has run out is removed together with the count.
  function Cleared(c: Counter): Counter
  {
    if c.lock.Some? then Counter(0, None) else c
  }

  // now is when the lock is looked up, later when the replies are in.
  function AfterReplies(limit: nat, threshold: nat, c: Counter, now: real, replies: seq<Reply>, later: real): (Counter, Result)
  {
    if Blocks(CounterMeter(c), now) then (c, RecoveryLocked(c.lock.value))
    else
      var clear, locks := Cleared(c), LatestLock(replies);
      if locks.Some? then
        var until := Later(locks.value, later + LOCK_SECONDS);
        (Counter(0, Some(until)), RecoveryLocked(until))
      else if CountSealed(replies) >= threshold then (Counter(0, None), Done)
      else if SomeWrong(replies) then
        if clear.failures + 1 >= limit then (Counter(0, Some(later + LOCK_SECONDS)), RecoveryLocked(later + LOCK_SECONDS))
        else (Counter(clear.failures + 1, None), RecoveryWrong(limit - (clear.failures + 1)))
      else (clear, Failed)
  }

  // The latest moment up to which a realm is locked.
  lemma {:induction false} LatestLockIs(replies: seq<Reply>)
    ensures LatestLock(replies).Some? <==> exists i :: 0 <= i < |replies| && replies[i].Rejected?
    ensures LatestLock(replies).Some? ==> Rejected(LatestLock(replies).value) in replies
    ensures forall i :: 0 <= i < |replies| && replies[i].Rejected? ==> replies[i].until <= LatestLock(replies).value
  {
    if replies != [] {
      var rest := replies[..|replies| - 1];
      LatestLockIs(rest);
      assert replies == rest + [replies[|replies| - 1]];
    }
  }

  // Attempts that the worker counts, one after the other.
  function AfterAttempts(limit: nat, threshold: nat, c: Counter, times: seq<real>, attempts: seq<Attempt>): Counter
    requires |attempts| == |times|
  {
    if times == [] then c
    else
      var n := |times| - 1;
      AfterReplies(limit, threshold, AfterAttempts(limit, threshold, c, times[..n], attempts[..n]),
                   times[n], attempts[n].replies, Later(times[n], attempts[n].later)).0
  }

  class Recovery {
    var failures: nat
    var lock: Option<real>
    const limit: nat
    const threshold: nat

    constructor (limit: nat, threshold: nat)
      ensures this.limit == limit && this.threshold == threshold && failures == 0 && lock == None
    {
      this.limit, this.threshold := limit, threshold;
      failures, lock := 0, None;
    }

    method Recover(replies: seq<Reply>, now: real, later: real) returns (r: Result)
      requires now <= later
      modifies this
      ensures (Counter(failures, lock), r) ==
        AfterReplies(limit, threshold, old(Counter(failures, lock)), now, replies, later)
      // locked: nothing is counted and nothing changes
      ensures old(lock).Some? && now < old(lock).value ==>
        r == RecoveryLocked(old(lock).value) && lock == old(lock) && failures == old(failures)
      // any realm that is locked locks the recovery, until the last of them opens and for LOCK_SECONDS at least
      ensures !(old(lock).Some? && now < old(lock).value) && (exists i :: 0 <= i < |replies| && replies[i].Rejected?) ==>
        r.RecoveryLocked? && lock == Some(r.until) && failures == 0 && later + LOCK_SECONDS <= r.until &&
        (forall i :: 0 <= i < |replies| && replies[i].Rejected? ==> replies[i].until <= r.until) &&
        (r.until == later + LOCK_SECONDS || Rejected(r.until) in replies)
      // otherwise enough shares recover and start a new count, and anything wrong counts one
      ensures !(old(lock).Some? && now < old(lock).value) && (forall i :: 0 <= i < |replies| ==> !replies[i].Rejected?) ==>
        var before := if old(lock).Some? then 0 else old(failures);
        if CountSealed(replies) >= threshold then r == Done && lock == None && failures == 0
        else if exists i :: 0 <= i < |replies| && replies[i].Wrong? then
          if before + 1 < limit then r == RecoveryWrong(limit - (before + 1)) && lock == None && failures == before + 1
          else r == RecoveryLocked(later + LOCK_SECONDS) && lock == Some(later + LOCK_SECONDS) && failures == 0
        else r == Failed && lock == None && failures == before
    {
      if lock.Some? {
        if now < lock.value {
          return RecoveryLocked(lock.value);
        }
        lock, failures := None, 0;
      }
      var shares, wrong, until := 0, false, None;
      for i := 0 to |replies|
        invariant shares == CountSealed(replies[..i]) && until == LatestLock(replies[..i])
        invariant wrong <==> exists j :: 0 <= j < i && replies[j].Wrong?
        invariant lock == None && failures == Cleared(old(Counter(failures, lock))).failures
      {
        assert replies[..i + 1][..i] == replies[..i];
        match replies[i]
        case Sealed => shares := shares + 1;
        case Rejected(u) => until := Some(if until.None? then u else Later(until.value, u));
        case Wrong(_) => wrong := true;
        case Unreachable =>
      }
      assert replies[..|replies|] == replies;
      LatestLockIs(replies);
      if until.Some? {
        lock, failures := Some(Later(until.value, later + LOCK_SECONDS)), 0;
        r := RecoveryLocked(lock.value);
      } else if shares >= threshold {
        lock, failures := None, 0;
        r := Done;
      } else if wrong {
        failures := failures + 1;
        if failures >= limit {
          lock, failures := Some(later + LOCK_SECONDS), 0;
          r := RecoveryLocked(lock.value);
        } else {
          r := RecoveryWrong(limit - failures);
        }
      } else {
        r := Failed;
      }
    }
  }

  // A wrong guess: no realm opens its share, whichever realms are asked and whatever else they reply.
  ghost predicate NoneSealed(replies: seq<Reply>)
  {
    forall i :: 0 <= i < |replies| ==> !replies[i].Sealed?
  }

  // The replies to one attempt and when they were in.
  datatype Attempt = Attempt(replies: seq<Reply>, later: real)

  function WorkerMachine(limit: nat, threshold: nat): Machine<Counter, Attempt>
  {
    Machine((c: Counter) => CounterMeter(c), (a: Attempt) => CountSealed(a.replies) == 0,
            (c: Counter, now: real, a: Attempt) => AfterReplies(limit, threshold, c, now, a.replies, Later(now, a.later)).0,
            (c: Counter, now: real, a: Attempt) =>
              !Blocks(CounterMeter(c), now) && (LatestLock(a.replies).Some? || SomeWrong(a.replies)))
  }

  lemma WorkerMeters(limit: nat, threshold: nat)
    requires limit > 0 && threshold > 0
    ensures Meters(limit, WorkerMachine(limit, threshold))
  {
  }

  // The worker's counter gives the same bound across any choice of realms.
  lemma WorkerGuessBound(limit: nat, threshold: nat, c: Counter, times: seq<real>, inputs: seq<Attempt>,
                         start: real, end: real)
    requires limit > 0 && threshold > 0 && |inputs| == |times| && Ascending(times, start, end)
    requires forall i :: 0 <= i < |inputs| ==> NoneSealed(inputs[i].replies)
    ensures Evaluated(WorkerMachine(limit, threshold), c, times, inputs) <= limit * (Periods(end - start) + 1)
  {
    forall i | 0 <= i < |inputs| ensures CountSealed(inputs[i].replies) == 0 {
      NoneSealedCount(inputs[i].replies);
    }
    WorkerMeters(limit, threshold);
    GuessBound(limit, WorkerMachine(limit, threshold), c, times, inputs, start, end);
  }

  // Wrong at some realm, locked at none.
  ghost predicate JustWrong(a: Attempt)
  {
    NoneSealed(a.replies) && SomeWrong(a.replies) && LatestLock(a.replies).None?
  }

  // From a count without a lock exactly limit - failures wrong attempts lock the recovery, and no fewer.
  lemma {:induction false} WorkerLeftIsExact(limit: nat, threshold: nat, failures: nat, times: seq<real>, attempts: seq<Attempt>)
    requires threshold > 0 && |attempts| == |times| && failures + |times| <= limit && 0 < |times|
    requires forall i :: 0 <= i < |attempts| ==> JustWrong(attempts[i])
    ensures AfterAttempts(limit, threshold, Counter(failures, None), times, attempts) ==
      var last := |times| - 1;
      if failures + |times| < limit then Counter(failures + |times|, None)
      else Counter(0, Some(Later(times[last], attempts[last].later) + LOCK_SECONDS))
  {
    var n := |times| - 1;
    NoneSealedCount(attempts[n].replies);
    if n == 0 {
      assert times[..0] == [] && attempts[..0] == [];
    } else {
      WorkerLeftIsExact(limit, threshold, failures, times[..n], attempts[..n]);
    }
  }

  lemma {:induction false} NoneSealedCount(replies: seq<Reply>)
    requires NoneSealed(replies)
    ensures CountSealed(replies) == 0
  {
    if replies != [] {
      NoneSealedCount(replies[..|replies| - 1]);
    }
  }

  // ------------------------------------------------------------------ the local vault

  const MAX_LOCAL_ATTEMPTS := 10

  datatype Meta = Meta(failed: nat, lockedUntil: Option<real>)

  datatype Unlock = Unlocked | VaultLocked | NoVault | VaultWrong

  function MetaMeter(m: Meta): Meter
  {
    if m.lockedUntil.Some? then Locked(m.lockedUntil.value) else Open(m.failed)
  }

  function AfterWrongPin(m: Meta, now: real, later: real): Meta
  {
    if Blocks(MetaMeter(m), now) then m
    else
      var failed := (if m.lockedUntil.Some? && m.lockedUntil.value <= later then 0 else m.failed) + 1;
      if failed >= MAX_LOCAL_ATTEMPTS then Meta(failed, Some(later + LOCK_SECONDS)) else Meta(failed, None)
  }

  // Wrong guesses up to and including the one that locks.
  function Left(m: Meta, now: real): nat
  {
    var failed := if m.lockedUntil.Some? && m.lockedUntil.value <= now then 0 else m.failed;
    if failed < MAX_LOCAL_ATTEMPTS then MAX_LOCAL_ATTEMPTS - failed else 0
  }

  // What the client is told counts down to the lock.
  lemma LeftCountsDown(m: Meta, now: real)
    requires !Blocks(MetaMeter(m), now) && (m.lockedUntil.None? ==> m.failed < MAX_LOCAL_ATTEMPTS)
    ensures Left(m, now) > 0 && Left(AfterWrongPin(m, now, now), now) == Left(m, now) - 1
    ensures MetaMeter(AfterWrongPin(m, now, now)).Locked? <==> Left(m, now) == 1
  {
  }

  // After n wrong guesses at one moment.
  function AfterWrongPins(m: Meta, now: real, n: nat): Meta
  {
    if n == 0 then m else AfterWrongPin(AfterWrongPins(m, now, n - 1), now, now)
  }

  // So many more wrong guesses lock the vault, and no fewer.
  lemma {:induction false} LeftIsExact(m: Meta, now: real, n: nat)
    requires !Blocks(MetaMeter(m), now) && (m.lockedUntil.None? ==> m.failed < MAX_LOCAL_ATTEMPTS) && n <= Left(m, now)
    ensures Blocks(MetaMeter(AfterWrongPins(m, now, n)), now) <==> n == Left(m, now)
    ensures n < Left(m, now) ==>
      Left(AfterWrongPins(m, now, n), now) == Left(m, now) - n &&
      (AfterWrongPins(m, now, n).lockedUntil.None? ==> AfterWrongPins(m, now, n).failed < MAX_LOCAL_ATTEMPTS)
  {
    if n > 0 {
      LeftIsExact(m, now, n - 1);
      LeftCountsDown(AfterWrongPins(m, now, n - 1), now);
    }
  }

  class Vault {
    var stored: bool
    var pin: nat
    var failed: nat
    var lockedUntil: Option<real>

    constructor (pin: nat)
      ensures stored && this.pin == pin && failed == 0 && lockedUntil == None
    {
      stored, this.pin, failed, lockedUntil := true, pin, 0, None;
    }

    function AttemptsLeft(now: real): (left: nat)
      reads this
      ensures left == Left(Meta(failed, lockedUntil), now)
    {
      if lockedUntil.Some? && lockedUntil.value <= now then MAX_LOCAL_ATTEMPTS
      else if failed < MAX_LOCAL_ATTEMPTS then MAX_LOCAL_ATTEMPTS - failed else 0
    }

    method UnlockWith(given: nat, now: real, later: real) returns (r: Unlock)
      requires now <= later
      modifies this`failed, this`lockedUntil
      ensures var m := old(Meta(failed, lockedUntil));
        if Blocks(MetaMeter(m), now) then r == VaultLocked && Meta(failed, lockedUntil) == m
        else if !stored then r == NoVault && Meta(failed, lockedUntil) == m
        else if given == pin then r == Unlocked && Meta(failed, lockedUntil) == Meta(0, None)
        else Meta(failed, lockedUntil) == AfterWrongPin(m, now, later) && r == if lockedUntil.Some? then VaultLocked else VaultWrong
      ensures old(lockedUntil).Some? && now < old(lockedUntil).value ==>
        r == VaultLocked && failed == old(failed) && lockedUntil == old(lockedUntil)
      // a wrong PIN counts one more, or the first one after a lock, and the tenth locks for LOCK_SECONDS
      ensures stored && !(old(lockedUntil).Some? && now < old(lockedUntil).value) && given != pin ==>
        failed == (if old(lockedUntil).Some? then 0 else old(failed)) + 1 &&
        lockedUntil == (if failed < MAX_LOCAL_ATTEMPTS then None else Some(later + LOCK_SECONDS)) &&
        r == if failed < MAX_LOCAL_ATTEMPTS then VaultWrong else VaultLocked
      ensures stored && !(old(lockedUntil).Some? && now < old(lockedUntil).value) && given == pin ==>
        r == Unlocked && failed == 0 && lockedUntil == None
    {
      if lockedUntil.Some? && now < lockedUntil.value {
        return VaultLocked;
      }
      if !stored {
        return NoVault;
      }
      if given == pin {
        failed, lockedUntil := 0, None;
        return Unlocked;
      }
      if lockedUntil.Some? && lockedUntil.value <= later {
        failed := 0;
      }
      failed := failed + 1;
      if failed >= MAX_LOCAL_ATTEMPTS {
        lockedUntil := Some(later + LOCK_SECONDS);
        return VaultLocked;
      }
      lockedUntil := None;
      r := VaultWrong;
    }
  }

  function VaultMachine(): Machine<Meta, real>
  {
    Machine(m => MetaMeter(m), _ => true, (m, now, delay) => AfterWrongPin(m, now, Later(now, delay)),
            (m, now, _) => !Blocks(MetaMeter(m), now))
  }

  lemma VaultGuessBound(m: Meta, times: seq<real>, inputs: seq<real>, start: real, end: real)
    requires |inputs| == |times| && Ascending(times, start, end)
    ensures Evaluated(VaultMachine(), m, times, inputs) <= MAX_LOCAL_ATTEMPTS * (Periods(end - start) + 1)
  {
    GuessBound(MAX_LOCAL_ATTEMPTS, VaultMachine(), m, times, inputs, start, end);
  }
}
