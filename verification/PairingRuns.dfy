// Every run of one pairing, with concurrent requests, crashes, expiry and other sessions of the account.
module PairingRuns {
  import opened KeyTree
  import opened Sessions
  import opened Pairing
  import S = SessionRuns

  datatype Event = Event(action: Action, now: int)

  ghost predicate Reaches(w: World, request: nat, run: seq<Event>, v: World)
    decreases |run|
  {
    if run == [] then w == v
    else
      Takes(w, request, run[0].action, run[0].now) &&
      Reaches(Acts(w, request, run[0].action, run[0].now).0, request, run[1..], v)
  }

  lemma LaterTransitive(w: World, u: World, v: World)
    requires WorldLater(w, u) && WorldLater(u, v)
    ensures WorldLater(w, v)
  {
  }

  // The account, the operation and the issue time of a record are never exchanged, completed and
  // rejected are final, and what was delivered stays delivered.
  lemma {:induction false} RunKeeps(w: World, request: nat, run: seq<Event>, v: World)
    requires PairingInv(w, request) && Reaches(w, request, run, v)
    ensures PairingInv(v, request) && WorldLater(w, v)
    decreases |run|
  {
    if run != [] {
      var next := Acts(w, request, run[0].action, run[0].now).0;
      ActionKeeps(w, request, run[0].action, run[0].now);
      RunKeeps(next, request, run[1..], v);
      LaterTransitive(w, next, v);
    }
  }

  // A committed device means that its record is completed or gone, and every completion that
  // succeeded has handed out the same credentials.
  lemma OneSessionPerRequest(w: World, request: nat, run: seq<Event>, v: World)
    requires Starts(w, request) && Reaches(w, request, run, v)
    ensures request in v.tables.devices && v.record.Some? ==> v.record.value.status == Completed
    ensures forall i, j :: 0 <= i < j < |v.delivered| ==> v.delivered[i] == v.delivered[j]
    ensures v.record.Some? ==> (v.record.value.envelope.Some? <==> v.record.value.status == Approved)
  {
    assert PairingInv(w, request);
    RunKeeps(w, request, run, v);
  }

  // Once rejected, a request never yields a session.
  lemma RejectedYieldsNothing(w: World, request: nat, run: seq<Event>, v: World)
    requires PairingInv(w, request) && Reaches(w, request, run, v)
    requires v.record.Some? && v.record.value.status == Rejected
    ensures w.delivered == [] && v.delivered == [] && request !in v.tables.devices && v.issuing.None?
  {
    RunKeeps(w, request, run, v);
    assert |v.delivered| > 0 ==> Issued(v, request, v.delivered[0]);
  }

  // ------------------------------------------------------------------ nothing without an approval

  // An approval of a pending record by the account and for the operation that the credentials name.
  predicate ApprovesFor(w: World, request: nat, e: Event, c: Credentials)
  {
    e.action.Update? && e.action.change.Approve? && w.record.Some? && e.now < w.record.value.expiresAt &&
    w.record.value.status == Pending && (w.record.value.account.None? || w.record.value.account.value == c.access.user) &&
    e.action.change.user == e.action.change.envelopeAccount == c.access.user &&
    e.action.change.publicKey == e.action.change.envelopeKey == w.record.value.publicKey &&
    c.refresh == Derived(c.access.user, request, e.action.change.operation, w.record.value.poll)
  }

  // A completion of an approved record with the secret and for the operation that the credentials name.
  predicate CompletesFor(w: World, e: Event, c: Credentials)
  {
    e.action.Update? && e.action.change.Complete? && w.record.Some? && e.now < w.record.value.expiresAt &&
    w.record.value.status in {Approved, Completed} && c.refresh.Derived? &&
    e.action.change.poll == w.record.value.poll == c.refresh.poll && e.action.change.operation == c.refresh.operation
  }

  ghost predicate WasCompleted(w: World, request: nat, run: seq<Event>, c: Credentials)
    decreases |run|
  {
    run != [] && Takes(w, request, run[0].action, run[0].now) &&
    (CompletesFor(w, run[0], c) || WasCompleted(Acts(w, request, run[0].action, run[0].now).0, request, run[1..], c))
  }

  ghost predicate ApprovedThenCompleted(w: World, request: nat, run: seq<Event>, c: Credentials)
    decreases |run|
  {
    run != [] && Takes(w, request, run[0].action, run[0].now) &&
    var next := Acts(w, request, run[0].action, run[0].now).0;
    (ApprovesFor(w, request, run[0], c) && WasCompleted(next, request, run[1..], c)) ||
    ApprovedThenCompleted(next, request, run[1..], c)
  }

  ghost predicate NotIssued(w: World, c: Credentials)
  {
    (w.record.Some? ==> RecordOk(w.record.value)) && w.issuing != Some(c) && c !in w.delivered
  }

  // The record is not for these credentials.
  ghost predicate NotApprovedFor(w: World, request: nat, c: Credentials)
  {
    NotIssued(w, c) &&
    (w.record.Some? && w.record.value.operation.Some? && w.record.value.account.Some? ==>
     SecretOf(w.record.value, request) != c.refresh || w.record.value.account.value != c.access.user)
  }

  lemma NotIssuedStays(w: World, request: nat, e: Event, c: Credentials)
    requires NotIssued(w, c) && Takes(w, request, e.action, e.now) && !CompletesFor(w, e, c)
    ensures NotIssued(Acts(w, request, e.action, e.now).0, c)
  {
  }

  lemma NotApprovedStays(w: World, request: nat, e: Event, c: Credentials)
    requires NotApprovedFor(w, request, c) && Takes(w, request, e.action, e.now)
    ensures ApprovesFor(w, request, e, c) || NotApprovedFor(Acts(w, request, e.action, e.now).0, request, c)
  {
    match e.action
    case Update(change) =>
      if w.record.Some? && e.now < w.record.value.expiresAt {
        NotApprovedChange(w, request, e, change, c);
      }
    case _ =>
  }

  // Only an approval makes the record one for these credentials.
  lemma NotApprovedChange(w: World, request: nat, e: Event, change: Change, c: Credentials)
    requires NotApprovedFor(w, request, c) && w.record.Some? && e.now < w.record.value.expiresAt && e.action == Update(change)
    ensures ApprovesFor(w, request, e, c) || NotApprovedFor(Updated(w, request, change, e.now).0, request, c)
  {
    var r := w.record.value;
    var (q, reply) := Apply(r, w.tables, request, change, e.now);
    assert q.poll == r.poll;
    if change.Approve? && reply == Done {
      assert q.account == Some(change.user) && q.operation == Some(change.operation);
      assert SecretOf(q, request) == Derived(change.user, request, change.operation, r.poll);
    } else {
      assert q.operation == r.operation && (q.operation.Some? ==> q.account == r.account);
    }
  }

  lemma {:induction false} IssuedWasCompleted(w: World, request: nat, run: seq<Event>, v: World, c: Credentials)
    requires NotIssued(w, c) && Reaches(w, request, run, v) && (v.issuing == Some(c) || c in v.delivered)
    ensures WasCompleted(w, request, run, c)
    decreases |run|
  {
    if !CompletesFor(w, run[0], c) {
      NotIssuedStays(w, request, run[0], c);
      IssuedWasCompleted(Acts(w, request, run[0].action, run[0].now).0, request, run[1..], v, c);
    }
  }

  lemma {:induction false} IssuedWasApproved(w: World, request: nat, run: seq<Event>, v: World, c: Credentials)
    requires NotApprovedFor(w, request, c) && Reaches(w, request, run, v) && (v.issuing == Some(c) || c in v.delivered)
    ensures ApprovedThenCompleted(w, request, run, c)
    decreases |run|
  {
    var next := Acts(w, request, run[0].action, run[0].now).0;
    if ApprovesFor(w, request, run[0], c) {
      assert NotIssued(next, c);
      IssuedWasCompleted(next, request, run[1..], v, c);
    } else {
      NotApprovedStays(w, request, run[0], c);
      IssuedWasApproved(next, request, run[1..], v, c);
    }
  }

  // Whatever a request hands out was approved before, while it was pending, by the account and for the
  // operation that it names, and then completed with the secret of the request.
  lemma DeliveredWasApproved(w: World, request: nat, run: seq<Event>, v: World, c: Credentials)
    requires Starts(w, request) && Reaches(w, request, run, v) && c in v.delivered
    ensures ApprovedThenCompleted(w, request, run, c)
  {
    IssuedWasApproved(w, request, run, v, c);
  }

  // ------------------------------------------------------------------ the session of a request

  ghost predicate NoSecretOf(s: Tables, request: nat)
  {
    forall x :: x in s.tokens && x.Derived? ==> x.request != request
  }

  // Credentials of this request.
  predicate IsOwn(request: nat, c: Credentials)
  {
    c.key == c.refresh && c.refresh.Derived? && c.refresh.request == request && c.refresh.user == c.access.user
  }

  predicate PairedBy(s: Tables, request: nat, c: Credentials)
  {
    IsOwn(request, c) && S.Paired(s, c.access.user, request, c.key, c.refresh)
  }

  predicate ChangedSince(s: Tables, request: nat, c: Credentials)
    requires request in s.devices
  {
    S.Changed(s, request, c.key, c.refresh)
  }

  // The device of the request has the session that was delivered first; what is being issued has
  // not changed since it was prepared.
  ghost predicate SessionInv(w: World, request: nat)
  {
    Inv(w.tables) &&
    (request !in w.tables.devices ==> w.delivered == [] && NoSecretOf(w.tables, request)) &&
    (request in w.tables.devices ==> w.delivered != [] && PairedBy(w.tables, request, w.delivered[0])) &&
    (w.issuing.Some? ==>
      (IsOwn(request, w.issuing.value) &&
       (request in w.tables.devices ==> !ChangedSince(w.tables, request, w.issuing.value))))
  }

  lemma OtherKeepsSecrets(s: Tables, step: Step, now: int, request: nat)
    requires NoSecretOf(s, request) && IsOther(step, request)
    ensures NoSecretOf(Next(s, step, now).0, request)
  {
  }

  lemma SessionStepKeeps(w: World, request: nat, step: Step, now: int)
    requires SessionInv(w, request) && Takes(w, request, Session(step), now)
    ensures SessionInv(Acts(w, request, Session(step), now).0, request)
  {
    S.StepKeeps(w.tables, step, now);
    if request in w.tables.devices {
      var c := w.delivered[0];
      S.PairedKeyKept(w.tables, step, now, c.access.user, request, c.key, c.refresh);
    } else {
      OtherKeepsSecrets(w.tables, step, now, request);
      SessionKeepsDevice(w.tables, step, now, request);
    }
  }

  lemma CommitStepKeeps(w: World, request: nat, tokenExpires: int, now: int)
    requires SessionInv(w, request) && Takes(w, request, Commit(tokenExpires), now)
    ensures SessionInv(Acts(w, request, Commit(tokenExpires), now).0, request)
  {
    var c := w.issuing.value;
    S.PairKeeps(w.tables, c.access.user, request, c.key, c.refresh, tokenExpires, now);
    if request !in w.tables.devices {
      S.IssuedIsPaired(w.tables, c.access.user, request, c.key, c.refresh, tokenExpires, now);
    }
  }

  // A completion that succeeds has found the session unchanged.
  lemma CompletedUnchanged(w: World, request: nat, change: Change, now: int)
    requires Updated(w, request, change, now).1 == Done && change.Complete?
    ensures var v := Updated(w, request, change, now).0;
      v.issuing.Some? && IsOwn(request, v.issuing.value) && v.tables == w.tables && v.delivered == w.delivered &&
      (request in w.tables.devices ==> !ChangedSince(w.tables, request, v.issuing.value))
  {
  }

  lemma UpdateStepKeeps(w: World, request: nat, change: Change, now: int)
    requires SessionInv(w, request) && Takes(w, request, Update(change), now)
    ensures SessionInv(Updated(w, request, change, now).0, request)
  {
    if change.Complete? && Updated(w, request, change, now).1 == Done {
      CompletedUnchanged(w, request, change, now);
    }
  }

  lemma SessionKeeps(w: World, request: nat, action: Action, now: int)
    requires SessionInv(w, request) && Takes(w, request, action, now)
    ensures SessionInv(Acts(w, request, action, now).0, request)
  {
    match action
    case Update(change) => UpdateStepKeeps(w, request, change, now);
    case Commit(tokenExpires) => CommitStepKeeps(w, request, tokenExpires, now);
    case Session(step) => SessionStepKeeps(w, request, step, now);
    case _ =>
  }

  lemma {:induction false} SessionRunKeeps(w: World, request: nat, run: seq<Event>, v: World)
    requires SessionInv(w, request) && Reaches(w, request, run, v)
    ensures SessionInv(v, request)
    decreases |run|
  {
    if run != [] {
      SessionKeeps(w, request, run[0].action, run[0].now);
      SessionRunKeeps(Acts(w, request, run[0].action, run[0].now).0, request, run[1..], v);
    }
  }

  // A crash between the completion of the record and the commit loses nothing, also when the device
  // is there already: the same operation prepares the same credentials as long as the record lives.
  lemma RetryIssuesTheSame(w: World, request: nat, c: Credentials, operation: nat, tokenExpires: int, now: int)
    requires PairingInv(w, request) && SessionInv(w, request)
    requires w.issuing == Some(c) && w.record.Some? && now < w.record.value.expiresAt
    requires w.record.value.operation == Some(operation)
    requires c.access.user in w.tables.users && !w.tables.users[c.access.user].suspended
    requires request in w.tables.devices ==> now < w.tables.tokens[c.refresh].expires
    ensures var crashed := Acts(w, request, Crash, w.tables.clock).0;
      var change := Complete(w.record.value.poll, operation, tokenExpires);
      Updated(crashed, request, change, now).1 == Done && Updated(crashed, request, change, now).0.issuing == Some(c)
  {
    assert Issued(w, request, c);
    if request in w.tables.devices {
      assert w.delivered[0] == c;
    }
  }

  // ------------------------------------------------------------------ a changed session is not issued again

  // The session that was delivered has changed, and nothing is being issued.
  ghost predicate IsOver(w: World, request: nat, delivered: seq<Credentials>)
  {
    w.delivered == delivered && delivered != [] && w.issuing.None? && request in w.tables.devices &&
    ChangedSince(w.tables, request, delivered[0])
  }

  lemma OverRefuses(w: World, request: nat, delivered: seq<Credentials>, poll: nat, operation: nat, tokenExpires: int, now: int)
    requires PairingInv(w, request) && IsOver(w, request, delivered)
    ensures Updated(w, request, Complete(poll, operation, tokenExpires), now).1 != Done
  {
    assert Issued(w, request, w.delivered[0]);
  }

  lemma OverStays(w: World, request: nat, delivered: seq<Credentials>, action: Action, now: int)
    requires PairingInv(w, request) && SessionInv(w, request) && IsOver(w, request, delivered)
    requires Takes(w, request, action, now)
    ensures IsOver(Acts(w, request, action, now).0, request, delivered)
  {
    match action
    case Update(change) =>
      if change.Complete? {
        OverRefuses(w, request, delivered, change.poll, change.operation, change.tokenExpires, now);
      }
    case Session(step) =>
      var c := delivered[0];
      S.StepKeeps(w.tables, step, now);
      S.PairedKeyKept(w.tables, step, now, c.access.user, request, c.key, c.refresh);
      S.ChangedStays(w.tables, Next(w.tables, step, now).0, c.access.user, request, c.key, c.refresh);
    case _ =>
  }

  lemma {:induction false} OverForever(w: World, request: nat, delivered: seq<Credentials>, run: seq<Event>, v: World)
    requires PairingInv(w, request) && SessionInv(w, request) && IsOver(w, request, delivered) && Reaches(w, request, run, v)
    ensures PairingInv(v, request) && IsOver(v, request, delivered)
    decreases |run|
  {
    if run != [] {
      ActionKeeps(w, request, run[0].action, run[0].now);
      SessionKeeps(w, request, run[0].action, run[0].now);
      OverStays(w, request, delivered, run[0].action, run[0].now);
      OverForever(Acts(w, request, run[0].action, run[0].now).0, request, delivered, run[1..], v);
    }
  }

  ghost predicate StartsClean(w: World, request: nat)
  {
    Starts(w, request) && Inv(w.tables) && NoSecretOf(w.tables, request)
  }

  // Once the session of a request is revoked, rotated or its device logged in anew, no later completion
  // succeeds and nothing more is handed out, whatever else happens.
  lemma ChangedSessionIsRefused(w: World, request: nat, run: seq<Event>, v: World, rest: seq<Event>, u: World,
                                poll: nat, operation: nat, tokenExpires: int, now: int)
    requires StartsClean(w, request) && Reaches(w, request, run, v) && Reaches(v, request, rest, u)
    requires v.delivered != [] && request in v.tables.devices && ChangedSince(v.tables, request, v.delivered[0])
    ensures u.delivered == v.delivered && u.issuing.None?
    ensures Updated(u, request, Complete(poll, operation, tokenExpires), now).1 != Done
  {
    assert PairingInv(w, request) && SessionInv(w, request);
    RunKeeps(w, request, run, v);
    SessionRunKeeps(w, request, run, v);
    assert IsOver(v, request, v.delivered);
    OverForever(v, request, v.delivered, rest, u);
    OverRefuses(u, request, v.delivered, poll, operation, tokenExpires, now);
  }
}
