// One pairing request: its Redis record, the SQL session committed afterwards, and a crash in between.
module Pairing {
  import opened KeyTree
  import opened Sessions

  datatype Status = Pending | Approved | Rejected | Completed

  datatype Record = Record(publicKey: nat, poll: nat, identity: nat, expiresAt: int, status: Status, account: Option<nat>,
                           operation: Option<nat>, envelope: Option<nat>, issuedAt: Option<int>, refundPending: bool)

  // What a completed pairing hands out; everything is derived from the request and the receipt.
  datatype Credentials = Credentials(key: Secret, refresh: Secret, access: Access)

  // record is absent once it has expired; issuing holds what an unfinished completion has prepared.
  datatype World = World(record: Option<Record>, tables: Tables, issuing: Option<Credentials>, delivered: seq<Credentials>)

  datatype Reply = Done | Expired | BadSecret | KeyMismatch | OtherAccount | Used | NotApproved | Suspended | Refund(identity: nat)

  // Changes of the record under WATCH.
  datatype Change =
    | Inspect(user: nat, publicKey: nat)
    | Approve(user: nat, publicKey: nat, envelopeKey: nat, envelopeAccount: nat, envelope: nat, operation: nat)
    | Reject(user: nat, publicKey: nat)
    | Cancel(poll: nat)
    | ClearRefund(poll: nat)
    | Complete(poll: nat, operation: nat, tokenExpires: int)

  datatype Action = Update(change: Change) | Commit(tokenExpires: int) | Crash | Expire | Session(step: Step)

  // ------------------------------------------------------------------ the changes of the record

  // The QR of this request, shown by the account that owns the pairing or may come to.
  function Scan(r: Record, user: nat, publicKey: nat): Option<Reply>
  {
    if publicKey != r.publicKey then Some(KeyMismatch)
    else if r.account.Some? && r.account.value != user then Some(OtherAccount)
    else None
  }

  function Inspected(r: Record, user: nat, publicKey: nat): (Record, Reply)
  {
    var refused := Scan(r, user, publicKey);
    if refused.Some? then (r, refused.value)
    else if r.status != Pending then (r, Used)
    else (r.(account := Some(user)), Done)
  }

  function ApprovedBy(r: Record, user: nat, publicKey: nat, envelopeKey: nat, envelopeAccount: nat, envelope: nat,
                      operation: nat): (Record, Reply)
  {
    var refused := Scan(r, user, publicKey);
    if refused.Some? then (r, refused.value)
    else if r.status != Pending then (r, Used)
    else if Scan(r, user, envelopeKey).Some? then (r, Scan(r, user, envelopeKey).value)
    else if envelopeAccount != user then (r, OtherAccount)
    else (r.(status := Approved, account := Some(user), envelope := Some(envelope), operation := Some(operation)), Done)
  }

  function RejectedBy(r: Record, user: nat, publicKey: nat): (Record, Reply)
  {
    var refused := Scan(r, user, publicKey);
    if refused.Some? then (r, refused.value)
    else if r.status != Pending then (r, Used)
    else (r.(status := Rejected, account := Some(user), envelope := None), Done)
  }

  // Only a request that is pending when it is cancelled gives its generation slot back.
  function Cancelled(r: Record, poll: nat): (Record, Reply)
  {
    if poll != r.poll then (r, BadSecret)
    else if r.status == Completed then (r, Used)
    else
      var refund := r.refundPending || r.status == Pending;
      (r.(status := Rejected, envelope := None, refundPending := refund), if refund then Refund(r.identity) else Done)
  }

  function RefundCleared(r: Record, poll: nat): (Record, Reply)
  {
    if poll != r.poll then (r, BadSecret) else (r.(refundPending := false), Done)
  }

  function SecretOf(r: Record, request: nat): Secret
    requires r.account.Some? && r.operation.Some?
  {
    Derived(r.account.value, request, r.operation.value, r.poll)
  }

  function CredentialsOf(r: Record, request: nat): Credentials
    requires r.account.Some? && r.operation.Some? && r.issuedAt.Some?
  {
    Credentials(SecretOf(r, request), SecretOf(r, request), Access(r.account.value, request, r.issuedAt.value))
  }

  // What a completion looks at before it locks the account and watches the record, also of one that has just expired.
  function Unready(r: Record, s: Tables, poll: nat): Option<Reply>
  {
    if poll != r.poll then Some(BadSecret)
    else if r.status != Approved && r.status != Completed then Some(NotApproved)
    else if r.account.None? || r.account.value !in s.users || s.users[r.account.value].suspended then Some(Suspended)
    else None
  }

  // The completion under WATCH: the record is completed before anything is committed to SQL.
  function CompletedBy(r: Record, s: Tables, request: nat, poll: nat, operation: nat, tokenExpires: int, now: int): (Record, Reply)
  {
    var refused := Unready(r, s, poll);
    if refused.Some? then (r, refused.value)
    else if r.operation != Some(operation) then (r, Used)
    else
      var secret := SecretOf(r, request);
      if AfterPair(s, r.account.value, request, secret, secret, tokenExpires, now).1 != Ok then (r, Used)
      else (r.(status := Completed, envelope := None, issuedAt := if r.issuedAt.Some? then r.issuedAt else Some(now)), Done)
  }

  // ------------------------------------------------------------------ the steps

  function Apply(r: Record, s: Tables, request: nat, change: Change, now: int): (Record, Reply)
  {
    match change
    case Inspect(user, publicKey) => Inspected(r, user, publicKey)
    case Approve(user, publicKey, envelopeKey, envelopeAccount, envelope, operation) =>
      ApprovedBy(r, user, publicKey, envelopeKey, envelopeAccount, envelope, operation)
    case Reject(user, publicKey) => RejectedBy(r, user, publicKey)
    case Cancel(poll) => Cancelled(r, poll)
    case ClearRefund(poll) => RefundCleared(r, poll)
    case Complete(poll, operation, tokenExpires) => CompletedBy(r, s, request, poll, operation, tokenExpires, now)
  }

  function Updated(w: World, request: nat, change: Change, now: int): (World, Reply)
  {
    if w.record.None? then (w, Expired)
    else if change.Complete? && Unready(w.record.value, w.tables, change.poll).Some? then
      (w, Unready(w.record.value, w.tables, change.poll).value)
    else if w.record.value.expiresAt <= now then (w, Expired)
    else
      var (r, reply) := Apply(w.record.value, w.tables, request, change, now);
      (w.(record := Some(r),
          issuing := if change.Complete? && reply == Done && r.account.Some? && r.operation.Some? && r.issuedAt.Some?
                     then Some(CredentialsOf(r, request)) else w.issuing), reply)
  }

  // Other sessions: random ids and secrets never hit this request, and derived secrets name their own.
  predicate IsOther(step: Step, request: nat)
  {
    match step
    case Login(_, _, device, _, token, _) => device != request && token.Random?
    case Refresh(_, newToken, _) => newToken.Random?
    case Pair(_, other, _, token, _) => other != request && token.Derived? && token.request == other
    case _ => true
  }

  predicate Takes(w: World, request: nat, action: Action, now: int)
  {
    w.tables.clock <= now &&
    match action
    case Update(change) => change.Complete? ==> w.issuing.None?
    case Commit(_) => w.issuing.Some?
    case Crash => w.issuing.Some?
    case Expire => w.record.Some? && w.record.value.expiresAt <= now
    // other sessions change while no completion holds the account's lock
    case Session(step) => w.issuing.None? && Enabled(w.tables, step, now) && IsOther(step, request)
  }

  function Acts(w: World, request: nat, action: Action, now: int): (World, Reply)
    requires Takes(w, request, action, now)
  {
    match action
    case Update(change) => Updated(w, request, change, now)
    case Commit(tokenExpires) =>
      var c := w.issuing.value;
      (w.(tables := AfterPair(w.tables, c.access.user, request, c.key, c.refresh, tokenExpires, now).0,
          issuing := None, delivered := w.delivered + [c]), Done)
    case Crash => (w.(issuing := None), Done)
    case Expire => (w.(record := None), Done)
    case Session(step) => (w.(tables := Next(w.tables, step, now).0), Done)
  }

  // ------------------------------------------------------------------ what every state satisfies

  predicate RecordOk(r: Record)
  {
    (r.envelope.Some? <==> r.status == Approved) &&
    (r.status == Approved || r.status == Completed ==> r.account.Some? && r.operation.Some?) &&
    (r.status == Completed <==> r.issuedAt.Some?) && (r.status == Pending ==> r.operation.None?) &&
    (r.refundPending ==> r.status == Rejected && r.operation.None?)
  }

  // What is being issued or was delivered is what the receipt says, as long as there is one.
  predicate Issued(w: World, request: nat, c: Credentials)
  {
    w.record.Some? ==> w.record.value.status == Completed && RecordOk(w.record.value) && CredentialsOf(w.record.value, request) == c
  }

  ghost predicate PairingInv(w: World, request: nat)
  {
    (w.record.Some? ==> RecordOk(w.record.value)) &&
    (request in w.tables.devices && w.record.Some? ==> w.record.value.status == Completed) &&
    (w.issuing.Some? ==> Issued(w, request, w.issuing.value)) &&
    (forall i :: 0 <= i < |w.delivered| ==> Issued(w, request, w.delivered[i])) &&
    (forall i :: 0 <= i < |w.delivered| && w.issuing.Some? ==> w.delivered[i] == w.issuing.value) &&
    forall i, j :: 0 <= i < j < |w.delivered| ==> w.delivered[i] == w.delivered[j]
  }

  predicate Starts(w: World, request: nat)
  {
    w.record.Some? && w.record.value.status == Pending && w.record.value.account.None? && w.record.value.operation.None? &&
    w.record.value.envelope.None? && w.record.value.issuedAt.None? && !w.record.value.refundPending &&
    request !in w.tables.devices && w.issuing.None? && w.delivered == []
  }

  // Changes of the record: an account is never exchanged, and completed and rejected stay.
  predicate RecordLater(r: Record, q: Record)
  {
    q.publicKey == r.publicKey && q.poll == r.poll && q.expiresAt == r.expiresAt &&
    (r.account.Some? ==> q.account == r.account) && (r.operation.Some? ==> q.operation == r.operation) &&
    (r.issuedAt.Some? ==> q.issuedAt == r.issuedAt) &&
    (r.status == Completed ==> q.status == Completed) && (r.status == Rejected ==> q.status == Rejected) &&
    (r.status == Approved ==> q.status != Pending)
  }

  predicate WorldLater(w: World, v: World)
  {
    (v.record.Some? ==> w.record.Some? && RecordLater(w.record.value, v.record.value)) && w.delivered <= v.delivered
  }

  // Devices of other ids come and go without this request.
  lemma SessionKeepsDevice(s: Tables, step: Step, now: int, request: nat)
    requires request !in s.devices && IsOther(step, request)
    ensures request !in Next(s, step, now).0.devices
  {
  }

  lemma ChangeKeeps(r: Record, s: Tables, request: nat, change: Change, now: int)
    requires RecordOk(r)
    ensures var (q, reply) := Apply(r, s, request, change, now);
      RecordOk(q) && RecordLater(r, q) && (change.Complete? && reply == Done ==> q.status == Completed)
  {
  }

  lemma ActionKeeps(w: World, request: nat, action: Action, now: int)
    requires PairingInv(w, request) && Takes(w, request, action, now)
    ensures PairingInv(Acts(w, request, action, now).0, request) && WorldLater(w, Acts(w, request, action, now).0)
  {
    match action
    case Update(change) =>
      if w.record.Some? {
        ChangeKeeps(w.record.value, w.tables, request, change, now);
      }
    case Session(step) =>
      if request !in w.tables.devices {
        SessionKeepsDevice(w.tables, step, now, request);
      }
    case _ =>
  }
}
