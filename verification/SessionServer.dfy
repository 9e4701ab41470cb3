// The session and pairing services over mutable tables.
module SessionServer {
  import opened KeyTree
  import opened Sessions
  import opened Pairing
  import opened SessionRuns

  // The session of a pairing can be issued: it is new, or as it was issued and not expired.
  predicate IsIssuable(s: Tables, user: nat, request: nat, key: Secret, token: Secret, now: int)
  {
    if request !in s.devices then token !in s.tokens
    else
      s.devices[request] == Device(user, key, None, None) && token in s.tokens && s.tokens[token].revokedAt == None &&
      now < s.tokens[token].expires
  }

  // Exactly the tokens of these devices that were usable are revoked, now.
  ghost predicate RevokesTokens(before: map<Secret, Token>, hit: set<nat>, now: int, after: map<Secret, Token>)
  {
    after.Keys == before.Keys &&
    forall x :: x in before ==>
      after[x] == if before[x].device in hit && before[x].revokedAt == None then before[x].(revokedAt := Some(now)) else before[x]
  }

  // Exactly these devices are revoked, now.
  ghost predicate RevokesDevices(before: map<nat, Device>, hit: set<nat>, now: int, after: map<nat, Device>)
  {
    after.Keys == before.Keys &&
    forall d :: d in before ==> after[d] == if d in hit then before[d].(revokedAt := Some(now)) else before[d]
  }

  function DevicesOf(s: Tables, user: nat): set<nat>
  {
    set d | d in s.devices && s.devices[d].user == user
  }

  // Revoking a user revokes the tokens of all devices of that user.
  lemma RevokeAllHits(s: Tables, user: nat, now: int)
    requires Inv(s)
    ensures RevokesTokens(s.tokens, DevicesOf(s, user), now, AfterRevokeAll(s, user, now).tokens)
    ensures RevokesDevices(s.devices, ActiveDevices(s, user), now, AfterRevokeAll(s, user, now).devices)
  {
    var after := AfterRevokeAll(s, user, now).tokens;
    forall x | x in s.tokens
      ensures after[x] == if s.tokens[x].device in DevicesOf(s, user) && s.tokens[x].revokedAt == None
        then s.tokens[x].(revokedAt := Some(now)) else s.tokens[x]
    {
      assert TokenOk(s, x);
    }
  }

  lemma OnlyOne(active: set<nat>, device: nat)
    requires device in active
    ensures |active| <= 1 <==> active == {device}
    ensures active == {device} <==> active - {device} == {}
  {
    assert active == (active - {device}) + {device};
  }

  predicate IsActiveAccount(s: Tables, account: Option<nat>)
  {
    account.Some? && account.value in s.users && !s.users[account.value].suspended
  }

  class SessionTables {
    var users: map<nat, User>
    var devices: map<nat, Device>
    var tokens: map<Secret, Token>
    var clock: int

    ghost function State(): Tables
      reads this
    {
      Tables(users, devices, tokens, clock)
    }

    constructor (users: map<nat, User>, clock: int)
      requires forall u :: u in users ==> NotAfter(users[u].sessionsRevokedAt, clock)
      ensures State() == Tables(users, map[], map[], clock) && Inv(State())
    {
      this.users, this.clock := users, clock;
      devices, tokens := map[], map[];
    }

    method RevokeDeviceTokens(device: nat, now: int)
      requires Inv(State()) && clock <= now
      modifies this`tokens, this`clock
      ensures State() == RevokeTokens(old(State()), device, now)
      ensures Inv(State()) && Later(old(State()), State())
      ensures NoToken(State(), device) && RevokesTokens(old(tokens), {device}, now, tokens)
    {
      RevokeTokensKeeps(State(), device, now);
      tokens := map x | x in tokens :: Revoked(tokens[x], device, now);
      clock := now;
    }

    method RevokeDeviceRow(device: nat, now: int)
      requires Inv(State()) && clock <= now
      modifies this`devices, this`tokens, this`clock
      ensures State() == RevokeDevice(old(State()), device, now)
      ensures Inv(State()) && Later(old(State()), State())
      ensures NoToken(State(), device)
      ensures RevokesTokens(old(tokens), {device}, now, tokens) && RevokesDevices(old(devices), {device}, now, devices)
      ensures forall c: Access :: c.device == device && c.issuedAt <= now ==> !Authenticates(State(), c)
    {
      RevokeDeviceKeeps(State(), device, now);
      RevokeDeviceTokens(device, now);
      if device in devices {
        devices := devices[device := devices[device].(revokedAt := Some(now))];
      }
    }

    method AddRefreshToken(token: Secret, user: nat, device: nat, expires: int)
      modifies this`tokens
      ensures State() == AddToken(old(State()), token, user, device, expires)
    {
      tokens := tokens[token := Token(user, device, None, None, expires)];
    }

    // known: the device of the user whose key the browser presented.
    method LogIn(user: nat, known: Option<nat>, device: nat, key: Secret, token: Secret, expires: int, now: int)
      requires Inv(State()) && Enabled(State(), Login(user, known, device, key, token, expires), now)
      modifies this
      ensures State() == Next(old(State()), Login(user, known, device, key, token, expires), now).0
      ensures Inv(State()) && Later(old(State()), State())
      ensures token in tokens && tokens[token].user == user && devices[tokens[token].device].key == key
      ensures forall x :: Usable(State(), x, tokens[token].device) <==> x == token
      // the device that was presented is used again, also a revoked one; otherwise there is a new one
      ensures tokens[token] == Token(user, tokens[token].device, None, None, expires)
      ensures known.Some? && known.value in old(devices) && old(devices)[known.value].user == user ==>
        tokens[token].device == known.value && devices.Keys == old(devices).Keys &&
        devices[known.value] == Device(user, key, None,
          if old(devices)[known.value].revokedAt.Some? then old(devices)[known.value].revokedAt
          else old(devices)[known.value].tokensRevokedAt)
      ensures !(known.Some? && known.value in old(devices) && old(devices)[known.value].user == user) ==>
        tokens[token].device == device && devices[device] == Device(user, key, None, None)
      ensures users == old(users) && forall d :: d in old(devices) && d != tokens[token].device ==> d in devices && devices[d] == old(devices)[d]
      ensures forall x :: x in old(tokens) && old(tokens)[x].device != tokens[token].device ==> x in tokens && tokens[x] == old(tokens)[x]
    {
      LoginKeeps(State(), user, known, device, key, token, expires, now);
      if known.Some? && known.value in devices && devices[known.value].user == user {
        var d := devices[known.value];
        if d.revokedAt.Some? {
          d := d.(tokensRevokedAt := d.revokedAt, revokedAt := None);
        }
        RevokeDeviceTokens(known.value, now);
        devices := devices[known.value := d.(key := key)];
        AddRefreshToken(token, user, known.value, expires);
        assert Usable(State(), token, known.value);
      } else {
        devices := devices[device := Device(user, key, None, None)];
        clock := now;
        AddRefreshToken(token, user, device, expires);
        assert Usable(State(), token, device);
      }
    }

    method RefreshSession(token: Secret, newToken: Secret, expires: int, now: int) returns (outcome: Outcome)
      requires Inv(State()) && Enabled(State(), Refresh(token, newToken, expires), now)
      modifies this
      ensures (State(), outcome) == Next(old(State()), Refresh(token, newToken, expires), now)
      ensures Inv(State()) && Later(old(State()), State())
      ensures outcome == Ok ==> token in tokens && forall x :: Usable(State(), x, tokens[token].device) <==> x == newToken
      // exactly a live token of an active user and device is exchanged, for one of the same device
      ensures outcome == Ok <==>
        (token in old(tokens) && old(tokens)[token].revokedAt == None && now <= old(tokens)[token].expires &&
         old(tokens)[token].user in users && !users[old(tokens)[token].user].suspended &&
         old(tokens)[token].device in old(devices) && old(devices)[old(tokens)[token].device].revokedAt == None)
      ensures outcome == Ok ==>
        tokens[newToken] == Token(old(tokens)[token].user, old(tokens)[token].device, None, None, expires) &&
        tokens[token] == old(tokens)[token].(revokedAt := Some(now), replacedBy := Some(newToken)) &&
        (forall x :: x in old(tokens) && x != token ==> x in tokens && tokens[x] == old(tokens)[x]) &&
        tokens.Keys == old(tokens).Keys + {newToken}
      ensures outcome == Ok || outcome == Unauthorized
      ensures users == old(users) && (outcome == Ok ==> devices == old(devices))
      ensures outcome != Ok && !(token in old(tokens) && old(tokens)[token].replacedBy.Some?) ==> State() == old(State())
      // presenting a token that was exchanged before ends the session of its device
      ensures token in old(tokens) && old(tokens)[token].replacedBy.Some? ==>
        outcome == Unauthorized && NoToken(State(), old(tokens)[token].device) &&
        RevokesTokens(old(tokens), {old(tokens)[token].device}, now, tokens) &&
        RevokesDevices(old(devices), {old(tokens)[token].device}, now, devices) &&
        forall c: Access :: c.device == old(tokens)[token].device && c.issuedAt <= now ==> !Authenticates(State(), c)
    {
      RefreshKeeps(State(), token, newToken, expires, now);
      if token in tokens {
        assert TokenOk(State(), token);
      }
      if token !in tokens {
        return Unauthorized;
      }
      var row := tokens[token];
      if row.revokedAt.Some? {
        if row.replacedBy.Some? {
          RevokeDeviceRow(row.device, now);
        }
        return Unauthorized;
      }
      if row.expires < now {
        return Unauthorized;
      }
      if row.user !in users || users[row.user].suspended || row.device !in devices || devices[row.device].revokedAt.Some? {
        return Unauthorized;
      }
      AddRefreshToken(newToken, row.user, row.device, expires);
      tokens := tokens[token := row.(revokedAt := Some(now), replacedBy := Some(newToken))];
      clock := now;
      outcome := Ok;
      assert Usable(State(), newToken, row.device);
    }

    method LogOut(user: nat, device: nat, preserveLast: bool, now: int) returns (outcome: Outcome)
      requires Inv(State()) && clock <= now
      modifies this
      ensures (State(), outcome) == Next(old(State()), Logout(user, device, preserveLast), now)
      ensures Inv(State()) && Later(old(State()), State())
      ensures outcome == Ok ==> NoToken(State(), device) && ActiveDevices(State(), user) == ActiveDevices(old(State()), user) - {device}
      ensures outcome == Ok ==> forall c: Access :: c.device == device && c.issuedAt <= now ==> !Authenticates(State(), c)
      ensures outcome == Ok && preserveLast ==> ActiveDevices(State(), user) != {}
      // an active device of the user, and not the last one if that is protected
      ensures outcome == NotFound <==> !(device in old(devices) && old(devices)[device].user == user && old(devices)[device].revokedAt == None)
      ensures outcome == Conflict <==> preserveLast && ActiveDevices(old(State()), user) == {device}
      ensures outcome == Ok || outcome == NotFound || outcome == Conflict
      ensures outcome != Ok ==> State() == old(State())
      ensures users == old(users)
      ensures outcome == Ok ==> RevokesTokens(old(tokens), {device}, now, tokens) && RevokesDevices(old(devices), {device}, now, devices)
    {
      LaterSelf(State());
      var active := set d | d in devices && devices[d].user == user && devices[d].revokedAt.None?;
      assert active == ActiveDevices(State(), user);
      if device !in active {
        return NotFound;
      }
      OnlyOne(active, device);
      if preserveLast && |active| <= 1 {
        return Conflict;
      }
      RevokeDeviceRow(device, now);
      outcome := Ok;
    }

    method RevokeDevices(user: nat, ids: set<nat>, now: int)
      requires Inv(State()) && clock <= now && ids <= ActiveDevices(State(), user)
      modifies this`devices, this`tokens, this`clock
      ensures State() == RevokeMany(old(State()), user, ids, now)
      ensures Inv(State()) && Later(old(State()), State())
      ensures RevokesTokens(old(tokens), ids, now, tokens) && RevokesDevices(old(devices), ids, now, devices)
      ensures ActiveDevices(State(), user) == ActiveDevices(old(State()), user) - ids
      ensures forall c: Access :: c.device in ids && c.issuedAt <= now ==> !Authenticates(State(), c)
    {
      RevokeManyKeeps(State(), user, ids, now);
      RevokeManyRejects(State(), user, ids, now);
      devices := map d | d in devices :: if d in ids then devices[d].(revokedAt := Some(now)) else devices[d];
      tokens := map x | x in tokens ::
        if tokens[x].user == user && tokens[x].device in ids then Revoked(tokens[x], tokens[x].device, now) else tokens[x];
      clock := now;
    }

    method LogOutAll(user: nat, current: nat, now: int) returns (outcome: Outcome)
      requires Inv(State()) && clock <= now
      modifies this
      ensures (State(), outcome) == Next(old(State()), LogoutAll(user, current), now)
      ensures Inv(State()) && Later(old(State()), State())
      ensures outcome == Ok ==> ActiveDevices(State(), user) == {current}
      ensures outcome == Ok <==> current in old(devices) && old(devices)[current].user == user && old(devices)[current].revokedAt == None
      ensures outcome != Ok ==> outcome == Unauthorized && State() == old(State())
      ensures outcome == Ok ==>
        RevokesTokens(old(tokens), ActiveDevices(old(State()), user) - {current}, now, tokens) &&
        RevokesDevices(old(devices), ActiveDevices(old(State()), user) - {current}, now, devices) && users == old(users)
      ensures outcome == Ok ==> forall c: Access :: c.device in ActiveDevices(old(State()), user) - {current} && c.issuedAt <= now ==>
        !Authenticates(State(), c)
    {
      LaterSelf(State());
      var active := set d | d in devices && devices[d].user == user && devices[d].revokedAt.None?;
      assert active == ActiveDevices(State(), user);
      if current !in active {
        return Unauthorized;
      }
      RevokeDevices(user, active - {current}, now);
      outcome := Ok;
    }

    method RevokeUserTokens(user: nat, now: int)
      modifies this`tokens
      ensures tokens == map x | x in old(tokens) ::
        if old(tokens)[x].user == user then Revoked(old(tokens)[x], old(tokens)[x].device, now) else old(tokens)[x]
    {
      tokens := map x | x in tokens ::
        if tokens[x].user == user then Revoked(tokens[x], tokens[x].device, now) else tokens[x];
    }

    method RevokeUser(user: nat, now: int)
      requires Inv(State()) && clock <= now
      modifies this
      ensures State() == Next(old(State()), RevokeAll(user), now).0
      ensures Inv(State()) && Later(old(State()), State())
      ensures ActiveDevices(State(), user) == {} && forall x :: x in tokens && tokens[x].user == user ==> tokens[x].revokedAt.Some?
      ensures users == if user in old(users) then old(users)[user := old(users)[user].(sessionsRevokedAt := Some(now))] else old(users)
      ensures RevokesDevices(old(devices), ActiveDevices(old(State()), user), now, devices)
      ensures RevokesTokens(old(tokens), DevicesOf(old(State()), user), now, tokens)
      ensures forall c: Access :: c.user == user && c.issuedAt <= now ==> !Authenticates(State(), c)
    {
      RevokeAllKeeps(State(), user, now);
      RevokeAllRejects(State(), user, now);
      RevokeAllHits(State(), user, now);
      RevokeUserRows(user, now);
    }

    method RevokeUserRows(user: nat, now: int)
      requires Inv(State()) && clock <= now
      modifies this
      ensures State() == AfterRevokeAll(old(State()), user, now)
    {
      var active := set d | d in devices && devices[d].user == user && devices[d].revokedAt.None?;
      assert active == ActiveDevices(State(), user);
      RevokeDevices(user, active, now);
      RevokeUserTokens(user, now);
      if user in users {
        users := users[user := users[user].(sessionsRevokedAt := Some(now))];
      }
    }

    method PreparePairing(user: nat, request: nat, key: Secret, token: Secret, expires: int, now: int) returns (outcome: Outcome)
      requires Inv(State()) && clock <= now
      modifies this
      ensures (State(), outcome) == Next(old(State()), Pair(user, request, key, token, expires), now)
      ensures Inv(State()) && Later(old(State()), State())
      ensures outcome == Ok ==>
        request in devices && devices[request].user == user && !Changed(State(), request, key, token) &&
        (request in old(devices) ==> State() == old(State()))
      ensures outcome != Ok ==> outcome == Conflict && State() == old(State())
      ensures outcome == Ok <==> IsIssuable(old(State()), user, request, key, token, now)
      ensures outcome == Ok && request !in old(devices) ==>
        devices == old(devices)[request := Device(user, key, None, None)] &&
        tokens == old(tokens)[token := Token(user, request, None, None, expires)] && users == old(users)
      ensures request in old(devices) && Changed(old(State()), request, key, token) ==> outcome == Conflict
    {
      PairKeeps(State(), user, request, key, token, expires, now);
      if request !in devices {
        if token in tokens {
          return Conflict;
        }
        devices := devices[request := Device(user, key, None, None)];
        AddRefreshToken(token, user, request, expires);
        clock := now;
        return Ok;
      }
      var d := devices[request];
      if d.user != user || d.revokedAt.Some? || d.tokensRevokedAt.Some? || d.key != key ||
         token !in tokens || tokens[token].revokedAt.Some? || tokens[token].expires <= now {
        return Conflict;
      }
      outcome := Ok;
    }

    // The moments at which what the access token stands for was revoked.
    function RevocationsOf(c: Access): (times: set<int>)
      reads this
    {
      (if c.user in users && users[c.user].sessionsRevokedAt.Some? then {users[c.user].sessionsRevokedAt.value} else {}) +
      (if c.device in devices && devices[c.device].revokedAt.Some? then {devices[c.device].revokedAt.value} else {}) +
      (if c.device in devices && devices[c.device].tokensRevokedAt.Some? then {devices[c.device].tokensRevokedAt.value} else {})
    }

    // An access token is accepted exactly when it was issued after every revocation.
    method Authenticate(c: Access) returns (ok: bool)
      ensures ok <==> Authenticates(State(), c)
      ensures ok <==>
        (c.user in users && !users[c.user].suspended && c.device in devices &&
         forall t :: t in RevocationsOf(c) ==> t < c.issuedAt)
    {
      if c.user !in users || users[c.user].suspended || IssuedBefore(c.issuedAt, users[c.user].sessionsRevokedAt) {
        assert c.user in users && users[c.user].sessionsRevokedAt.Some? ==>
          users[c.user].sessionsRevokedAt.value in RevocationsOf(c);
        return false;
      }
      if c.device !in devices {
        return false;
      }
      var d := devices[c.device];
      assert d.revokedAt.Some? ==> d.revokedAt.value in RevocationsOf(c);
      assert d.tokensRevokedAt.Some? ==> d.tokensRevokedAt.value in RevocationsOf(c);
      ok := !IssuedBefore(c.issuedAt, d.revokedAt) && !IssuedBefore(c.issuedAt, d.tokensRevokedAt);
    }
  }

  // The record of one request in Redis; a closure changes it and the whole of it is written back.
  class PairingRelay {
    static predicate QrFits(r: Record, user: nat, publicKey: nat)
    {
      publicKey == r.publicKey && (r.account.None? || r.account.value == user)
    }

    // What a scan of the QR of a pending request answers, each refusal with its reason.
    static predicate IsScanReply(record: Option<Record>, user: nat, publicKey: nat, now: int, reply: Reply)
    {
      (reply == Expired <==> record.None? || record.value.expiresAt <= now) &&
      (reply == KeyMismatch <==> record.Some? && now < record.value.expiresAt && publicKey != record.value.publicKey) &&
      (reply == OtherAccount <==>
        record.Some? && now < record.value.expiresAt && publicKey == record.value.publicKey &&
        !QrFits(record.value, user, publicKey)) &&
      (reply == Done <==>
        record.Some? && now < record.value.expiresAt && QrFits(record.value, user, publicKey) && record.value.status == Pending) &&
      reply in {Done, Expired, KeyMismatch, OtherAccount, Used}
    }

    var record: Option<Record>
    const request: nat

    constructor (request: nat, record: Record)
      requires RecordOk(record)
      ensures RecordValid() && this.request == request && this.record == Some(record)
    {
      this.request, this.record := request, Some(record);
    }

    predicate RecordValid()
      reads this
    {
      record.Some? ==> RecordOk(record.value)
    }

    predicate Alive(now: int)
      reads this
    {
      record.Some? && now < record.value.expiresAt
    }

    method InspectRequest(user: nat, publicKey: nat, now: int) returns (reply: Reply)
      requires RecordValid()
      modifies this
      ensures RecordValid() && (old(record).Some? ==> record.Some? && RecordLater(old(record.value), record.value))
      ensures old(Alive(now)) ==> (record.Some? && (record.value, reply) == Inspected(old(record.value), user, publicKey))
      ensures IsScanReply(old(record), user, publicKey, now, reply)
      ensures reply == Done ==> record == Some(old(record).value.(account := Some(user)))
      ensures reply != Done ==> record == old(record)
    {
      if !Alive(now) {
        return Expired;
      }
      var r := record.value;
      if publicKey != r.publicKey {
        return KeyMismatch;
      }
      if r.account.Some? && r.account.value != user {
        return OtherAccount;
      }
      if r.status != Pending {
        return Used;
      }
      record := Some(r.(account := Some(user)));
      reply := Done;
    }

    method ApproveRequest(user: nat, publicKey: nat, envelopeKey: nat, envelopeAccount: nat, envelope: nat, operation: nat,
                          now: int) returns (reply: Reply)
      requires RecordValid()
      modifies this
      ensures RecordValid() && (old(record).Some? ==> record.Some? && RecordLater(old(record.value), record.value))
      ensures old(Alive(now)) ==> (record.Some? && (record.value, reply) ==
        ApprovedBy(old(record.value), user, publicKey, envelopeKey, envelopeAccount, envelope, operation))
      ensures reply == Done <==>
        (old(Alive(now)) && old(record).value.status == Pending && QrFits(old(record).value, user, publicKey) &&
         envelopeKey == publicKey && envelopeAccount == user)
      ensures reply == Expired <==> !old(Alive(now))
      ensures reply == Used <==> old(Alive(now)) && QrFits(old(record).value, user, publicKey) && old(record).value.status != Pending
      ensures reply == KeyMismatch <==>
        old(Alive(now)) &&
        (publicKey != old(record).value.publicKey ||
         (QrFits(old(record).value, user, publicKey) && old(record).value.status == Pending && envelopeKey != publicKey))
      ensures reply == OtherAccount <==>
        old(Alive(now)) && publicKey == old(record).value.publicKey &&
        (!QrFits(old(record).value, user, publicKey) ||
         (old(record).value.status == Pending && envelopeKey == publicKey && envelopeAccount != user))
      ensures reply in {Done, Expired, Used, KeyMismatch, OtherAccount}
      ensures reply == Done ==>
        record == Some(old(record).value.(status := Approved, account := Some(user), envelope := Some(envelope), operation := Some(operation)))
      ensures reply != Done ==> record == old(record)
    {
      if !Alive(now) {
        return Expired;
      }
      var r := record.value;
      if publicKey != r.publicKey {
        return KeyMismatch;
      }
      if r.account.Some? && r.account.value != user {
        return OtherAccount;
      }
      if r.status != Pending {
        return Used;
      }
      if envelopeKey != r.publicKey {
        return KeyMismatch;
      }
      if envelopeAccount != user {
        return OtherAccount;
      }
      record := Some(r.(status := Approved, account := Some(user), envelope := Some(envelope), operation := Some(operation)));
      reply := Done;
    }

    method RejectRequest(user: nat, publicKey: nat, now: int) returns (reply: Reply)
      requires RecordValid()
      modifies this
      ensures RecordValid() && (old(record).Some? ==> record.Some? && RecordLater(old(record.value), record.value))
      ensures old(Alive(now)) ==> (record.Some? && (record.value, reply) == RejectedBy(old(record.value), user, publicKey))
      ensures IsScanReply(old(record), user, publicKey, now, reply)
      ensures reply == Done ==> record == Some(old(record).value.(status := Rejected, account := Some(user), envelope := None))
      ensures reply != Done ==> record == old(record)
    {
      if !Alive(now) {
        return Expired;
      }
      var r := record.value;
      if publicKey != r.publicKey {
        return KeyMismatch;
      }
      if r.account.Some? && r.account.value != user {
        return OtherAccount;
      }
      if r.status != Pending {
        return Used;
      }
      record := Some(r.(status := Rejected, account := Some(user), envelope := None));
      reply := Done;
    }

    method CancelRequest(poll: nat, now: int) returns (reply: Reply)
      requires RecordValid()
      modifies this
      ensures RecordValid() && (old(record).Some? ==> record.Some? && RecordLater(old(record.value), record.value))
      ensures old(Alive(now)) ==> (record.Some? && (record.value, reply) == Cancelled(old(record.value), poll))
      ensures reply == Done || reply.Refund? <==>
        old(Alive(now)) && poll == old(record.value).poll && old(record.value).status != Completed
      ensures reply == Done || reply.Refund? ==>
        record == Some(old(record).value.(status := Rejected, envelope := None, refundPending := reply.Refund?)) &&
        (reply.Refund? ==> reply.identity == record.value.identity)
      ensures !(reply == Done || reply.Refund?) ==>
        record == old(record) &&
        reply == if !old(Alive(now)) then Expired else if poll != record.value.poll then BadSecret else Used
      ensures reply.Refund? <==>
        (old(Alive(now)) && poll == old(record.value).poll && old(record.value).operation.None? &&
         (old(record.value).status == Pending || old(record.value).refundPending))
    {
      if !Alive(now) {
        return Expired;
      }
      var r := record.value;
      if poll != r.poll {
        return BadSecret;
      }
      if r.status == Completed {
        return Used;
      }
      if r.status == Pending {
        r := r.(refundPending := true);
      }
      r := r.(status := Rejected, envelope := None);
      record := Some(r);
      reply := if r.refundPending then Refund(r.identity) else Done;
    }

    // The refund is noted as done.
    method ClearRefundPending(poll: nat, now: int) returns (reply: Reply)
      requires RecordValid()
      modifies this
      ensures RecordValid() && (old(record).Some? ==> record.Some? && RecordLater(old(record.value), record.value))
      ensures old(Alive(now)) ==> (record.Some? && (record.value, reply) == RefundCleared(old(record.value), poll))
      ensures reply == Done <==> old(Alive(now)) && poll == old(record.value).poll
      ensures reply == Done ==> record == Some(old(record).value.(refundPending := false))
      ensures reply != Done ==> record == old(record) && reply == if old(Alive(now)) then BadSecret else Expired
    {
      if !Alive(now) {
        return Expired;
      }
      if poll != record.value.poll {
        return BadSecret;
      }
      record := Some(record.value.(refundPending := false));
      reply := Done;
    }

    // The part of a completion that ends with the EXEC: the record, and the prepared session rows.
    method CompleteRequest(tables: SessionTables, poll: nat, operation: nat, tokenExpires: int, now: int)
      returns (reply: Reply, issued: Option<Credentials>)
      requires RecordValid() && Inv(tables.State()) && tables.clock <= now
      modifies this, tables
      ensures Inv(tables.State()) && Later(old(tables.State()), tables.State())
      ensures RecordValid() && (old(record).Some? ==> record.Some? && RecordLater(old(record.value), record.value))
      ensures old(Alive(now)) ==> (record.Some? && (record.value, reply) ==
        CompletedBy(old(record.value), old(tables.State()), request, poll, operation, tokenExpires, now))
      // it succeeds for a living record that is approved for this operation, with the right secret, an
      // account that is not suspended, and a session that is new or unchanged
      ensures reply == Done <==>
        (old(Alive(now)) && poll == old(record).value.poll && old(record).value.status in {Approved, Completed} &&
         old(record).value.operation == Some(operation) && IsActiveAccount(old(tables.State()), old(record).value.account) &&
         IsIssuable(old(tables.State()), old(record).value.account.value, request,
                    Derived(old(record).value.account.value, request, operation, poll),
                    Derived(old(record).value.account.value, request, operation, poll), now))
      // which refusal each failure gives, in the order of the checks
      ensures reply == BadSecret <==> old(record).Some? && poll != old(record).value.poll
      ensures reply == NotApproved <==>
        old(record).Some? && poll == old(record).value.poll && old(record).value.status !in {Approved, Completed}
      ensures reply == Suspended <==>
        old(record).Some? && poll == old(record).value.poll && old(record).value.status in {Approved, Completed} &&
        !IsActiveAccount(old(tables.State()), old(record).value.account)
      ensures reply == Expired <==>
        (old(record).Some? ==>
         poll == old(record).value.poll && old(record).value.status in {Approved, Completed} &&
         IsActiveAccount(old(tables.State()), old(record).value.account) && old(record).value.expiresAt <= now)
      ensures reply in {Done, BadSecret, NotApproved, Suspended, Expired, Used}
      ensures reply != Done ==> tables.State() == old(tables.State()) && record == old(record) && issued == None
      // what is handed out: the derived token, and an access token of the time of the first completion
      ensures reply == Done ==>
        var was := old(record).value;
        var token := Derived(was.account.value, request, operation, poll);
        var issuedAt := if was.issuedAt.Some? then was.issuedAt.value else now;
        record == Some(was.(status := Completed, envelope := None, issuedAt := Some(issuedAt))) &&
        issued == Some(Credentials(token, token, Access(was.account.value, request, issuedAt))) &&
        tables.users == old(tables.users) &&
        if request in old(tables.devices) then tables.State() == old(tables.State())
        else
          tables.devices == old(tables.devices)[request := Device(was.account.value, token, None, None)] &&
          tables.tokens == old(tables.tokens)[token := Token(was.account.value, request, None, None, tokenExpires)]
    {
      LaterSelf(tables.State());
      if record.None? {
        return Expired, None;
      }
      var r := record.value;
      if poll != r.poll {
        return BadSecret, None;
      }
      if r.status != Approved && r.status != Completed {
        return NotApproved, None;
      }
      if r.account.None? || r.account.value !in tables.users || tables.users[r.account.value].suspended {
        return Suspended, None;
      }
      if r.expiresAt <= now {
        return Expired, None;
      }
      if r.operation != Some(operation) {
        return Used, None;
      }
      var secret := SecretOf(r, request);
      var prepared := tables.PreparePairing(r.account.value, request, secret, secret, tokenExpires, now);
      if prepared != Ok {
        return Used, None;
      }
      if r.issuedAt.None? {
        r := r.(issuedAt := Some(now));
      }
      r := r.(status := Completed, envelope := None);
      record := Some(r);
      reply, issued := Done, Some(CredentialsOf(r, request));
    }
  }
}
