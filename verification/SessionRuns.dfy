// What every run of logins, rotations and revocations keeps.
module SessionRuns {
  import opened KeyTree
  import opened Sessions

  // ------------------------------------------------------------------ what never goes back

  function Latest(a: Option<int>, b: Option<int>): Option<int>
  {
    if a.None? then b else if b.None? then a else if a.value < b.value then b else a
  }

  predicate NoEarlier(a: Option<int>, b: Option<int>)
  {
    a.Some? ==> b.Some? && a.value <= b.value
  }

  // The moment up to which the access tokens of a device are revoked.
  function Threshold(d: Device): Option<int>
  {
    Latest(d.revokedAt, d.tokensRevokedAt)
  }

  ghost predicate DeviceLater(s: Tables, t: Tables, d: nat)
    requires d in s.devices
  {
    d in t.devices && t.devices[d].user == s.devices[d].user &&
    NoEarlier(Threshold(s.devices[d]), Threshold(t.devices[d]))
  }

  ghost predicate TokenLater(s: Tables, t: Tables, x: Secret)
    requires x in s.tokens
  {
    x in t.tokens && t.tokens[x].device == s.tokens[x].device && t.tokens[x].user == s.tokens[x].user &&
    (s.tokens[x].revokedAt.Some? ==> t.tokens[x].revokedAt.Some?) &&
    (s.tokens[x].replacedBy.Some? ==> t.tokens[x].replacedBy.Some?)
  }

  ghost predicate Later(s: Tables, t: Tables)
  {
    s.clock <= t.clock &&
    (forall u :: u in s.users ==>
      u in t.users && NoEarlier(s.users[u].sessionsRevokedAt, t.users[u].sessionsRevokedAt)) &&
    (forall d {:trigger DeviceLater(s, t, d)} :: d in s.devices ==> DeviceLater(s, t, d)) &&
    forall x {:trigger TokenLater(s, t, x)} :: x in s.tokens ==> TokenLater(s, t, x)
  }

  lemma LaterTransitive(s: Tables, t: Tables, u: Tables)
    requires Later(s, t) && Later(t, u)
    ensures Later(s, u)
  {
    forall d | d in s.devices ensures DeviceLater(s, u, d) {
      assert DeviceLater(s, t, d) && DeviceLater(t, u, d);
    }
    forall x | x in s.tokens ensures TokenLater(s, u, x) {
      assert TokenLater(s, t, x) && TokenLater(t, u, x);
    }
  }

  // ------------------------------------------------------------------ the operations keep it

  // Changes that only revoke: the devices of a set now, and every usable token of theirs, perhaps more tokens.
  ghost predicate OnlyRevokes(s: Tables, t: Tables, devices: set<nat>, now: int)
  {
    t.devices.Keys == s.devices.Keys && t.tokens.Keys == s.tokens.Keys && t.clock == now &&
    (forall d :: d in s.devices ==>
      t.devices[d] == if d in devices then s.devices[d].(revokedAt := Some(now)) else s.devices[d]) &&
    (forall x :: x in s.tokens ==>
      t.tokens[x] == s.tokens[x] || (s.tokens[x].revokedAt.None? && t.tokens[x] == s.tokens[x].(revokedAt := Some(now)))) &&
    (forall x :: x in s.tokens && s.tokens[x].device in devices ==> t.tokens[x].revokedAt.Some?) &&
    t.users.Keys == s.users.Keys &&
    forall u :: u in s.users ==> t.users[u] == s.users[u] || t.users[u] == s.users[u].(sessionsRevokedAt := Some(now))
  }

  lemma RevokingKeeps(s: Tables, t: Tables, devices: set<nat>, now: int)
    requires Inv(s) && s.clock <= now && OnlyRevokes(s, t, devices, now)
    ensures Inv(t) && Later(s, t)
  {
    forall d | d in t.devices ensures DeviceOk(t, d) && DeviceLater(s, t, d) {
      assert DeviceOk(s, d);
    }
    forall x | x in t.tokens ensures TokenOk(t, x) && TokenLater(s, t, x) {
      assert TokenOk(s, x);
    }
    forall x, y, d | Usable(t, x, d) && Usable(t, y, d) ensures x == y {
      assert Usable(s, x, d) && Usable(s, y, d);
    }
  }

  // A new usable token for a device that is active and has none.
  lemma AddingKeeps(s: Tables, token: Secret, user: nat, device: nat, expires: int)
    requires Inv(s) && token !in s.tokens
    requires device in s.devices && s.devices[device].user == user && s.devices[device].revokedAt.None?
    requires NoToken(s, device)
    ensures Inv(AddToken(s, token, user, device, expires)) && Later(s, AddToken(s, token, user, device, expires))
  {
    var t := AddToken(s, token, user, device, expires);
    forall d | d in t.devices ensures DeviceOk(t, d) && DeviceLater(s, t, d) {
      assert DeviceOk(s, d);
    }
    forall x | x in t.tokens ensures TokenOk(t, x) {
      if x != token {
        assert TokenOk(s, x);
      }
    }
    forall x | x in s.tokens ensures TokenLater(s, t, x) {
    }
    forall x, y, d | Usable(t, x, d) && Usable(t, y, d) ensures x == y {
      if x != token { assert Usable(s, x, d); }
      if y != token { assert Usable(s, y, d); }
    }
  }

  // A device without tokens: a new one, or one that comes back with its old threshold.
  lemma DeviceKeeps(s: Tables, device: nat, d: Device, now: int)
    requires Inv(s) && s.clock <= now && DeviceTimes(d, now)
    requires device in s.devices ==>
      d.user == s.devices[device].user && NoEarlier(Threshold(s.devices[device]), Threshold(d))
    requires NoToken(s, device)
    ensures Inv(s.(devices := s.devices[device := d], clock := now))
    ensures Later(s, s.(devices := s.devices[device := d], clock := now))
    ensures NoToken(s.(devices := s.devices[device := d], clock := now), device)
  {
    var t := s.(devices := s.devices[device := d], clock := now);
    forall e | e in t.devices ensures DeviceOk(t, e) {
      if e in s.devices { assert DeviceOk(s, e); }
    }
    forall e | e in s.devices ensures DeviceLater(s, t, e) {
    }
    forall x | x in t.tokens ensures TokenOk(t, x) && TokenLater(s, t, x) {
      assert TokenOk(s, x);
      assert !Usable(s, x, device);
    }
    forall x, y, e | Usable(t, x, e) && Usable(t, y, e) ensures x == y {
      assert Usable(s, x, e) && Usable(s, y, e);
    }
    forall x ensures !Usable(t, x, device) {
      assert !Usable(s, x, device);
    }
  }

  lemma RevokeTokensKeeps(s: Tables, device: nat, now: int)
    requires Inv(s) && s.clock <= now
    ensures Inv(RevokeTokens(s, device, now)) && Later(s, RevokeTokens(s, device, now))
    ensures NoToken(RevokeTokens(s, device, now), device)
  {
    RevokingKeeps(s, RevokeTokens(s, device, now), {}, now);
  }

  lemma RevokeDeviceKeeps(s: Tables, device: nat, now: int)
    requires Inv(s) && s.clock <= now
    ensures Inv(RevokeDevice(s, device, now)) && Later(s, RevokeDevice(s, device, now))
    ensures NoToken(RevokeDevice(s, device, now), device)
  {
    RevokingKeeps(s, RevokeDevice(s, device, now), {device}, now);
  }

  lemma RevokeManyKeeps(s: Tables, user: nat, devices: set<nat>, now: int)
    requires Inv(s) && s.clock <= now && forall d :: d in devices ==> IsActive(s, user, d)
    ensures Inv(RevokeMany(s, user, devices, now)) && Later(s, RevokeMany(s, user, devices, now))
    ensures OnlyRevokes(s, RevokeMany(s, user, devices, now), devices, now)
  {
    forall x | x in s.tokens && s.tokens[x].device in devices ensures s.tokens[x].user == user {
      assert TokenOk(s, x);
    }
    RevokingKeeps(s, RevokeMany(s, user, devices, now), devices, now);
  }

  lemma LoginKeeps(s: Tables, user: nat, known: Option<nat>, device: nat, key: Secret, token: Secret, expires: int, now: int)
    requires Inv(s) && s.clock <= now && device !in s.devices && token !in s.tokens
    ensures var t := AfterLogin(s, user, known, device, key, token, expires, now); Inv(t) && Later(s, t)
  {
    var t := AfterLogin(s, user, known, device, key, token, expires, now);
    if known.Some? && known.value in s.devices && s.devices[known.value].user == user {
      var d := s.devices[known.value];
      var revived := if d.revokedAt.Some? then d.(tokensRevokedAt := d.revokedAt, revokedAt := None) else d;
      var r := RevokeTokens(s, known.value, now);
      assert DeviceOk(s, known.value);
      RevokeTokensKeeps(s, known.value, now);
      DeviceKeeps(r, known.value, revived.(key := key), now);
      var back := r.(devices := s.devices[known.value := revived.(key := key)], clock := now);
      AddingKeeps(back, token, user, known.value, expires);
      LaterTransitive(s, r, back);
      LaterTransitive(s, back, t);
    } else {
      forall x ensures !Usable(s, x, device) {
        if x in s.tokens { assert TokenOk(s, x); }
      }
      var d := Device(user, key, None, None);
      DeviceKeeps(s, device, d, now);
      var back := s.(devices := s.devices[device := d], clock := now);
      AddingKeeps(back, token, user, device, expires);
      LaterTransitive(s, back, t);
    }
  }

  lemma RefreshKeeps(s: Tables, token: Secret, newToken: Secret, expires: int, now: int)
    requires Inv(s) && s.clock <= now && newToken !in s.tokens
    ensures var t := AfterRefresh(s, token, newToken, expires, now).0; Inv(t) && Later(s, t)
  {
    var (t, outcome) := AfterRefresh(s, token, newToken, expires, now);
    if token in s.tokens {
      var row := s.tokens[token];
      assert TokenOk(s, token);
      if row.revokedAt.Some? {
        if row.replacedBy.Some? {
          RevokeDeviceKeeps(s, row.device, now);
        }
      } else if outcome.Ok? {
        // the exchanged token is revoked first, and the new one is the only one left
        var spent := s.(tokens := s.tokens[token := row.(revokedAt := Some(now))], clock := now);
        assert Usable(s, token, row.device);
        RevokingKeeps(s, spent, {}, now);
        forall x ensures !Usable(spent, x, row.device) {
          assert Usable(spent, x, row.device) ==> Usable(s, x, row.device);
        }
        AddingKeeps(spent, newToken, row.user, row.device, expires);
        var added := AddToken(spent, newToken, row.user, row.device, expires);
        LaterTransitive(s, spent, added);
        ExchangedKeeps(added, token, newToken);
        assert t == added.(tokens := added.tokens[token := added.tokens[token].(replacedBy := Some(newToken))]);
        LaterTransitive(s, added, t);
      }
    }
    if t == s {
      LaterSelf(s);
    }
  }

  lemma LaterSelf(s: Tables)
    ensures Later(s, s)
  {
  }

  // Marking a revoked token as exchanged.
  lemma ExchangedKeeps(s: Tables, token: Secret, newToken: Secret)
    requires Inv(s) && token in s.tokens && s.tokens[token].revokedAt.Some?
    ensures var t := s.(tokens := s.tokens[token := s.tokens[token].(replacedBy := Some(newToken))]); Inv(t) && Later(s, t)
  {
    var t := s.(tokens := s.tokens[token := s.tokens[token].(replacedBy := Some(newToken))]);
    forall d | d in t.devices ensures DeviceOk(t, d) && DeviceLater(s, t, d) {
      assert DeviceOk(s, d);
    }
    forall x | x in t.tokens ensures TokenOk(t, x) && TokenLater(s, t, x) {
      assert TokenOk(s, x);
    }
    forall x, y, d | Usable(t, x, d) && Usable(t, y, d) ensures x == y {
      assert Usable(s, x, d) && Usable(s, y, d);
    }
  }

  lemma RevokeAllKeeps(s: Tables, user: nat, now: int)
    requires Inv(s) && s.clock <= now
    ensures var t := AfterRevokeAll(s, user, now); Inv(t) && Later(s, t)
  {
    var devices := ActiveDevices(s, user);
    RevokeManyKeeps(s, user, devices, now);
    var t := AfterRevokeAll(s, user, now);
    forall x | x in s.tokens && s.tokens[x].device in devices ensures t.tokens[x].revokedAt.Some? {
      assert TokenOk(s, x);
    }
    RevokingKeeps(s, t, devices, now);
  }

  // Revoking devices of a user leaves the others active, and rejects what was issued for them.
  lemma RevokeManyRejects(s: Tables, user: nat, devices: set<nat>, now: int)
    requires devices <= ActiveDevices(s, user)
    ensures ActiveDevices(RevokeMany(s, user, devices, now), user) == ActiveDevices(s, user) - devices
    ensures forall c: Access :: c.device in devices && c.issuedAt <= now ==>
      !Authenticates(RevokeMany(s, user, devices, now), c)
  {
    var t := RevokeMany(s, user, devices, now);
    forall d ensures d in ActiveDevices(t, user) <==> d in ActiveDevices(s, user) && d !in devices {
    }
  }

  // Revoking everything leaves the user no active device and no usable token, and rejects every access token so far.
  lemma RevokeAllRejects(s: Tables, user: nat, now: int)
    ensures var t := AfterRevokeAll(s, user, now);
      ActiveDevices(t, user) == {} && (forall x :: x in t.tokens && t.tokens[x].user == user ==> t.tokens[x].revokedAt.Some?) &&
      forall c: Access :: c.user == user && c.issuedAt <= now ==> !Authenticates(t, c)
  {
    RevokeManyRejects(s, user, ActiveDevices(s, user), now);
    var r, t := RevokeMany(s, user, ActiveDevices(s, user), now), AfterRevokeAll(s, user, now);
    assert t.devices == r.devices;
    forall d ensures d in ActiveDevices(t, user) <==> d in ActiveDevices(r, user) {
    }
  }

  lemma PairKeeps(s: Tables, user: nat, request: nat, key: Secret, token: Secret, expires: int, now: int)
    requires Inv(s) && s.clock <= now
    ensures var t := AfterPair(s, user, request, key, token, expires, now).0; Inv(t) && Later(s, t)
  {
    var t := AfterPair(s, user, request, key, token, expires, now).0;
    if request !in s.devices && token !in s.tokens {
      forall x ensures !Usable(s, x, request) {
        if x in s.tokens { assert TokenOk(s, x); }
      }
      var d := Device(user, key, None, None);
      DeviceKeeps(s, request, d, now);
      var back := s.(devices := s.devices[request := d], clock := now);
      AddingKeeps(back, token, user, request, expires);
      LaterTransitive(s, back, t);
    } else {
      LaterSelf(s);
    }
  }

  lemma StepKeeps(s: Tables, step: Step, now: int)
    requires Inv(s) && Enabled(s, step, now)
    ensures Inv(Next(s, step, now).0) && Later(s, Next(s, step, now).0)
  {
    LaterSelf(s);
    match step
    case Login(user, known, device, key, token, expires) => LoginKeeps(s, user, known, device, key, token, expires, now);
    case Refresh(token, newToken, expires) => RefreshKeeps(s, token, newToken, expires, now);
    case Logout(user, device, preserveLast) => RevokeDeviceKeeps(s, device, now);
    case LogoutAll(user, current) => RevokeManyKeeps(s, user, ActiveDevices(s, user) - {current}, now);
    case RevokeAll(user) => RevokeAllKeeps(s, user, now);
    case Pair(user, request, key, token, expires) => PairKeeps(s, user, request, key, token, expires, now);
  }

  // ------------------------------------------------------------------ runs

  datatype Event = Event(step: Step, now: int)

  ghost predicate Reaches(s: Tables, run: seq<Event>, t: Tables)
    decreases |run|
  {
    if run == [] then s == t
    else Enabled(s, run[0].step, run[0].now) && Reaches(Next(s, run[0].step, run[0].now).0, run[1..], t)
  }

  lemma {:induction false} RunKeeps(s: Tables, run: seq<Event>, t: Tables)
    requires Inv(s) && Reaches(s, run, t)
    ensures Inv(t) && Later(s, t)
    decreases |run|
  {
    LaterSelf(s);
    if run != [] {
      var next := Next(s, run[0].step, run[0].now).0;
      StepKeeps(s, run[0].step, run[0].now);
      RunKeeps(next, run[1..], t);
      LaterTransitive(s, next, t);
    }
  }

  // An access token that is once rejected as revoked is rejected for ever, also after a re-login on the device.
  lemma RevokedForever(s: Tables, run: seq<Event>, t: Tables, c: Access)
    requires Inv(s) && Reaches(s, run, t) && IsRevoked(s, c)
    ensures IsRevoked(t, c) && !Authenticates(t, c)
  {
    RunKeeps(s, run, t);
    if c.device in s.devices {
      assert DeviceLater(s, t, c.device);
    }
  }

  // Logging a device out rejects every access token issued for it up to then, and leaves it no refresh token.
  lemma LogoutIsFinal(s: Tables, user: nat, device: nat, preserveLast: bool, now: int, run: seq<Event>, t: Tables, c: Access)
    requires Inv(s) && s.clock <= now && AfterLogout(s, user, device, preserveLast, now).1 == Ok
    requires Reaches(AfterLogout(s, user, device, preserveLast, now).0, run, t) && c.device == device && c.issuedAt <= now
    ensures !Authenticates(t, c)
    ensures NoToken(AfterLogout(s, user, device, preserveLast, now).0, device)
  {
    RevokeDeviceKeeps(s, device, now);
    RevokedForever(RevokeDevice(s, device, now), run, t, c);
  }

  // A device has at most one usable refresh token, and a revoked device none.
  lemma AtMostOneToken(s: Tables, x: Secret, y: Secret, d: nat)
    requires Inv(s) && Usable(s, x, d)
    ensures d in s.devices && s.devices[d].revokedAt.None? && (Usable(s, y, d) ==> y == x)
  {
    assert TokenOk(s, x);
  }

  // Presenting a token that was exchanged at any earlier moment leaves its device revoked.
  lemma ReuseRevokesDevice(s: Tables, token: Secret, newToken: Secret, expires: int, now: int, run: seq<Event>, t: Tables,
                           other: Secret, otherExpires: int, later: int)
    requires Inv(s) && s.clock <= now && newToken !in s.tokens
    requires AfterRefresh(s, token, newToken, expires, now).1 == Ok
    requires Reaches(AfterRefresh(s, token, newToken, expires, now).0, run, t) && t.clock <= later
    ensures token in t.tokens
    ensures var (u, outcome) := AfterRefresh(t, token, other, otherExpires, later);
      outcome == Unauthorized && t.tokens[token].device in u.devices &&
      u.devices[t.tokens[token].device].revokedAt == Some(later) &&
      NoToken(u, t.tokens[token].device)
  {
    var next := AfterRefresh(s, token, newToken, expires, now).0;
    RefreshKeeps(s, token, newToken, expires, now);
    RunKeeps(next, run, t);
    assert TokenLater(next, t, token);
    assert TokenOk(t, token);
    RevokeDeviceKeeps(t, t.tokens[token].device, later);
  }

  // ------------------------------------------------------------------ sessions of pairings

  // Something about the session of a pairing is no longer as it was issued.
  predicate Changed(s: Tables, request: nat, key: Secret, token: Secret)
    requires request in s.devices
  {
    s.devices[request].revokedAt.Some? || s.devices[request].tokensRevokedAt.Some? || s.devices[request].key != key ||
    token !in s.tokens || s.tokens[token].revokedAt.Some?
  }

  // The device and the token of a pairing; its key is exchanged only together with its token.
  predicate Paired(s: Tables, user: nat, request: nat, key: Secret, token: Secret)
  {
    request in s.devices && s.devices[request].user == user && token in s.tokens && s.tokens[token].device == request &&
    (s.devices[request].key != key ==> s.tokens[token].revokedAt.Some?)
  }

  lemma PairedKeyKept(s: Tables, step: Step, now: int, user: nat, request: nat, key: Secret, token: Secret)
    requires Enabled(s, step, now) && Paired(s, user, request, key, token)
    requires Later(s, Next(s, step, now).0)
    ensures Paired(Next(s, step, now).0, user, request, key, token)
  {
    var t := Next(s, step, now).0;
    assert DeviceLater(s, t, request) && TokenLater(s, t, token);
  }

  lemma ChangedStays(s: Tables, t: Tables, user: nat, request: nat, key: Secret, token: Secret)
    requires Later(s, t) && Paired(s, user, request, key, token) && Paired(t, user, request, key, token)
    requires Changed(s, request, key, token)
    ensures Changed(t, request, key, token)
  {
    assert DeviceLater(s, t, request) && TokenLater(s, t, token);
  }

  lemma {:induction false} PairedForever(s: Tables, run: seq<Event>, t: Tables, user: nat, request: nat, key: Secret, token: Secret)
    requires Inv(s) && Reaches(s, run, t) && Paired(s, user, request, key, token)
    ensures Paired(t, user, request, key, token)
    decreases |run|
  {
    if run != [] {
      StepKeeps(s, run[0].step, run[0].now);
      PairedKeyKept(s, run[0].step, run[0].now, user, request, key, token);
      PairedForever(Next(s, run[0].step, run[0].now).0, run[1..], t, user, request, key, token);
    }
  }

  lemma IssuedIsPaired(s: Tables, user: nat, request: nat, key: Secret, token: Secret, expires: int, now: int)
    requires request !in s.devices && AfterPair(s, user, request, key, token, expires, now).1 == Ok
    ensures Paired(AfterPair(s, user, request, key, token, expires, now).0, user, request, key, token)
  {
  }

  // Once anything about the session of a pairing has changed, its credentials are never issued again.
  lemma ChangedSessionIsNotReissued(s: Tables, user: nat, request: nat, key: Secret, token: Secret, expires: int, now: int,
                                    run: seq<Event>, t: Tables, rest: seq<Event>, v: Tables, later: int)
    requires Inv(s) && s.clock <= now && request !in s.devices
    requires AfterPair(s, user, request, key, token, expires, now).1 == Ok
    requires Reaches(AfterPair(s, user, request, key, token, expires, now).0, run, t) && Reaches(t, rest, v)
    requires request in t.devices && Changed(t, request, key, token)
    ensures AfterPair(v, user, request, key, token, expires, later) == (v, Conflict)
  {
    var next := AfterPair(s, user, request, key, token, expires, now).0;
    PairKeeps(s, user, request, key, token, expires, now);
    IssuedIsPaired(s, user, request, key, token, expires, now);
    PairedForever(next, run, t, user, request, key, token);
    RunKeeps(next, run, t);
    PairedForever(t, rest, v, user, request, key, token);
    RunKeeps(t, rest, v);
    ChangedStays(t, v, user, request, key, token);
  }

  // And after any run in which nothing has, they are, until the token expires; that changes nothing.
  lemma ReissuedIffUnchanged(s: Tables, user: nat, request: nat, key: Secret, token: Secret, expires: int, now: int,
                             run: seq<Event>, t: Tables, later: int)
    requires Inv(s) && s.clock <= now && request !in s.devices
    requires AfterPair(s, user, request, key, token, expires, now).1 == Ok
    requires Reaches(AfterPair(s, user, request, key, token, expires, now).0, run, t)
    ensures request in t.devices && token in t.tokens
    ensures AfterPair(t, user, request, key, token, expires, later).1 == Ok <==>
      !Changed(t, request, key, token) && later < t.tokens[token].expires
    ensures AfterPair(t, user, request, key, token, expires, later).0 == t
  {
    var next := AfterPair(s, user, request, key, token, expires, now).0;
    PairKeeps(s, user, request, key, token, expires, now);
    IssuedIsPaired(s, user, request, key, token, expires, now);
    PairedForever(next, run, t, user, request, key, token);
  }

  // ------------------------------------------------------------------ the first state

  // Tables without devices satisfy everything, if no user was revoked in the future.
  lemma StartInv(s: Tables)
    requires s.devices == map[] && s.tokens == map[]
    requires forall u :: u in s.users ==> NotAfter(s.users[u].sessionsRevokedAt, s.clock)
    ensures Inv(s)
  {
  }

  // So every run from there satisfies everything.
  lemma EveryRunKeeps(s: Tables, run: seq<Event>, t: Tables)
    requires s.devices == map[] && s.tokens == map[]
    requires forall u :: u in s.users ==> NotAfter(s.users[u].sessionsRevokedAt, s.clock)
    requires Reaches(s, run, t)
    ensures Inv(t) && Later(s, t)
  {
    StartInv(s);
    RunKeeps(s, run, t);
  }
}
