// Devices, refresh tokens and access tokens: login, rotation and revocation under a
// clock that never runs backwards.  Token strings are symbolic.
module Sessions {
  import opened KeyTree

  // A refresh token as the client holds it: a fresh random one, or derived for a pairing.
  datatype Secret = Random(n: nat) | Derived(user: nat, request: nat, operation: nat, poll: nat)

  datatype User = User(suspended: bool, sessionsRevokedAt: Option<int>)

  datatype Device = Device(user: nat, key: Secret, revokedAt: Option<int>, tokensRevokedAt: Option<int>)

  datatype Token = Token(user: nat, device: nat, revokedAt: Option<int>, replacedBy: Option<Secret>, expires: int)

  // Tables by primary key, tokens by their string, and the time of the last change. Times count
  // microseconds; an access token carries its time of issue rounded down to a millisecond.
  datatype Tables = Tables(users: map<nat, User>, devices: map<nat, Device>, tokens: map<Secret, Token>, clock: int)

  datatype Access = Access(user: nat, device: nat, issuedAt: int)

  // ------------------------------------------------------------------ repositories/users.py

  function Revoked(t: Token, device: nat, now: int): Token
  {
    if t.device == device && t.revokedAt.None? then t.(revokedAt := Some(now)) else t
  }

  function RevokeTokens(s: Tables, device: nat, now: int): Tables
  {
    s.(tokens := map x | x in s.tokens :: Revoked(s.tokens[x], device, now), clock := now)
  }

  function RevokeDevice(s: Tables, device: nat, now: int): Tables
  {
    var r := RevokeTokens(s, device, now);
    if device in s.devices then r.(devices := s.devices[device := s.devices[device].(revokedAt := Some(now))]) else r
  }

  predicate IsActive(s: Tables, user: nat, device: nat)
  {
    device in s.devices && s.devices[device].user == user && s.devices[device].revokedAt.None?
  }

  // Devices of one user, and the tokens that the user has on them.
  function RevokeMany(s: Tables, user: nat, devices: set<nat>, now: int): Tables
  {
    s.(devices := map d | d in s.devices ::
         if d in devices then s.devices[d].(revokedAt := Some(now)) else s.devices[d],
       tokens := map x | x in s.tokens ::
         if s.tokens[x].user == user && s.tokens[x].device in devices then Revoked(s.tokens[x], s.tokens[x].device, now) else s.tokens[x],
       clock := now)
  }

  function ActiveDevices(s: Tables, user: nat): set<nat>
  {
    set d | d in s.devices && IsActive(s, user, d)
  }

  // ------------------------------------------------------------------ services/auth_service.py

  datatype Step =
    | Login(user: nat, known: Option<nat>, device: nat, key: Secret, token: Secret, expires: int)
    | Refresh(token: Secret, newToken: Secret, expires: int)
    | Logout(user: nat, device: nat, preserveLast: bool)
    | LogoutAll(user: nat, current: nat)
    | RevokeAll(user: nat)
    | Pair(user: nat, request: nat, key: Secret, token: Secret, expires: int)

  datatype Outcome = Ok | Unauthorized | NotFound | Conflict

  function AddToken(s: Tables, token: Secret, user: nat, device: nat, expires: int): Tables
  {
    s.(tokens := s.tokens[token := Token(user, device, None, None, expires)])
  }

  // known is the device of the user that presented its key, if there is one.
  function AfterLogin(s: Tables, user: nat, known: Option<nat>, device: nat, key: Secret, token: Secret, expires: int,
                      now: int): Tables
  {
    if known.Some? && known.value in s.devices && s.devices[known.value].user == user then
      var d := s.devices[known.value];
      var revived := if d.revokedAt.Some? then d.(tokensRevokedAt := d.revokedAt, revokedAt := None) else d;
      var r := RevokeTokens(s, known.value, now);
      AddToken(r.(devices := s.devices[known.value := revived.(key := key)]), token, user, known.value, expires)
    else
      AddToken(s.(devices := s.devices[device := Device(user, key, None, None)], clock := now), token, user, device, expires)
  }

  function AfterRefresh(s: Tables, token: Secret, newToken: Secret, expires: int, now: int): (Tables, Outcome)
  {
    if token !in s.tokens then (s, Unauthorized)
    else
      var t := s.tokens[token];
      if t.revokedAt.Some? then
        if t.replacedBy.Some? then (RevokeDevice(s, t.device, now), Unauthorized) else (s, Unauthorized)
      else if t.expires < now then (s, Unauthorized)
      else if t.user !in s.users || s.users[t.user].suspended || t.device !in s.devices ||
        s.devices[t.device].revokedAt.Some? then (s, Unauthorized)
      else
        var added := AddToken(s.(clock := now), newToken, t.user, t.device, expires);
        (added.(tokens := added.tokens[token := t.(revokedAt := Some(now), replacedBy := Some(newToken))]), Ok)
  }

  function AfterLogout(s: Tables, user: nat, device: nat, preserveLast: bool, now: int): (Tables, Outcome)
  {
    if device !in ActiveDevices(s, user) then (s, NotFound)
    else if preserveLast && |ActiveDevices(s, user)| <= 1 then (s, Conflict)
    else (RevokeDevice(s, device, now), Ok)
  }

  function AfterLogoutAll(s: Tables, user: nat, current: nat, now: int): (Tables, Outcome)
  {
    if current !in ActiveDevices(s, user) then (s, Unauthorized)
    else (RevokeMany(s, user, ActiveDevices(s, user) - {current}, now), Ok)
  }

  // The tokens of every device of the user go, also those of devices that are revoked already.
  function AfterRevokeAll(s: Tables, user: nat, now: int): Tables
  {
    var r := RevokeMany(s, user, ActiveDevices(s, user), now);
    var tokens := map x | x in r.tokens ::
      if r.tokens[x].user == user then Revoked(r.tokens[x], r.tokens[x].device, now) else r.tokens[x];
    if user in s.users then r.(tokens := tokens, users := s.users[user := s.users[user].(sessionsRevokedAt := Some(now))])
    else r.(tokens := tokens)
  }

  // A rotated or revoked session is never issued again.
  function AfterPair(s: Tables, user: nat, request: nat, key: Secret, token: Secret, expires: int, now: int): (Tables, Outcome)
  {
    if request !in s.devices then
      if token in s.tokens then (s, Conflict)
      else (AddToken(s.(devices := s.devices[request := Device(user, key, None, None)], clock := now),
                     token, user, request, expires), Ok)
    else
      var d := s.devices[request];
      if d.user != user || d.revokedAt.Some? || d.tokensRevokedAt.Some? || d.key != key ||
        token !in s.tokens || s.tokens[token].revokedAt.Some? || s.tokens[token].expires <= now then (s, Conflict)
      else (s, Ok)
  }

  function Next(s: Tables, step: Step, now: int): (Tables, Outcome)
  {
    match step
    case Login(user, known, device, key, token, expires) => (AfterLogin(s, user, known, device, key, token, expires, now), Ok)
    case Refresh(token, newToken, expires) => AfterRefresh(s, token, newToken, expires, now)
    case Logout(user, device, preserveLast) => AfterLogout(s, user, device, preserveLast, now)
    case LogoutAll(user, current) => AfterLogoutAll(s, user, current, now)
    case RevokeAll(user) => (AfterRevokeAll(s, user, now), Ok)
    case Pair(user, request, key, token, expires) => AfterPair(s, user, request, key, token, expires, now)
  }

  // Random identifiers are new.
  predicate Enabled(s: Tables, step: Step, now: int)
  {
    s.clock <= now &&
    match step
    case Login(_, _, device, _, token, _) => device !in s.devices && token !in s.tokens
    case Refresh(_, newToken, _) => newToken !in s.tokens
    case _ => true
  }

  // ------------------------------------------------------------------ authenticate

  predicate IssuedBefore(issuedAt: int, revokedAt: Option<int>)
  {
    revokedAt.Some? && issuedAt <= revokedAt.value
  }

  // Rejected because something was revoked after the token was issued.
  predicate IsRevoked(s: Tables, c: Access)
  {
    (c.user in s.users && IssuedBefore(c.issuedAt, s.users[c.user].sessionsRevokedAt)) ||
    (c.device in s.devices &&
     (IssuedBefore(c.issuedAt, s.devices[c.device].revokedAt) || IssuedBefore(c.issuedAt, s.devices[c.device].tokensRevokedAt)))
  }

  predicate Authenticates(s: Tables, c: Access)
  {
    c.user in s.users && !s.users[c.user].suspended && c.device in s.devices && !IsRevoked(s, c)
  }

  // ------------------------------------------------------------------ what every state satisfies

  predicate Usable(s: Tables, x: Secret, device: nat)
  {
    x in s.tokens && s.tokens[x].device == device && s.tokens[x].revokedAt.None?
  }

  ghost predicate NoToken(s: Tables, device: nat)
  {
    forall x :: !Usable(s, x, device)
  }

  predicate NotAfter(t: Option<int>, now: int)
  {
    t.Some? ==> t.value <= now
  }

  ghost predicate DeviceOk(s: Tables, d: nat)
    requires d in s.devices
  {
    DeviceTimes(s.devices[d], s.clock)
  }

  // A revocation is never older than the one that a re-login has left behind.
  predicate DeviceTimes(d: Device, clock: int)
  {
    NotAfter(d.revokedAt, clock) && NotAfter(d.tokensRevokedAt, clock) &&
    (d.revokedAt.Some? && d.tokensRevokedAt.Some? ==> d.tokensRevokedAt.value <= d.revokedAt.value)
  }

  ghost predicate TokenOk(s: Tables, x: Secret)
    requires x in s.tokens
  {
    var t := s.tokens[x];
    t.device in s.devices && s.devices[t.device].user == t.user && (t.replacedBy.Some? ==> t.revokedAt.Some?) &&
    (t.revokedAt.None? ==> s.devices[t.device].revokedAt.None?)
  }

  ghost predicate OneEach(s: Tables)
  {
    forall x, y, d :: Usable(s, x, d) && Usable(s, y, d) ==> x == y
  }

  // No revocation lies in the future; a device has at most one usable refresh token, a revoked one
  // has none; and an exchanged token is revoked.
  ghost predicate Inv(s: Tables)
  {
    (forall u :: u in s.users ==> NotAfter(s.users[u].sessionsRevokedAt, s.clock)) &&
    (forall d {:trigger DeviceOk(s, d)} :: d in s.devices ==> DeviceOk(s, d)) &&
    (forall x {:trigger TokenOk(s, x)} :: x in s.tokens ==> TokenOk(s, x)) &&
    OneEach(s)
  }
}
