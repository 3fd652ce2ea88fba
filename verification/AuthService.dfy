/** The service methods themselves (internal/core/service/auth.go and
    RevokeDevice of internal/core/service/user.go) over the tracker, the rate
    limiter, the token stores and the device tables. Answers of code outside
    the model come in as parameters: the user lookup, the password comparison
    and the check of a token's signature and expiry. */
module AuthService {
  import opened Wrappers
  import opened TokenStore
  import opened Sessions
  import Tracker = RedisAttemptTracker
  import Limiter = RedisRateLimiter

  datatype Error =
    | RateLimitExceeded | InvalidCredentials | UserDeleted | UserInactive | AccountLockedOut
    | TokenInvalid | TokenRevoked | UserDeviceNotFound
    | UserNotFound | Other(code: string)

  datatype User = User(uid: nat, key: string, deleted: bool, active: bool)

  datatype Kind = AccessKind | RefreshKind

  datatype Token = Token(claims: Claims, kind: Kind)

  datatype Payload = Payload(ip: Option<string>, fingerprint: Option<string>, deviceName: Option<string>, override: Option<Option<nat>>)

  function ParamsOf(user: User, p: Payload): LoginParams {
    LoginParams(user.uid, if p.deviceName.Some? then p.fingerprint else None, p.override)
  }

  class AuthService {
    const ttl: TTL
    const tracker: Tracker.RedisAttemptTracker
    const limiter: Limiter.RedisRateLimiter
    const white: TokenStore
    const black: TokenStore
    var devices: map<string, nat>
    var rows: map<(nat, nat), Row>
    var nextSid: nat
    var nextDevice: nat

    ghost predicate Valid() {
      white != black && white.ttl == ttl.white && black.ttl == ttl.black
    }

    ghost function Current(): Model
      reads this, white, black
    {
      Model(white.entries, black.entries, devices, rows, nextSid, nextDevice)
    }

    constructor (ttl: TTL, tracker: Tracker.RedisAttemptTracker, limiter: Limiter.RedisRateLimiter)
      ensures Valid() && this.ttl == ttl && this.tracker == tracker && this.limiter == limiter
      ensures Current() == START.m
      ensures fresh(white) && fresh(black)
    {
      this.ttl, this.tracker, this.limiter := ttl, tracker, limiter;
      white := new TokenStore(ttl.white);
      black := new TokenStore(ttl.black);
      devices, rows, nextSid, nextDevice := map[], map[], 0, 0;
    }

    method NewSid() returns (sid: nat)
      modifies this`nextSid
      ensures sid == old(nextSid) && nextSid == sid + 1
    {
      sid := nextSid;
      nextSid := nextSid + 1;
    }

    method FindOrCreateDevice(fingerprint: string) returns (device: nat)
      modifies this`devices, this`nextDevice
      ensures (Current(), device) == Sessions.FindOrCreateDevice(old(Current()), fingerprint)
    {
      if fingerprint in devices {
        return devices[fingerprint];
      }
      device := nextDevice;
      devices, nextDevice := devices[fingerprint := device], nextDevice + 1;
    }

    method FindOrCreateUserDevice(uid: nat, device: nat, sid: nat)
      modifies this`rows
      ensures Current() == Sessions.FindOrCreateUserDevice(old(Current()), uid, device, sid)
    {
      if (uid, device) !in rows {
        rows := rows[(uid, device) := Row(sid, None)];
      } else {
        UpdateSessionID(uid, device, sid);
      }
    }

    method UpdateSessionID(uid: nat, device: nat, sid: nat)
      modifies this`rows
      ensures Current() == Sessions.UpdateSessionID(old(Current()), uid, device, sid)
    {
      if (uid, device) in rows {
        rows := rows[(uid, device) := rows[(uid, device)].(sessionID := sid)];
      }
    }

    /** `matches` is the password comparison, `member` the limiter's fresh name. */
    method Authenticate(now: int, payload: Payload, lookup: Result<User, Error>, matches: bool, member: string)
      returns (r: Result<Claims, Error>)
      requires Valid()
      modifies this, tracker, limiter, white
      ensures var limited := payload.ip.Some? && payload.ip.value != "" &&
                !Limiter.Allowed(limiter.limit, limiter.window, old(limiter.SlotOf(payload.ip.value)), now);
        var known := !limited && lookup.Ok?;
        var usable := known && !lookup.value.deleted && lookup.value.active;
        var locked := usable && Tracker.Locked(old(tracker.KeysOf(lookup.value.key)), now);
        var tried := usable && !locked;
        && (limited ==> r == Err(RateLimitExceeded))
        && (!limited && lookup.Err? ==> r == Err(if lookup.error == UserNotFound then InvalidCredentials else lookup.error))
        && (known && lookup.value.deleted ==> r == Err(UserDeleted))
        && (known && !lookup.value.deleted && !lookup.value.active ==> r == Err(UserInactive))
        && (locked ==> r == Err(AccountLockedOut))
        && (tried && !matches ==> r == Err(InvalidCredentials))
        && (tried && !matches ==> tracker.KeysOf(lookup.value.key) == Tracker.Tracked(tracker.cfg, old(tracker.KeysOf(lookup.value.key)), now))
        && (tried && matches ==> tracker.KeysOf(lookup.value.key) == Tracker.NO_KEYS)
        && (tried && matches ==> r.Ok? && (Current(), r.value) == LoggedIn(ttl, old(Current()), ParamsOf(lookup.value, payload), now))
        && (if tried then tracker.OthersAs(lookup.value.key, old(tracker.counters), old(tracker.locks)) else unchanged(tracker))
        && (r.Err? ==> Current() == old(Current()))
      ensures payload.ip.Some? && payload.ip.value != "" ==>
        limiter.SlotOf(payload.ip.value)
        == Limiter.Scripted(limiter.limit, limiter.window, old(limiter.SlotOf(payload.ip.value)), now, member)
      ensures payload.ip.None? || payload.ip.value == "" ==> unchanged(limiter)
    {
      if payload.ip.Some? && payload.ip.value != "" {
        var allowed := limiter.Acquire(payload.ip.value, now, member);
        if !allowed {
          return Err(RateLimitExceeded);
        }
      }
      if lookup.Err? {
        return Err(if lookup.error == UserNotFound then InvalidCredentials else lookup.error);
      }
      var user := lookup.value;
      if user.deleted {
        return Err(UserDeleted);
      }
      if !user.active {
        return Err(UserInactive);
      }
      var locked := tracker.IsLocked(user.key, now);
      if locked {
        return Err(AccountLockedOut);
      }
      if !matches {
        var _ := tracker.Track(user.key, now);
        return Err(InvalidCredentials);
      }
      tracker.Reset(user.key);
      var sid := NewSid();
      var device := None;
      if payload.fingerprint.Some? && payload.deviceName.Some? {
        var d := FindOrCreateDevice(payload.fingerprint.value);
        FindOrCreateUserDevice(user.uid, d, sid);
        device := Some(d);
      }
      var claim := if payload.override.Some? then payload.override.value else device;
      white.Add(Session(user.uid, sid), now);
      return Ok(Claims(Session(user.uid, sid), claim));
    }

    /** HandleGoogleOAuth once the user is found or created: neither the
        tracker nor the user's status is consulted. */
    method FinishOAuth(now: int, uid: nat) returns (c: Claims)
      requires Valid()
      modifies this, white
      ensures (Current(), c) == LoggedIn(ttl, old(Current()), LoginParams(uid, None, None), now)
    {
      var sid := NewSid();
      white.Add(Session(uid, sid), now);
      c := Claims(Session(uid, sid), None);
    }

    method RefreshToken(now: int, parsed: Result<Token, Error>, lookup: Result<User, Error>) returns (r: Result<Claims, Error>)
      requires Valid()
      requires parsed.Ok? && lookup.Ok? ==> lookup.value.uid == parsed.value.claims.session.uid
      modifies this, white
      ensures parsed.Err? ==> r == Err(parsed.error)
      ensures parsed.Ok? && parsed.value.kind != RefreshKind ==> r == Err(TokenInvalid)
      ensures parsed.Ok? && parsed.value.kind == RefreshKind && !Refreshable(old(Current()), parsed.value.claims, now) ==> r == Err(TokenRevoked)
      ensures parsed.Ok? && parsed.value.kind == RefreshKind && Refreshable(old(Current()), parsed.value.claims, now) ==>
        if lookup.Err? then r == Err(if lookup.error == UserNotFound then TokenInvalid else lookup.error)
        else if lookup.value.deleted then r == Err(UserDeleted)
        else if !lookup.value.active then r == Err(UserInactive)
        else r.Ok? && (Current(), r.value) == Refreshed(ttl, old(Current()), parsed.value.claims, now)
      ensures r.Err? ==> Current() == old(Current())
    {
      if parsed.Err? {
        return Err(parsed.error);
      }
      if parsed.value.kind != RefreshKind {
        return Err(TokenInvalid);
      }
      var claims := parsed.value.claims;
      var allowed := white.Exists(claims.session, now);
      if !allowed {
        return Err(TokenRevoked);
      }
      if lookup.Err? {
        return Err(if lookup.error == UserNotFound then TokenInvalid else lookup.error);
      }
      if lookup.value.deleted {
        return Err(UserDeleted);
      }
      if !lookup.value.active {
        return Err(UserInactive);
      }
      var sid := NewSid();
      if claims.device.Some? && claims.device.value in devices.Values {
        UpdateSessionID(lookup.value.uid, claims.device.value, sid);
      }
      var next := Session(claims.session.uid, sid);
      white.Add(next, now);
      white.Remove(claims.session);
      return Ok(Claims(next, claims.device));
    }

    method ValidateToken(now: int, parsed: Result<Token, Error>) returns (r: Result<Claims, Error>)
      requires Valid()
      ensures parsed.Err? ==> r == Err(parsed.error)
      ensures parsed.Ok? && parsed.value.kind != AccessKind ==> r == Err(TokenInvalid)
      ensures parsed.Ok? && parsed.value.kind == AccessKind ==>
        r == if Sessions.Valid(Current(), parsed.value.claims, now) then Ok(parsed.value.claims) else Err(TokenRevoked)
    {
      if parsed.Err? {
        return Err(parsed.error);
      }
      if parsed.value.kind != AccessKind {
        return Err(TokenInvalid);
      }
      var claims := parsed.value.claims;
      var allowed := white.Exists(claims.session, now);
      if !allowed {
        return Err(TokenRevoked);
      }
      var blacklisted := black.Exists(claims.session, now);
      if blacklisted {
        return Err(TokenRevoked);
      }
      return Ok(claims);
    }

    method RevokeToken(now: int, parsed: Result<Token, Error>) returns (r: Result<(), Error>)
      requires Valid()
      modifies white, black
      ensures parsed.Err? ==> r == Err(parsed.error) && Current() == old(Current())
      ensures parsed.Ok? ==> r == Ok(()) && Current() == RevokedToken(ttl, old(Current()), parsed.value.claims, now)
    {
      if parsed.Err? {
        return Err(parsed.error);
      }
      white.Remove(parsed.value.claims.session);
      black.Add(parsed.value.claims.session, now);
      return Ok(());
    }

    method RevokeDevice(now: int, user: Result<User, Error>, device: Result<nat, Error>) returns (r: Result<(), Error>)
      requires Valid()
      modifies this`rows, white
      ensures user.Err? ==> r == Err(user.error)
      ensures user.Ok? && device.Err? ==> r == Err(device.error)
      ensures user.Ok? && device.Ok? && (user.value.uid, device.value) !in old(rows) ==> r == Err(UserDeviceNotFound)
      ensures user.Ok? && device.Ok? && (user.value.uid, device.value) in old(rows) ==>
        r == Ok(()) && Current() == RevokedDevice(old(Current()), user.value.uid, device.value, now)
      ensures r.Err? ==> Current() == old(Current())
    {
      if user.Err? {
        return Err(user.error);
      }
      if device.Err? {
        return Err(device.error);
      }
      var key := (user.value.uid, device.value);
      if key !in rows {
        return Err(UserDeviceNotFound);
      }
      white.Remove(Session(user.value.uid, rows[key].sessionID));
      rows := rows[key := rows[key].(revokedAt := Some(now))];
      return Ok(());
    }
  }
}
