/** The racing calls of Revocation and the operations of Sessions are the same
    code: the steps of one call, with nothing in between, do to the stores
    what the operation does, and answer alike. */
module SessionSteps {
  import opened Wrappers
  import opened TokenStore
  import R = Revocation
  import S = Sessions

  /** Both models see the same stores. */
  ghost predicate Same(s: R.State, m: S.Model) {
    s.white == m.white && s.black == m.black && s.nextSid == m.nextSid
  }

  function TTLOf(c: R.Config): S.TTL {
    S.TTL(c.whiteTTL, c.blackTTL)
  }

  /** Where steps lead from s; None if one is not enabled. */
  function Play(c: R.Config, s: R.State, steps: seq<R.Step>): Option<R.State>
    decreases |steps|
  {
    if steps == [] then Some(s)
    else if R.Enabled(s, steps[0]) then Play(c, R.Apply(c, s, steps[0]), steps[1..]) else None
  }

  lemma PlayOne(c: R.Config, s: R.State, step: R.Step)
    requires R.Enabled(s, step)
    ensures Play(c, s, [step]) == Some(R.Apply(c, s, step))
  {
    assert Play(c, R.Apply(c, s, step), []) == Some(R.Apply(c, s, step));
  }

  lemma PlayMore(c: R.Config, s: R.State, step: R.Step, rest: seq<R.Step>)
    requires R.Enabled(s, step)
    ensures Play(c, s, [step] + rest) == Play(c, R.Apply(c, s, step), rest)
  {
    assert ([step] + rest)[1..] == rest;
  }

  /** Authenticate or HandleGoogleOAuth. */
  lemma LoginIsItsSteps(c: R.Config, s: R.State, m: S.Model, id: nat, p: S.LoginParams)
    requires Same(s, m) && id !in s.calls
    ensures var end := Play(c, s, [R.Login(id, p.uid), R.Advance(id)]);
      var (m', claims) := S.LoggedIn(TTLOf(c), m, p, s.now);
      && end.Some? && Same(end.value, m')
      && end.value.calls == s.calls[id := R.Issued(claims.session)] && end.value.issued == s.issued + {claims.session}
  {
    var s1 := R.Apply(c, s, R.Login(id, p.uid));
    assert [R.Login(id, p.uid), R.Advance(id)] == [R.Login(id, p.uid)] + [R.Advance(id)];
    PlayMore(c, s, R.Login(id, p.uid), [R.Advance(id)]);
    PlayOne(c, s1, R.Advance(id));
    LoginStores(TTLOf(c), m, p, s.now);
  }

  lemma LoginStores(ttl: S.TTL, m: S.Model, p: S.LoginParams, now: int)
    ensures var (m', claims) := S.LoggedIn(ttl, m, p, now);
      && claims.session == Session(p.uid, m.nextSid) && m'.nextSid == m.nextSid + 1
      && m'.white == m.white[claims.session := now + ttl.white] && m'.black == m.black
  {
  }

  function RefreshSteps(id: nat, t: Session, allowed: bool): seq<R.Step> {
    [R.Refresh(id, t), R.Advance(id)] + if allowed then [R.Advance(id), R.Advance(id), R.Advance(id)] else []
  }

  lemma RefreshTail(c: R.Config, s: R.State, id: nat, t: Session)
    requires id in s.calls && s.calls[id] == R.RefreshGenerate(t)
    ensures var end := Play(c, s, [R.Advance(id), R.Advance(id), R.Advance(id)]); var next := Session(t.uid, s.nextSid);
      && end.Some? && end.value.white == s.white[next := s.now + c.whiteTTL] - {t} && end.value.black == s.black
      && end.value.nextSid == s.nextSid + 1
      && end.value.calls == s.calls[id := R.Issued(next)] && end.value.issued == s.issued + {next}
  {
    var s1 := R.Apply(c, s, R.Advance(id));
    var s2 := R.Apply(c, s1, R.Advance(id));
    assert [R.Advance(id), R.Advance(id), R.Advance(id)] == [R.Advance(id)] + ([R.Advance(id)] + [R.Advance(id)]);
    PlayMore(c, s, R.Advance(id), [R.Advance(id)] + [R.Advance(id)]);
    PlayMore(c, s1, R.Advance(id), [R.Advance(id)]);
    PlayOne(c, s2, R.Advance(id));
  }

  lemma RefreshStores(ttl: S.TTL, m: S.Model, claims: S.Claims, now: int)
    ensures var (m', next) := S.Refreshed(ttl, m, claims, now);
      && next.session == Session(claims.session.uid, m.nextSid) && m'.nextSid == m.nextSid + 1
      && m'.white == m.white[next.session := now + ttl.white] - {claims.session} && m'.black == m.black
  {
  }

  lemma RefreshHead(c: R.Config, s: R.State, id: nat, t: Session, rest: seq<R.Step>)
    requires id !in s.calls && t in s.issued
    ensures Play(c, s, [R.Refresh(id, t), R.Advance(id)] + rest)
         == Play(c, s.(calls := s.calls[id := if Holds(s.white, t, s.now) then R.RefreshGenerate(t) else R.Refused]), rest)
  {
    var s1 := R.Apply(c, s, R.Refresh(id, t));
    assert [R.Refresh(id, t), R.Advance(id)] + rest == [R.Refresh(id, t)] + ([R.Advance(id)] + rest);
    PlayMore(c, s, R.Refresh(id, t), [R.Advance(id)] + rest);
    PlayMore(c, s1, R.Advance(id), rest);
    assert R.Apply(c, s1, R.Advance(id)) == s.(calls := s.calls[id := if Holds(s.white, t, s.now) then R.RefreshGenerate(t) else R.Refused]);
  }

  /** RefreshToken of a whitelisted session. */
  lemma RefreshIsItsSteps(c: R.Config, s: R.State, m: S.Model, id: nat, claims: S.Claims)
    requires Same(s, m) && id !in s.calls && claims.session in s.issued && S.Refreshable(m, claims, s.now)
    ensures var end := Play(c, s, RefreshSteps(id, claims.session, true));
      var (m', next) := S.Refreshed(TTLOf(c), m, claims, s.now);
      && end.Some? && Same(end.value, m')
      && end.value.calls == s.calls[id := R.Issued(next.session)] && end.value.issued == s.issued + {next.session}
  {
    var t := claims.session;
    RefreshStores(TTLOf(c), m, claims, s.now);
    RefreshHead(c, s, id, t, [R.Advance(id), R.Advance(id), R.Advance(id)]);
    RefreshTail(c, s.(calls := s.calls[id := R.RefreshGenerate(t)]), id, t);
  }

  /** RefreshToken of any other session is refused and changes nothing. */
  lemma RefusalIsItsSteps(c: R.Config, s: R.State, m: S.Model, id: nat, claims: S.Claims)
    requires Same(s, m) && id !in s.calls && claims.session in s.issued && !S.Refreshable(m, claims, s.now)
    ensures Play(c, s, RefreshSteps(id, claims.session, false)) == Some(s.(calls := s.calls[id := R.Refused]))
  {
    RefreshHead(c, s, id, claims.session, []);
  }

  function ValidateSteps(id: nat, t: Session, listed: bool): seq<R.Step> {
    [R.Validate(id, t), R.Advance(id)] + if listed then [R.Advance(id)] else []
  }

  /** ValidateToken: the blacklist is asked only if the whitelist agreed. */
  lemma ValidateIsItsSteps(c: R.Config, s: R.State, m: S.Model, id: nat, claims: S.Claims)
    requires Same(s, m) && id !in s.calls && claims.session in s.issued
    ensures var end := Play(c, s, ValidateSteps(id, claims.session, Holds(m.white, claims.session, s.now)));
      && end.Some? && Same(end.value, m) && end.value.issued == s.issued
      && end.value.calls == s.calls[id := if S.Valid(m, claims, s.now) then R.Accepted(claims.session) else R.Refused]
  {
    var t := claims.session;
    var s1 := R.Apply(c, s, R.Validate(id, t));
    var s2 := R.Apply(c, s1, R.Advance(id));
    if Holds(m.white, t, s.now) {
      assert ValidateSteps(id, t, true) == [R.Validate(id, t)] + ([R.Advance(id)] + [R.Advance(id)]);
      PlayMore(c, s, R.Validate(id, t), [R.Advance(id)] + [R.Advance(id)]);
      PlayMore(c, s1, R.Advance(id), [R.Advance(id)]);
      PlayOne(c, s2, R.Advance(id));
    } else {
      assert ValidateSteps(id, t, false) == [R.Validate(id, t)] + [R.Advance(id)];
      PlayMore(c, s, R.Validate(id, t), [R.Advance(id)]);
      PlayOne(c, s1, R.Advance(id));
    }
  }

  /** RevokeToken. */
  lemma RevokeIsItsSteps(c: R.Config, s: R.State, m: S.Model, id: nat, claims: S.Claims)
    requires Same(s, m) && id !in s.calls && claims.session in s.issued
    ensures var end := Play(c, s, [R.Revoke(id, claims.session), R.Advance(id), R.Advance(id)]);
      && end.Some? && Same(end.value, S.RevokedToken(TTLOf(c), m, claims, s.now)) && end.value.issued == s.issued
      && end.value.calls == s.calls[id := R.Revoked(claims.session)]
  {
    var t := claims.session;
    var s1 := R.Apply(c, s, R.Revoke(id, t));
    var s2 := R.Apply(c, s1, R.Advance(id));
    assert [R.Revoke(id, t), R.Advance(id), R.Advance(id)] == [R.Revoke(id, t)] + ([R.Advance(id)] + [R.Advance(id)]);
    PlayMore(c, s, R.Revoke(id, t), [R.Advance(id)] + [R.Advance(id)]);
    PlayMore(c, s1, R.Advance(id), [R.Advance(id)]);
    PlayOne(c, s2, R.Advance(id));
  }

  /** RevokeDevice, on the whitelist. */
  lemma RevokeDeviceIsItsStep(c: R.Config, s: R.State, m: S.Model, uid: nat, d: nat)
    requires Same(s, m) && (uid, d) in m.rows
    ensures Same(R.Apply(c, s, R.RemoveDevice(Session(uid, m.rows[(uid, d)].sessionID))), S.RevokedDevice(m, uid, d, s.now))
  {
  }
}
