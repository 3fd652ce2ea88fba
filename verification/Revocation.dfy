/** Logins, refreshes, validations and revocations racing on the token stores
    (internal/core/service/auth.go), one store operation at a time. */
module Revocation {
  import opened Wrappers
  import opened TokenStore

  /** Where a service call stands; each constructor names the operation that
      comes next. Everything a call does between two store operations is part
      of the step before. */
  datatype Call =
    | LoginAdd(s: Session)                        // sid generated, tokens signed, not yet returned
    | RefreshCheck(s: Session)
    | RefreshGenerate(s: Session)
    | RefreshAdd(s: Session, next: Session)
    | RefreshRemove(s: Session, next: Session)
    | ValidateWhitelist(s: Session)
    | ValidateBlacklist(s: Session)
    | RevokeRemove(s: Session)
    | RevokeAdd(s: Session)
    | Issued(s: Session)                          // login or refresh returned tokens of s
    | Accepted(s: Session)                        // validation returned the claims
    | Revoked(s: Session)                         // RevokeToken returned nil
    | Refused                                     // the call returned an error

  /** `issued` are the sessions whose tokens some caller holds. `makers`
      records the call that generated each session id, and `removed` the
      sessions RevokeToken took off the whitelist. */
  datatype State = State(now: int, white: Store, black: Store, calls: map<nat, Call>, nextSid: nat,
                         issued: set<Session>, makers: map<nat, nat>, removed: set<Session>)

  datatype Config = Config(whiteTTL: nat, blackTTL: nat)

  datatype Step =
    | Tick(d: nat)
    | Login(id: nat, uid: nat)             // Authenticate or HandleGoogleOAuth, up to the whitelist
    | Refresh(id: nat, s: Session)         // RefreshToken with a refresh token of s
    | Validate(id: nat, s: Session)        // ValidateToken with an access token of s
    | Revoke(id: nat, s: Session)          // RevokeToken with either token of s
    | Advance(id: nat)                     // the next store operation of a call
    | SkipRemove(id: nat)                  // RefreshToken ignores a failing Remove
    | Fail(id: nat)                        // any error or inactive user ends the call
    | RemoveDevice(s: Session)             // RevokeDevice takes a session off the whitelist

  predicate Waiting(c: Call) {
    !(c.Issued? || c.Accepted? || c.Revoked? || c.Refused?)
  }

  function Init(t0: int): State {
    State(t0, map[], map[], map[], 0, {}, map[], {})
  }

  /** Tokens cannot be forged: a call presents tokens of an issued session. */
  predicate Enabled(s: State, step: Step) {
    match step
    case Tick(_) => true
    case Login(id, _) => id !in s.calls
    case Refresh(id, t) => id !in s.calls && t in s.issued
    case Validate(id, t) => id !in s.calls && t in s.issued
    case Revoke(id, t) => id !in s.calls && t in s.issued
    case Advance(id) => id in s.calls && Waiting(s.calls[id])
    case SkipRemove(id) => id in s.calls && s.calls[id].RefreshRemove?
    case Fail(id) => id in s.calls && Waiting(s.calls[id])
    case RemoveDevice(_) => true
  }

  function Advanced(c: Config, s: State, id: nat): State
    requires id in s.calls && Waiting(s.calls[id])
  {
    match s.calls[id]
    case LoginAdd(t) =>
      s.(white := s.white[t := s.now + c.whiteTTL], calls := s.calls[id := Issued(t)], issued := s.issued + {t})
    case RefreshCheck(t) =>
      s.(calls := s.calls[id := if Holds(s.white, t, s.now) then RefreshGenerate(t) else Refused])
    case RefreshGenerate(t) =>
      s.(calls := s.calls[id := RefreshAdd(t, Session(t.uid, s.nextSid))], nextSid := s.nextSid + 1, makers := s.makers[s.nextSid := id])
    case RefreshAdd(t, next) =>
      s.(white := s.white[next := s.now + c.whiteTTL], calls := s.calls[id := RefreshRemove(t, next)])
    case RefreshRemove(t, next) =>
      s.(white := s.white - {t}, calls := s.calls[id := Issued(next)], issued := s.issued + {next})
    case ValidateWhitelist(t) =>
      s.(calls := s.calls[id := if Holds(s.white, t, s.now) then ValidateBlacklist(t) else Refused])
    case ValidateBlacklist(t) =>
      s.(calls := s.calls[id := if Holds(s.black, t, s.now) then Refused else Accepted(t)])
    case RevokeRemove(t) =>
      s.(white := s.white - {t}, calls := s.calls[id := RevokeAdd(t)], removed := s.removed + {t})
    case RevokeAdd(t) =>
      s.(black := s.black[t := s.now + c.blackTTL], calls := s.calls[id := Revoked(t)])
  }

  function Apply(c: Config, s: State, step: Step): State
    requires Enabled(s, step)
  {
    match step
    case Tick(d) => s.(now := s.now + d)
    case Login(id, uid) =>
      s.(calls := s.calls[id := LoginAdd(Session(uid, s.nextSid))], nextSid := s.nextSid + 1, makers := s.makers[s.nextSid := id])
    case Refresh(id, t) => s.(calls := s.calls[id := RefreshCheck(t)])
    case Validate(id, t) => s.(calls := s.calls[id := ValidateWhitelist(t)])
    case Revoke(id, t) => s.(calls := s.calls[id := RevokeRemove(t)])
    case Advance(id) => Advanced(c, s, id)
    case SkipRemove(id) =>
      var next := s.calls[id].next;
      s.(calls := s.calls[id := Issued(next)], issued := s.issued + {next})
    case Fail(id) => s.(calls := s.calls[id := Refused])
    case RemoveDevice(t) => s.(white := s.white - {t})
  }

  /** Where a run ends; None if some step was not enabled. */
  function Run(c: Config, t0: int, steps: seq<Step>): Option<State> {
    if steps == [] then Some(Init(t0))
    else
      var before := Run(c, t0, steps[..|steps| - 1]);
      var step := steps[|steps| - 1];
      if before.Some? && Enabled(before.value, step) then Some(Apply(c, before.value, step)) else None
  }

  // The invariant.

  /** The session a call has made up but not handed out yet. */
  function Pending(c: Call): Option<Session> {
    match c
    case LoginAdd(s) => Some(s)
    case RefreshAdd(_, next) => Some(next)
    case RefreshRemove(_, next) => Some(next)
    case _ => None
  }

  /** A session in the making belongs to the call that generated its id; a
      revocation under way or finished concerns an issued session, and one past
      its Remove a removed session. */
  ghost predicate CallInv(s: State, id: nat)
    requires id in s.calls
  {
    var c := s.calls[id];
    && (Pending(c).Some? ==> Pending(c).value.sid in s.makers && s.makers[Pending(c).value.sid] == id)
    && (c.RevokeRemove? ==> c.s in s.issued)
    && (c.RevokeAdd? || c.Revoked? ==> c.s in s.removed)
  }

  /** The call that made an issued session has returned with it. */
  ghost predicate IssuedInv(s: State, t: Session) {
    t.sid in s.makers && s.makers[t.sid] in s.calls && s.calls[s.makers[t.sid]] == Issued(t)
  }

  ghost predicate Inv(s: State) {
    && (forall sid :: sid in s.makers ==> sid < s.nextSid)
    && (forall id :: id in s.calls ==> CallInv(s, id))
    && (forall t :: t in s.issued ==> IssuedInv(s, t))
    && s.removed <= s.issued
    && (forall t :: t in s.removed ==> t !in s.white)
  }

  /** A step that changes one waiting call, and issues at most the session that
      call was making. */
  lemma CallStepKeeps(s: State, s': State, id: nat)
    requires Inv(s) && id in s'.calls && s'.calls == s.calls[id := s'.calls[id]]
    requires id in s.calls ==> Waiting(s.calls[id])
    requires s.nextSid <= s'.nextSid && forall sid :: sid in s'.makers ==> sid < s'.nextSid
    requires forall sid :: sid in s.makers ==> sid in s'.makers && s'.makers[sid] == s.makers[sid]
    requires s.issued <= s'.issued && s.removed <= s'.removed && CallInv(s', id)
    requires forall t :: t in s'.issued && t !in s.issued ==> IssuedInv(s', t)
    ensures forall o :: o in s'.calls ==> CallInv(s', o)
    ensures forall t :: t in s'.issued ==> IssuedInv(s', t)
  {
  }

  lemma AddKeeps(c: Config, s: State, id: nat)
    requires Inv(s) && id in s.calls && (s.calls[id].LoginAdd? || s.calls[id].RefreshAdd?)
    ensures Inv(Advanced(c, s, id))
  {
  }

  lemma AdvanceKeeps(c: Config, s: State, id: nat)
    requires Inv(s) && id in s.calls && Waiting(s.calls[id])
    ensures Inv(Advanced(c, s, id)) && s.removed <= Advanced(c, s, id).removed
  {
    assert CallInv(s, id);
    if s.calls[id].LoginAdd? || s.calls[id].RefreshAdd? {
      AddKeeps(c, s, id);
    } else {
      CallStepKeeps(s, Advanced(c, s, id), id);
    }
  }

  lemma StepKeeps(c: Config, s: State, step: Step)
    requires Inv(s) && Enabled(s, step)
    ensures Inv(Apply(c, s, step)) && s.removed <= Apply(c, s, step).removed
  {
    var s' := Apply(c, s, step);
    match step
    case Advance(id) => AdvanceKeeps(c, s, id);
    case Tick(_) =>
      assert forall o :: o in s'.calls ==> CallInv(s, o) ==> CallInv(s', o);
      assert forall t :: t in s'.issued ==> IssuedInv(s, t) ==> IssuedInv(s', t);
    case RemoveDevice(_) =>
      assert forall o :: o in s'.calls ==> CallInv(s, o) ==> CallInv(s', o);
      assert forall t :: t in s'.issued ==> IssuedInv(s, t) ==> IssuedInv(s', t);
    case Login(id, _) => CallStepKeeps(s, s', id);
    case Refresh(id, _) => CallStepKeeps(s, s', id);
    case Validate(id, _) => CallStepKeeps(s, s', id);
    case Revoke(id, _) => CallStepKeeps(s, s', id);
    case SkipRemove(id) =>
      assert CallInv(s, id);
      CallStepKeeps(s, s', id);
    case Fail(id) => CallStepKeeps(s, s', id);
  }

  lemma {:induction false} RunKeeps(c: Config, t0: int, steps: seq<Step>, n: nat)
    requires n <= |steps| && Run(c, t0, steps).Some?
    ensures Run(c, t0, steps[..n]).Some? && Inv(Run(c, t0, steps).value)
    ensures Run(c, t0, steps[..n]).value.removed <= Run(c, t0, steps).value.removed
  {
    if n == |steps| {
      assert steps[..n] == steps;
    }
    if steps != [] {
      var before := steps[..|steps| - 1];
      if n < |steps| {
        assert before[..n] == steps[..n];
        RunKeeps(c, t0, before, n);
      } else {
        RunKeeps(c, t0, before, |before|);
      }
      StepKeeps(c, Run(c, t0, before).value, steps[|steps| - 1]);
    }
  }

  /** Once a RevokeToken of a session has returned, the session is never on the
      whitelist again, so every later whitelist check of it, by RefreshToken or
      ValidateToken, refuses: in every interleaving, with failing calls, and
      however much time passes. */
  lemma RevocationIsPermanent(c: Config, t0: int, steps: seq<Step>, n: nat, revoker: nat, id: nat)
    requires n <= |steps| && Run(c, t0, steps).Some? && Run(c, t0, steps[..n]).Some?
    requires revoker in Run(c, t0, steps[..n]).value.calls && Run(c, t0, steps[..n]).value.calls[revoker].Revoked?
    ensures var t, end := Run(c, t0, steps[..n]).value.calls[revoker].s, Run(c, t0, steps).value;
      && t !in end.white
      && (id in end.calls && end.calls[id] in {RefreshCheck(t), ValidateWhitelist(t)}
          ==> Apply(c, end, Advance(id)).calls[id] == Refused)
  {
    RunKeeps(c, t0, steps, n);
    RunKeeps(c, t0, steps[..n], n);
    assert CallInv(Run(c, t0, steps[..n]).value, revoker);
  }
}
