/** What a sequential run makes of each session, told by a record that knows
    no token store: when it was issued, and whether it is over. */
module SessionRecord {
  import opened Wrappers
  import opened TokenStore
  import opened Sessions

  /** `over` are the sids refreshed away, revoked, or reached by revoking their
      device; `revoked` has the times at which tokens were revoked. */
  datatype Record = Record(issued: map<nat, int>, over: set<nat>, revoked: map<nat, int>)

  predicate Accepted(ttl: TTL, r: Record, sid: nat, now: int) {
    sid in r.issued && sid !in r.over && now < r.issued[sid] + ttl.white
  }

  /** `last` is the sid last written to the row of each user and device, and
      `next` the next sid. */
  function Recorded(ttl: TTL, r: Record, last: map<(nat, nat), nat>, next: nat, e: Event): Record {
    match e
    case Login(now, _) => r.(issued := r.issued[next := now])
    case Refresh(now, sid) =>
      if Accepted(ttl, r, sid, now) then r.(issued := r.issued[next := now], over := r.over + {sid}) else r
    case Revoke(now, sid) => r.(over := r.over + {sid}, revoked := r.revoked[sid := now])
    case RevokeDevice(_, uid, d) => if (uid, d) in last then r.(over := r.over + {last[(uid, d)]}) else r
  }

  function RecordOf(ttl: TTL, events: seq<Event>): Record
    requires Run(ttl, events).Some?
  {
    if events == [] then Record(map[], {}, map[])
    else
      var h := Run(ttl, events[..|events| - 1]).value;
      Recorded(ttl, RecordOf(ttl, events[..|events| - 1]), h.last, h.m.nextSid, events[|events| - 1])
  }

  type Infos = map<nat, Info>

  predicate Issued(infos: Infos, s: Session) {
    s.sid in infos && infos[s.sid].uid == s.uid
  }

  /** The whitelist holds what was issued and is not over. */
  ghost predicate WhiteAgrees(ttl: TTL, white: Store, infos: Infos, r: Record) {
    && r.issued.Keys == infos.Keys
    && (forall s :: s in white <==> Issued(infos, s) && s.sid !in r.over)
    && (forall s :: s in white && s.sid in r.issued ==> white[s] == r.issued[s.sid] + ttl.white)
  }

  /** The blacklist holds what was revoked. */
  ghost predicate BlackAgrees(ttl: TTL, black: Store, infos: Infos, r: Record) {
    && (forall s :: s in black <==> Issued(infos, s) && s.sid in r.revoked)
    && (forall s :: s in black && s.sid in r.revoked ==> black[s] == r.revoked[s.sid] + ttl.black)
  }

  ghost predicate StoresAgree(ttl: TTL, h: History, r: Record) {
    && r.over <= h.info.Keys && r.revoked.Keys <= r.over
    && WhiteAgrees(ttl, h.m.white, h.info, r) && BlackAgrees(ttl, h.m.black, h.info, r)
  }

  lemma WhiteIssues(ttl: TTL, white: Store, infos: Infos, r: Record, s: Session, i: Info, now: int)
    requires WhiteAgrees(ttl, white, infos, r) && s.sid !in infos && s.sid !in r.over && i.uid == s.uid
    ensures WhiteAgrees(ttl, white[s := now + ttl.white], infos[s.sid := i], r.(issued := r.issued[s.sid := now]))
  {
  }

  lemma WhiteLoses(ttl: TTL, white: Store, infos: Infos, r: Record, s: Session)
    requires WhiteAgrees(ttl, white, infos, r) && Issued(infos, s)
    ensures WhiteAgrees(ttl, white - {s}, infos, r.(over := r.over + {s.sid}))
  {
  }

  lemma BlackIssues(ttl: TTL, black: Store, infos: Infos, r: Record, sid: nat, i: Info)
    requires BlackAgrees(ttl, black, infos, r) && sid !in infos && sid !in r.revoked
    ensures BlackAgrees(ttl, black, infos[sid := i], r)
  {
  }

  lemma IssueAgrees(ttl: TTL, h: History, r: Record, h': History, s: Session, i: Info, now: int)
    requires StoresAgree(ttl, h, r) && s.sid !in h.info && i.uid == s.uid
    requires h'.m.white == h.m.white[s := now + ttl.white] && h'.m.black == h.m.black && h'.info == h.info[s.sid := i]
    ensures StoresAgree(ttl, h', r.(issued := r.issued[s.sid := now]))
  {
    WhiteIssues(ttl, h.m.white, h.info, r, s, i, now);
    BlackIssues(ttl, h.m.black, h.info, r, s.sid, i);
  }

  lemma SwapAgrees(ttl: TTL, h: History, r: Record, h': History, s: Session, i: Info, now: int, gone: Session)
    requires StoresAgree(ttl, h, r) && s.sid !in h.info && i.uid == s.uid && Issued(h.info, gone)
    requires h'.m.white == h.m.white[s := now + ttl.white] - {gone} && h'.m.black == h.m.black && h'.info == h.info[s.sid := i]
    ensures StoresAgree(ttl, h', r.(issued := r.issued[s.sid := now], over := r.over + {gone.sid}))
  {
    var mid := h'.(m := h'.m.(white := h.m.white[s := now + ttl.white]));
    IssueAgrees(ttl, h, r, mid, s, i, now);
    WhiteLoses(ttl, mid.m.white, mid.info, r.(issued := r.issued[s.sid := now]), gone);
  }

  lemma LoginFacts(ttl: TTL, h: History, now: int, p: LoginParams) returns (s: Session, i: Info)
    ensures s == Session(p.uid, h.m.nextSid) && i.uid == p.uid
    ensures var h' := Apply(ttl, h, Login(now, p));
      h'.m.white == h.m.white[s := now + ttl.white] && h'.m.black == h.m.black && h'.info == h.info[s.sid := i]
  {
    var (m, c) := LoggedIn(ttl, h.m, p, now);
    s, i := Session(p.uid, h.m.nextSid), Info(p.uid, c.device, Home(m, p), c.session.sid);
  }

  lemma LoginAgrees(ttl: TTL, h: History, r: Record, now: int, p: LoginParams)
    requires StoresAgree(ttl, h, r) && h.m.nextSid !in h.info
    ensures StoresAgree(ttl, Apply(ttl, h, Login(now, p)), Recorded(ttl, r, h.last, h.m.nextSid, Login(now, p)))
  {
    var s, i := LoginFacts(ttl, h, now, p);
    IssueAgrees(ttl, h, r, Apply(ttl, h, Login(now, p)), s, i, now);
  }

  lemma RefreshFacts(ttl: TTL, h: History, now: int, sid: nat) returns (s: Session, i: Info)
    requires sid in h.info && Refreshable(h.m, ClaimsOf(h, sid), now)
    ensures s == Session(h.info[sid].uid, h.m.nextSid) && i.uid == s.uid
    ensures var h' := Apply(ttl, h, Refresh(now, sid));
      && h'.m.white == h.m.white[s := now + ttl.white] - {Session(h.info[sid].uid, sid)}
      && h'.m.black == h.m.black && h'.info == h.info[s.sid := i]
  {
    var (m, c) := Refreshed(ttl, h.m, ClaimsOf(h, sid), now);
    s, i := c.session, Info(h.info[sid].uid, c.device, h.info[sid].home, h.info[sid].root);
  }

  lemma RefreshAgrees(ttl: TTL, h: History, r: Record, now: int, sid: nat)
    requires StoresAgree(ttl, h, r) && h.m.nextSid !in h.info && sid in h.info
    ensures StoresAgree(ttl, Apply(ttl, h, Refresh(now, sid)), Recorded(ttl, r, h.last, h.m.nextSid, Refresh(now, sid)))
  {
    assert Accepted(ttl, r, sid, now) <==> Refreshable(h.m, ClaimsOf(h, sid), now);
    if Accepted(ttl, r, sid, now) {
      var s, i := RefreshFacts(ttl, h, now, sid);
      SwapAgrees(ttl, h, r, Apply(ttl, h, Refresh(now, sid)), s, i, now, Session(h.info[sid].uid, sid));
    }
  }

  lemma RevokeAgrees(ttl: TTL, h: History, r: Record, now: int, sid: nat)
    requires StoresAgree(ttl, h, r) && sid in h.info
    ensures StoresAgree(ttl, Apply(ttl, h, Revoke(now, sid)), Recorded(ttl, r, h.last, h.m.nextSid, Revoke(now, sid)))
  {
    WhiteLoses(ttl, h.m.white, h.info, r, ClaimsOf(h, sid).session);
  }

  lemma RevokeDeviceAgrees(ttl: TTL, h: History, r: Record, now: int, uid: nat, d: nat)
    requires StoresAgree(ttl, h, r)
    requires (uid, d) in h.m.rows <==> (uid, d) in h.last
    requires (uid, d) in h.last ==>
      h.m.rows[(uid, d)].sessionID == h.last[(uid, d)] && Issued(h.info, Session(uid, h.last[(uid, d)]))
    ensures StoresAgree(ttl, Apply(ttl, h, RevokeDevice(now, uid, d)), Recorded(ttl, r, h.last, h.m.nextSid, RevokeDevice(now, uid, d)))
  {
    if (uid, d) in h.last {
      WhiteLoses(ttl, h.m.white, h.info, r, Session(uid, h.last[(uid, d)]));
    }
  }

  lemma {:induction false} RunAgrees(ttl: TTL, events: seq<Event>)
    requires Run(ttl, events).Some?
    ensures StoresAgree(ttl, Run(ttl, events).value, RecordOf(ttl, events))
  {
    if events == [] {
    } else {
      var n := |events| - 1;
      RunAgrees(ttl, events[..n]);
      RunKeeps(ttl, events[..n]);
      var h, r := Run(ttl, events[..n]).value, RecordOf(ttl, events[..n]);
      NextIsFresh(h, 0);
      match events[n]
      case Login(now, p) => LoginAgrees(ttl, h, r, now, p);
      case Refresh(now, sid) => RefreshAgrees(ttl, h, r, now, sid);
      case Revoke(now, sid) => RevokeAgrees(ttl, h, r, now, sid);
      case RevokeDevice(now, uid, d) =>
        assert (uid, d) in h.m.rows || (uid, d) in h.last ==> RowInv(h, (uid, d));
        RevokeDeviceAgrees(ttl, h, r, now, uid, d);
    }
  }

  /** After every run, both tokens of an issued session are accepted at exactly
      the times the record says: until its time to live is over, unless it was
      refreshed away, revoked, or its device was. */
  lemma AcceptedIff(ttl: TTL, events: seq<Event>, sid: nat, now: int)
    requires Run(ttl, events).Some? && sid in Run(ttl, events).value.info
    ensures var h, accepted := Run(ttl, events).value, Accepted(ttl, RecordOf(ttl, events), sid, now);
      (Refreshable(h.m, ClaimsOf(h, sid), now) <==> accepted) && (Valid(h.m, ClaimsOf(h, sid), now) <==> accepted)
  {
    RunAgrees(ttl, events);
  }

  /** The blacklist names a session exactly for its time to live after a
      revocation of its tokens. */
  lemma BlacklistedIff(ttl: TTL, events: seq<Event>, sid: nat, now: int)
    requires Run(ttl, events).Some? && sid in Run(ttl, events).value.info
    ensures var h, r := Run(ttl, events).value, RecordOf(ttl, events);
      Holds(h.m.black, ClaimsOf(h, sid).session, now) <==> sid in r.revoked && now < r.revoked[sid] + ttl.black
  {
    RunAgrees(ttl, events);
  }

  lemma {:induction false} OverStays(ttl: TTL, events: seq<Event>, n: nat, sid: nat)
    requires n <= |events| && Run(ttl, events).Some? && Run(ttl, events[..n]).Some?
    ensures sid in RecordOf(ttl, events[..n]).over ==> sid in RecordOf(ttl, events).over
  {
    if n == |events| {
      assert events[..n] == events;
    } else {
      var k := |events| - 1;
      assert events[..k][..n] == events[..n];
      OverStays(ttl, events[..k], n, sid);
    }
  }

  /** Once a session's tokens are revoked, neither is accepted at any time in
      any continuation. */
  lemma RevokedForGood(ttl: TTL, events: seq<Event>, n: nat, now: int)
    requires n < |events| && events[n].Revoke? && Run(ttl, events).Some?
    ensures var h, sid := Run(ttl, events).value, events[n].sid;
      sid in h.info && !Refreshable(h.m, ClaimsOf(h, sid), now) && !Valid(h.m, ClaimsOf(h, sid), now)
  {
    var sid := events[n].sid;
    RunSome(ttl, events, n);
    RunSome(ttl, events, n + 1);
    assert events[..n + 1][..n] == events[..n];
    OverStays(ttl, events, n + 1, sid);
    InfoStays(ttl, events, n, sid);
    AcceptedIff(ttl, events, sid, now);
  }

  /** Revoking a session's tokens leaves every other session as it was. */
  lemma RevokeKeepsOthers(ttl: TTL, events: seq<Event>, sid: nat, now: int, s: Session, t: int)
    requires Run(ttl, events).Some? && sid in Run(ttl, events).value.info && s != ClaimsOf(Run(ttl, events).value, sid).session
    ensures var h := Run(ttl, events).value; var h' := Apply(ttl, h, Revoke(now, sid));
      (Holds(h'.m.white, s, t) <==> Holds(h.m.white, s, t)) && (Holds(h'.m.black, s, t) <==> Holds(h.m.black, s, t))
  {
  }

  // The rows.

  /** Revoking a device marks its row and no other. */
  lemma RevokeDeviceMarks(ttl: TTL, h: History, now: int, uid: nat, d: nat, key: (nat, nat))
    requires (uid, d) in h.m.rows && key in h.m.rows
    ensures var rows := Apply(ttl, h, RevokeDevice(now, uid, d)).m.rows;
      key in rows && rows[key].sessionID == h.m.rows[key].sessionID
      && rows[key].revokedAt == if key == (uid, d) then Some(now) else h.m.rows[key].revokedAt
  {
  }

  lemma MarkStep(ttl: TTL, h: History, e: Event, key: (nat, nat))
    requires Enabled(h, e) && key in h.m.rows && h.m.rows[key].revokedAt.Some?
    ensures key in Apply(ttl, h, e).m.rows && Apply(ttl, h, e).m.rows[key].revokedAt.Some?
  {
    if e.Login? {
      var (m, c) := LoggedIn(ttl, h.m, e.params, e.time);
      assert forall k :: k in h.m.rows ==> k in m.rows && m.rows[k].revokedAt == h.m.rows[k].revokedAt;
    }
  }

  /** A revoked row stays marked for good, though a later login on the device
      opens a new session under it. */
  lemma {:induction false} RevokedRowStaysMarked(ttl: TTL, events: seq<Event>, n: nat, key: (nat, nat))
    requires n <= |events| && Run(ttl, events).Some? && Run(ttl, events[..n]).Some?
    requires key in Run(ttl, events[..n]).value.m.rows && Run(ttl, events[..n]).value.m.rows[key].revokedAt.Some?
    ensures key in Run(ttl, events).value.m.rows && Run(ttl, events).value.m.rows[key].revokedAt.Some?
  {
    if n == |events| {
      assert events[..n] == events;
    } else {
      var k := |events| - 1;
      assert events[..k][..n] == events[..n];
      RevokedRowStaysMarked(ttl, events[..k], n, key);
      MarkStep(ttl, Run(ttl, events[..k]).value, events[k], key);
    }
  }
}
