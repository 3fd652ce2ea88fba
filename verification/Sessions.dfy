/** What the session operations of the auth and user services do to the token
    stores and the user_device rows, and what sequential runs of them keep
    (internal/core/service/auth.go, internal/core/service/user.go:576-629). */
module Sessions {
  import opened Wrappers
  import opened TokenStore

  /** A user_device row. RevokeDevice marks it; a later login does not unmark it. */
  datatype Row = Row(sessionID: nat, revokedAt: Option<int>)

  /** The claims both tokens of a session carry. `device` is the uid in the
      claim "device", if there is one. */
  datatype Claims = Claims(session: Session, device: Option<nat>)

  /** Devices are known by fingerprint; a device's number is its id and uid. */
  datatype Model = Model(white: Store, black: Store, devices: map<string, nat>, rows: map<(nat, nat), Row>,
                         nextSid: nat, nextDevice: nat)

  datatype TTL = TTL(white: nat, black: nat)

  /** The device a login names, and what its Extra puts under "device" instead. */
  datatype LoginParams = LoginParams(uid: nat, fingerprint: Option<string>, override: Option<Option<nat>>)

  function FindOrCreateDevice(m: Model, fingerprint: string): (Model, nat) {
    if fingerprint in m.devices then (m, m.devices[fingerprint])
    else (m.(devices := m.devices[fingerprint := m.nextDevice], nextDevice := m.nextDevice + 1), m.nextDevice)
  }

  function FindOrCreateUserDevice(m: Model, uid: nat, device: nat, sid: nat): Model {
    m.(rows := m.rows[(uid, device) := if (uid, device) in m.rows then m.rows[(uid, device)].(sessionID := sid) else Row(sid, None)])
  }

  /** UPDATE touches the row only if it is there. */
  function UpdateSessionID(m: Model, uid: nat, device: nat, sid: nat): Model {
    if (uid, device) in m.rows then m.(rows := m.rows[(uid, device) := m.rows[(uid, device)].(sessionID := sid)]) else m
  }

  function LoggedIn(ttl: TTL, m: Model, p: LoginParams, now: int): (Model, Claims) {
    var sid := m.nextSid;
    var m1 := m.(nextSid := sid + 1);
    var (m2, device) :=
      if p.fingerprint.None? then (m1, None)
      else
        var (md, d) := FindOrCreateDevice(m1, p.fingerprint.value);
        (FindOrCreateUserDevice(md, p.uid, d, sid), Some(d));
    var s := Session(p.uid, sid);
    (m2.(white := m2.white[s := now + ttl.white]),
     Claims(s, if p.override.Some? then p.override.value else device))
  }

  predicate Refreshable(m: Model, c: Claims, now: int) {
    Holds(m.white, c.session, now)
  }

  function Refreshed(ttl: TTL, m: Model, c: Claims, now: int): (Model, Claims) {
    var s := Session(c.session.uid, m.nextSid);
    var m1 := m.(nextSid := m.nextSid + 1);
    var m2 := if c.device.Some? && c.device.value in m.devices.Values
              then UpdateSessionID(m1, s.uid, c.device.value, s.sid) else m1;
    (m2.(white := m2.white[s := now + ttl.white] - {c.session}), Claims(s, c.device))
  }

  predicate Valid(m: Model, c: Claims, now: int) {
    Holds(m.white, c.session, now) && !Holds(m.black, c.session, now)
  }

  function RevokedToken(ttl: TTL, m: Model, c: Claims, now: int): Model {
    m.(white := m.white - {c.session}, black := m.black[c.session := now + ttl.black])
  }

  function RevokedDevice(m: Model, uid: nat, device: nat, now: int): Model
    requires (uid, device) in m.rows
  {
    var row := m.rows[(uid, device)];
    m.(white := m.white - {Session(uid, row.sessionID)}, rows := m.rows[(uid, device) := row.(revokedAt := Some(now))])
  }

  // Sequential, fault-free runs.

  /** A refresh or revocation presents the tokens of an issued session `sid`. */
  datatype Event =
    | Login(time: int, params: LoginParams)
    | Refresh(time: int, sid: nat)
    | Revoke(time: int, sid: nat)
    | RevokeDevice(time: int, uid: nat, device: nat)

  /** An issued sid: its user, its device claim, the device its login was made
      on, and that login's sid. */
  datatype Info = Info(uid: nat, device: Option<nat>, home: Option<nat>, root: nat)

  /** What the run issued; each login's newest sid; the sids refreshed away;
      and the sid last written to the row of each user and device. */
  datatype History = History(m: Model, info: map<nat, Info>, newest: map<nat, nat>, retired: set<nat>, last: map<(nat, nat), nat>)

  const START := History(Model(map[], map[], map[], map[], 0, 0), map[], map[], {}, map[])

  function ClaimsOf(h: History, sid: nat): Claims
    requires sid in h.info
  {
    Claims(Session(h.info[sid].uid, sid), h.info[sid].device)
  }

  predicate Enabled(h: History, e: Event) {
    match e
    case Login(_, _) => true
    case Refresh(_, sid) => sid in h.info
    case Revoke(_, sid) => sid in h.info
    case RevokeDevice(_, _, _) => true
  }

  /** The device a login was made on. */
  function Home(m: Model, p: LoginParams): Option<nat> {
    if p.fingerprint.Some? && p.fingerprint.value in m.devices then Some(m.devices[p.fingerprint.value]) else None
  }

  /** The row that a login on a device, or a refresh with this claim, writes. */
  function LoginRow(uid: nat, home: Option<nat>): Option<(nat, nat)> {
    if home.Some? then Some((uid, home.value)) else None
  }

  function RefreshRow(m: Model, c: Claims): Option<(nat, nat)> {
    if c.device.Some? && c.device.value in m.devices.Values && (c.session.uid, c.device.value) in m.rows
    then Some((c.session.uid, c.device.value)) else None
  }

  function Issue(h: History, m: Model, c: Claims, home: Option<nat>, root: nat, row: Option<(nat, nat)>): History {
    var sid := c.session.sid;
    h.(m := m, info := h.info[sid := Info(c.session.uid, c.device, home, root)], newest := h.newest[root := sid],
       last := if row.Some? then h.last[row.value := sid] else h.last)
  }

  function Apply(ttl: TTL, h: History, e: Event): History
    requires Enabled(h, e)
  {
    match e
    case Login(now, p) =>
      var (m, c) := LoggedIn(ttl, h.m, p, now);
      Issue(h, m, c, Home(m, p), c.session.sid, LoginRow(p.uid, Home(m, p)))
    case Refresh(now, sid) =>
      if Refreshable(h.m, ClaimsOf(h, sid), now) then
        var (m, c) := Refreshed(ttl, h.m, ClaimsOf(h, sid), now);
        Issue(h, m, c, h.info[sid].home, h.info[sid].root, RefreshRow(h.m, ClaimsOf(h, sid))).(retired := h.retired + {sid})
      else h
    case Revoke(now, sid) => h.(m := RevokedToken(ttl, h.m, ClaimsOf(h, sid), now))
    case RevokeDevice(now, uid, d) => if (uid, d) in h.m.rows then h.(m := RevokedDevice(h.m, uid, d, now)) else h
  }

  function Run(ttl: TTL, events: seq<Event>): Option<History> {
    if events == [] then Some(START)
    else
      var before := Run(ttl, events[..|events| - 1]);
      var e := events[|events| - 1];
      if before.Some? && Enabled(before.value, e) then Some(Apply(ttl, before.value, e)) else None
  }

  // The invariant.

  /** `sid` is the newest of its lineage. */
  ghost predicate Tip(h: History, sid: nat) {
    sid in h.info && h.info[sid].root in h.newest && h.newest[h.info[sid].root] == sid
  }

  ghost predicate SidInv(h: History, sid: nat) {
    && sid in h.info && sid < h.m.nextSid
    && h.info[sid].root in h.newest && sid <= h.newest[h.info[sid].root] && h.newest[h.info[sid].root] < h.m.nextSid
    && (sid in h.retired ==> sid < h.newest[h.info[sid].root])
  }

  /** All sids of a lineage carry the user, the claim and the device of its
      login. */
  ghost predicate RootInv(h: History, sid: nat) {
    && sid in h.info && h.info[sid].root in h.info
    && h.info[h.info[sid].root] == h.info[sid]
  }

  ghost predicate HomeInv(h: History, sid: nat) {
    sid in h.info && h.info[sid].home.Some? ==> (h.info[sid].uid, h.info[sid].home.value) in h.m.rows
  }

  /** A whitelisted session was issued and is the newest of its lineage. */
  ghost predicate WhiteInv(h: History, s: Session) {
    Tip(h, s.sid) && h.info[s.sid].uid == s.uid
  }

  /** A row follows the lineage of its sid if that carries the row's device in
      its claim; otherwise it keeps the sid of a login on the device. */
  ghost predicate RowInv(h: History, key: (nat, nat)) {
    && key in h.last && key in h.m.rows && h.m.rows[key].sessionID == h.last[key]
    && key.1 in h.m.devices.Values
    && h.last[key] in h.info && h.info[h.last[key]].uid == key.0
    && (if h.info[h.last[key]].device == Some(key.1) then Tip(h, h.last[key])
        else h.info[h.last[key]].home == Some(key.1) && h.info[h.last[key]].root == h.last[key])
  }

  ghost predicate Inv(h: History) {
    && (forall sid :: sid in h.info ==> SidInv(h, sid))
    && (forall sid :: sid in h.info ==> RootInv(h, sid))
    && (forall sid :: sid in h.info ==> HomeInv(h, sid))
    && (forall s :: s in h.m.white ==> WhiteInv(h, s))
    && (forall key :: key in h.m.rows || key in h.last ==> RowInv(h, key))
    && (forall sid :: sid in h.retired ==> sid in h.info)
    && (forall s :: s in h.m.black ==> s.sid in h.info)
  }

  /** A fresh sid is issued: the presented sids of its lineage leave the
      whitelist, and one row, or none, gets it. */
  ghost predicate Issues(h: History, m: Model, c: Claims, home: Option<nat>, root: nat, row: Option<(nat, nat)>, gone: set<nat>) {
    && c.session.sid == h.m.nextSid && m.nextSid == h.m.nextSid + 1 && m.black == h.m.black
    && (root == c.session.sid || (root in h.newest && root in h.info && h.info[root] == Info(c.session.uid, c.device, home, root)))
    && (forall sid :: sid in gone ==> sid in h.info && h.info[sid].root == root)
    && (forall s :: s in m.white ==> s == c.session || (s in h.m.white && s.sid in h.info && h.info[s.sid].root != root))
    && h.m.devices.Values <= m.devices.Values
    && (home.Some? ==> (c.session.uid, home.value) in m.rows)
    && RowWritten(h, m, c, home, root, row)
    && (forall key :: key in h.m.rows ==> key in m.rows)
    && (forall key :: key in m.rows && row != Some(key) ==> key in h.m.rows && m.rows[key] == h.m.rows[key])
  }

  /** A login writes the row of its device; a refresh that of its claim. */
  ghost predicate RowWritten(h: History, m: Model, c: Claims, home: Option<nat>, root: nat, row: Option<(nat, nat)>) {
    && (row.Some? ==>
          && row.value in m.rows && m.rows[row.value].sessionID == c.session.sid && row.value.1 in m.devices.Values
          && row.value.0 == c.session.uid
          && (c.device == Some(row.value.1) || (home == Some(row.value.1) && root == c.session.sid)))
    && (root != c.session.sid && c.device.Some? && c.device.value in h.m.devices.Values && (c.session.uid, c.device.value) in h.m.rows ==>
          row == Some((c.session.uid, c.device.value)))
  }

  function Issued(h: History, m: Model, c: Claims, home: Option<nat>, root: nat, row: Option<(nat, nat)>, gone: set<nat>): History {
    Issue(h, m, c, home, root, row).(retired := h.retired + gone)
  }

  lemma IssueKeepsSid(h: History, m: Model, c: Claims, home: Option<nat>, root: nat, row: Option<(nat, nat)>, gone: set<nat>, sid: nat)
    requires Issues(h, m, c, home, root, row, gone) && sid in Issued(h, m, c, home, root, row, gone).info && h.m.nextSid !in h.info
    requires root in h.info ==> SidInv(h, root)
    requires sid in h.info ==> SidInv(h, sid) && RootInv(h, sid) && HomeInv(h, sid)
    requires sid in h.retired ==> sid in h.info
    ensures var h' := Issued(h, m, c, home, root, row, gone); SidInv(h', sid) && RootInv(h', sid) && HomeInv(h', sid)
  {
  }

  lemma IssueKeepsWhite(h: History, m: Model, c: Claims, home: Option<nat>, root: nat, row: Option<(nat, nat)>, gone: set<nat>, s: Session)
    requires s == c.session || (WhiteInv(h, s) && h.info[s.sid].root != root && s.sid != c.session.sid)
    ensures WhiteInv(Issued(h, m, c, home, root, row, gone), s)
  {
  }

  lemma IssueKeepsRow(h: History, m: Model, c: Claims, home: Option<nat>, root: nat, row: Option<(nat, nat)>, gone: set<nat>, key: (nat, nat))
    requires Issues(h, m, c, home, root, row, gone) && (key in m.rows || key in Issued(h, m, c, home, root, row, gone).last)
    requires h.m.nextSid !in h.info
    requires key in h.m.rows || key in h.last ==> RowInv(h, key) && RootInv(h, h.last[key]) && SidInv(h, h.last[key])
    ensures RowInv(Issued(h, m, c, home, root, row, gone), key)
  {
  }

  lemma IssueKeeps(h: History, m: Model, c: Claims, home: Option<nat>, root: nat, row: Option<(nat, nat)>, gone: set<nat>)
    requires Inv(h) && Issues(h, m, c, home, root, row, gone)
    ensures Inv(Issued(h, m, c, home, root, row, gone))
  {
    var h' := Issued(h, m, c, home, root, row, gone);
    assert h.m.nextSid in h.info ==> SidInv(h, h.m.nextSid);
    forall sid | sid in h'.info
      ensures SidInv(h', sid) && RootInv(h', sid) && HomeInv(h', sid)
    {
      IssueKeepsSid(h, m, c, home, root, row, gone, sid);
    }
    forall s | s in h'.m.white
      ensures WhiteInv(h', s)
    {
      assert s != c.session ==> WhiteInv(h, s) && h.info[s.sid].root != root;
      IssueKeepsWhite(h, m, c, home, root, row, gone, s);
    }
    forall key | key in h'.m.rows || key in h'.last
      ensures RowInv(h', key)
    {
      assert key in h.m.rows || key in h.last ==> RowInv(h, key) && RootInv(h, h.last[key]) && SidInv(h, h.last[key]);
      IssueKeepsRow(h, m, c, home, root, row, gone, key);
    }
  }

  lemma DevicesOnlyGrow(m: Model, fingerprint: string)
    ensures var (m', d) := FindOrCreateDevice(m, fingerprint);
      m.devices.Values <= m'.devices.Values && d in m'.devices.Values && m'.rows == m.rows
  {
    var (m', d) := FindOrCreateDevice(m, fingerprint);
    assert fingerprint in m'.devices && m'.devices[fingerprint] == d;
    forall v | v in m.devices.Values
      ensures v in m'.devices.Values
    {
      var f :| f in m.devices && m.devices[f] == v;
      assert f in m'.devices && m'.devices[f] == v;
    }
  }

  lemma WhiteIsOlder(h: History, s: Session)
    requires Inv(h) && s in h.m.white
    ensures s.sid in h.info && h.info[s.sid].root != h.m.nextSid
  {
  }

  lemma LoginIssues(ttl: TTL, h: History, now: int, p: LoginParams)
    requires forall s :: s in h.m.white ==> s.sid in h.info && h.info[s.sid].root != h.m.nextSid
    ensures var (m, c) := LoggedIn(ttl, h.m, p, now);
      Issues(h, m, c, Home(m, p), c.session.sid, LoginRow(p.uid, Home(m, p)), {})
  {
    if p.fingerprint.Some? {
      DevicesOnlyGrow(h.m.(nextSid := h.m.nextSid + 1), p.fingerprint.value);
    }
  }

  lemma LoginKeeps(ttl: TTL, h: History, now: int, p: LoginParams)
    requires Inv(h)
    ensures Inv(Apply(ttl, h, Login(now, p)))
  {
    var (m, c) := LoggedIn(ttl, h.m, p, now);
    forall s | s in h.m.white
      ensures s.sid in h.info && h.info[s.sid].root != h.m.nextSid
    {
      WhiteIsOlder(h, s);
    }
    LoginIssues(ttl, h, now, p);
    IssueKeeps(h, m, c, Home(m, p), c.session.sid, LoginRow(p.uid, Home(m, p)), {});
    assert h.retired + {} == h.retired;
  }

  /** The whitelist holds at most one session of each login's lineage. */
  lemma OneOfLineage(h: History, a: Session, b: Session)
    requires Inv(h) && a in h.m.white && b in h.m.white
    requires a.sid in h.info && b.sid in h.info && h.info[a.sid].root == h.info[b.sid].root
    ensures a == b
  {
  }

  lemma RefreshKeeps(ttl: TTL, h: History, now: int, sid: nat)
    requires Inv(h) && sid in h.info
    ensures Inv(Apply(ttl, h, Refresh(now, sid)))
  {
    var c0 := ClaimsOf(h, sid);
    if Refreshable(h.m, c0, now) {
      var (m, c) := Refreshed(ttl, h.m, c0, now);
      assert SidInv(h, sid) && RootInv(h, sid) && HomeInv(h, sid);
      assert RootInv(h, h.info[sid].root);
      forall s | s in m.white && s != c.session
        ensures s in h.m.white && s.sid in h.info && h.info[s.sid].root != h.info[sid].root
      {
        assert WhiteInv(h, s);
        if h.info[s.sid].root == h.info[sid].root {
          OneOfLineage(h, s, c0.session);
        }
      }
      IssueKeeps(h, m, c, h.info[sid].home, h.info[sid].root, RefreshRow(h.m, c0), {sid});
    }
  }

  lemma ShrinkKeeps(h: History, m: Model)
    requires Inv(h) && m.white.Keys <= h.m.white.Keys && (forall s :: s in m.black ==> s.sid in h.info)
    requires m.devices == h.m.devices && m.nextSid == h.m.nextSid && m.nextDevice == h.m.nextDevice
    requires m.rows.Keys == h.m.rows.Keys && forall key :: key in m.rows ==> m.rows[key].sessionID == h.m.rows[key].sessionID
    ensures Inv(h.(m := m))
  {
  }

  lemma StepKeeps(ttl: TTL, h: History, e: Event)
    requires Inv(h) && Enabled(h, e)
    ensures Inv(Apply(ttl, h, e)) && h.retired <= Apply(ttl, h, e).retired && h.info.Keys <= Apply(ttl, h, e).info.Keys
  {
    match e
    case Login(now, p) => LoginKeeps(ttl, h, now, p);
    case Refresh(now, sid) => RefreshKeeps(ttl, h, now, sid);
    case Revoke(now, sid) => ShrinkKeeps(h, RevokedToken(ttl, h.m, ClaimsOf(h, sid), now));
    case RevokeDevice(now, uid, d) =>
      if (uid, d) in h.m.rows {
        ShrinkKeeps(h, RevokedDevice(h.m, uid, d, now));
      }
  }

  lemma {:induction false} RunKeeps(ttl: TTL, events: seq<Event>)
    requires Run(ttl, events).Some?
    ensures Inv(Run(ttl, events).value)
  {
    if events == [] {
    } else {
      var n := |events| - 1;
      RunKeeps(ttl, events[..n]);
      StepKeeps(ttl, Run(ttl, events[..n]).value, events[n]);
    }
  }

  // Rotation.

  /** Over every run, no login ever has two whitelisted sessions. */
  lemma NeverTwoSessionsPerLogin(ttl: TTL, events: seq<Event>, a: Session, b: Session)
    requires Run(ttl, events).Some?
    requires var h := Run(ttl, events).value;
      a in h.m.white && b in h.m.white && a.sid in h.info && b.sid in h.info && h.info[a.sid].root == h.info[b.sid].root
    ensures a == b
  {
    RunKeeps(ttl, events);
    OneOfLineage(Run(ttl, events).value, a, b);
  }

  lemma SwapKeepsSize(white: Store, a: Session, b: Session, deadline: int)
    requires a in white && b !in white
    ensures (white - {a})[b := deadline] == white[b := deadline] - {a}
    ensures |(white - {a})[b := deadline]| == |white|
  {
    var rest := white - {a};
    assert white == rest[a := white[a]];
  }

  ghost predicate SwapsOne(h: History, h': History, presented: Session, next: Session, deadline: int) {
    && presented.sid in h.info && next.sid !in h.info && next.sid in h'.info
    && h'.info[next.sid] == h.info[presented.sid]
    && h'.m.white == (h.m.white - {presented})[next := deadline]
    && |h'.m.white| == |h.m.white|
  }

  lemma NextIsFresh(h: History, uid: nat)
    requires Inv(h)
    ensures h.m.nextSid !in h.info && Session(uid, h.m.nextSid) !in h.m.white
  {
  }

  lemma RefreshSwapsHere(ttl: TTL, h: History, sid: nat, now: int)
    requires sid in h.info && Refreshable(h.m, ClaimsOf(h, sid), now)
    requires h.m.nextSid !in h.info && Session(h.info[sid].uid, h.m.nextSid) !in h.m.white
    ensures var uid := h.info[sid].uid;
      SwapsOne(h, Apply(ttl, h, Refresh(now, sid)), Session(uid, sid), Session(uid, h.m.nextSid), now + ttl.white)
  {
    var c := ClaimsOf(h, sid);
    var next := Session(c.session.uid, h.m.nextSid);
    SwapKeepsSize(h.m.white, c.session, next, now + ttl.white);
    assert Refreshed(ttl, h.m, c, now).0.white == h.m.white[next := now + ttl.white] - {c.session};
    assert Refreshed(ttl, h.m, c, now).1 == Claims(next, c.device);
  }

  /** A refresh that succeeds swaps exactly the presented session for a fresh
      one of the same login and leaves every other session and deadline alone. */
  lemma RefreshSwapsOne(ttl: TTL, events: seq<Event>, h: History, sid: nat, now: int)
    requires Run(ttl, events) == Some(h) && sid in h.info && Refreshable(h.m, ClaimsOf(h, sid), now)
    ensures var uid := h.info[sid].uid;
      SwapsOne(h, Apply(ttl, h, Refresh(now, sid)), Session(uid, sid), Session(uid, h.m.nextSid), now + ttl.white)
  {
    RunKeeps(ttl, events);
    NextIsFresh(h, h.info[sid].uid);
    RefreshSwapsHere(ttl, h, sid, now);
  }

  lemma {:induction false} RetiredStays(ttl: TTL, events: seq<Event>, n: nat, sid: nat)
    requires n <= |events| && Run(ttl, events).Some?
    ensures Run(ttl, events[..n]).Some?
    ensures sid in Run(ttl, events[..n]).value.retired ==> sid in Run(ttl, events).value.retired
  {
    if n == |events| {
      assert events[..n] == events;
    } else {
      var k := |events| - 1;
      assert events[..k][..n] == events[..n];
      RetiredStays(ttl, events[..k], n, sid);
      RunKeeps(ttl, events[..k]);
      StepKeeps(ttl, Run(ttl, events[..k]).value, events[k]);
    }
  }

  /** A refresh token accepted once is refused at every later time. */
  lemma RefreshTokenWorksOnce(ttl: TTL, events: seq<Event>, n: nat, now: int)
    requires n < |events| && events[n].Refresh? && Run(ttl, events).Some? && Run(ttl, events[..n]).Some?
    requires var h, sid := Run(ttl, events[..n]).value, events[n].sid;
      sid in h.info && Refreshable(h.m, ClaimsOf(h, sid), events[n].time)
    ensures var end, sid := Run(ttl, events).value, events[n].sid;
      sid in end.info && !Refreshable(end.m, ClaimsOf(end, sid), now)
  {
    assert events[..n + 1][..n] == events[..n];
    RetiredStays(ttl, events, n + 1, events[n].sid);
    RunKeeps(ttl, events);
    var end, sid := Run(ttl, events).value, events[n].sid;
    assert SidInv(end, sid);
    assert ClaimsOf(end, sid).session in end.m.white ==> WhiteInv(end, ClaimsOf(end, sid).session);
  }

  /** A session just issued by a login is accepted until its deadline. */
  lemma LoginIsValid(ttl: TTL, events: seq<Event>, p: LoginParams, now: int, later: int)
    requires Run(ttl, events).Some? && now <= later < now + ttl.white
    ensures var (m, c) := LoggedIn(ttl, Run(ttl, events).value.m, p, now); Valid(m, c, later)
  {
    RunKeeps(ttl, events);
    var h := Run(ttl, events).value;
    assert h.m.nextSid !in h.info by {
      assert forall x :: x in h.info ==> SidInv(h, x);
    }
  }

  // Devices.

  /** A session, accepted at time `now`, of a login that was made on device d. */
  ghost predicate OnDevice(h: History, s: Session, uid: nat, d: nat, now: int) {
    Holds(h.m.white, s, now) && s.uid == uid && s.sid in h.info && h.info[s.sid].home == Some(d)
  }

  /** RevokeDevice takes exactly the session last written to the row off the
      whitelist. */
  lemma RevokeDeviceHitsTheLast(ttl: TTL, events: seq<Event>, uid: nat, d: nat, now: int)
    requires Run(ttl, events).Some? && (uid, d) in Run(ttl, events).value.m.rows
    ensures var h := Run(ttl, events).value;
      && (uid, d) in h.last && h.m.rows[(uid, d)].sessionID == h.last[(uid, d)]
      && Apply(ttl, h, RevokeDevice(now, uid, d)).m.white == h.m.white - {Session(uid, h.last[(uid, d)])}
  {
    RunKeeps(ttl, events);
    assert RowInv(Run(ttl, events).value, (uid, d));
  }

  /** Session s is one that RevokeDevice reaches: it descends from the login
      whose session the row has, and either carries the device in its claim or
      was not refreshed since that login. */
  ghost predicate Reached(h: History, s: Session, uid: nat, d: nat) {
    && (uid, d) in h.last && h.last[(uid, d)] in h.info && s.sid in h.info
    && h.info[s.sid].root == h.info[h.last[(uid, d)]].root
    && (h.info[s.sid].device == Some(d) || s.sid == h.info[s.sid].root)
  }

  lemma ReachedIsLast(h: History, s: Session, uid: nat, d: nat)
    requires Inv(h) && (uid, d) in h.m.rows && s in h.m.white && s.uid == uid
    ensures Reached(h, s, uid, d) <==> s.sid == h.m.rows[(uid, d)].sessionID
  {
    assert RowInv(h, (uid, d)) && WhiteInv(h, s);
    assert RootInv(h, s.sid) && RootInv(h, h.last[(uid, d)]);
  }

  /** RevokeDevice logs the device out, whatever claims the tokens carry, if
      and only if it reaches every session of the device that is still
      accepted. */
  lemma RevokeDeviceKillsIff(ttl: TTL, events: seq<Event>, uid: nat, d: nat, now: int)
    requires Run(ttl, events).Some? && (uid, d) in Run(ttl, events).value.m.rows
    ensures var h := Run(ttl, events).value; var h' := Apply(ttl, h, RevokeDevice(now, uid, d));
      (forall s :: !OnDevice(h', s, uid, d, now)) <==> (forall s :: OnDevice(h, s, uid, d, now) ==> Reached(h, s, uid, d))
  {
    RunKeeps(ttl, events);
    var h := Run(ttl, events).value;
    var h' := Apply(ttl, h, RevokeDevice(now, uid, d));
    forall s
      ensures OnDevice(h', s, uid, d, now) <==> OnDevice(h, s, uid, d, now) && !Reached(h, s, uid, d)
    {
      if OnDevice(h, s, uid, d, now) {
        ReachedIsLast(h, s, uid, d);
      }
    }
  }

  /** A sid of the user that concerns the device, by its login or its claim. */
  ghost predicate Concerns(h: History, sid: nat, uid: nat, d: nat) {
    sid in h.info && h.info[sid].uid == uid && (h.info[sid].home == Some(d) || h.info[sid].device == Some(d))
  }

  lemma InfoStep(ttl: TTL, h: History, e: Event, sid: nat)
    requires Enabled(h, e) && h.m.nextSid !in h.info && sid in h.info
    ensures sid in Apply(ttl, h, e).info && Apply(ttl, h, e).info[sid] == h.info[sid]
  {
  }

  lemma {:induction false} InfoStays(ttl: TTL, events: seq<Event>, n: nat, sid: nat)
    requires n <= |events| && Run(ttl, events).Some? && Run(ttl, events[..n]).Some? && sid in Run(ttl, events[..n]).value.info
    ensures sid in Run(ttl, events).value.info && Run(ttl, events).value.info[sid] == Run(ttl, events[..n]).value.info[sid]
  {
    if n == |events| {
      assert events[..n] == events;
    } else {
      var k := |events| - 1;
      assert events[..k][..n] == events[..n];
      InfoStays(ttl, events[..k], n, sid);
      RunKeeps(ttl, events[..k]);
      NextIsFresh(Run(ttl, events[..k]).value, 0);
      InfoStep(ttl, Run(ttl, events[..k]).value, events[k], sid);
    }
  }

  /** A login on a device without an Extra that says otherwise logs the device
      in under a claim that names it, and stays so for its whole lineage. */
  lemma LoginNamesItsDevice(ttl: TTL, events: seq<Event>, n: nat, sid: nat)
    requires n < |events| && Run(ttl, events).Some? && Run(ttl, events[..n]).Some? && events[n].Login?
    requires events[n].params.fingerprint.Some? && events[n].params.override.None?
    requires var h, root := Run(ttl, events).value, Run(ttl, events[..n]).value.m.nextSid;
      sid in h.info && h.info[sid].root == root
    ensures var h, p := Run(ttl, events).value, events[n].params;
      && p.fingerprint.value in h.m.devices
      && h.info[sid].uid == p.uid && h.info[sid].home == h.info[sid].device == Some(h.m.devices[p.fingerprint.value])
  {
    var before := Run(ttl, events[..n]).value;
    assert events[..n + 1][..n] == events[..n];
    RunSome(ttl, events, n + 1);
    LoginWritesRow(ttl, before.m, events[n].params, events[n].time);
    InfoStays(ttl, events, n + 1, before.m.nextSid);
    DeviceStays(ttl, events, n + 1, events[n].params.fingerprint.value);
    RunKeeps(ttl, events);
    assert RootInv(Run(ttl, events).value, sid);
  }

  lemma {:induction false} RunSome(ttl: TTL, events: seq<Event>, n: nat)
    requires n <= |events| && Run(ttl, events).Some?
    ensures Run(ttl, events[..n]).Some?
  {
    if n == |events| {
      assert events[..n] == events;
    } else {
      assert events[..|events| - 1][..n] == events[..n];
      RunSome(ttl, events[..|events| - 1], n);
    }
  }

  ghost predicate DistinctDevices(m: Model) {
    && (forall f :: f in m.devices ==> m.devices[f] < m.nextDevice)
    && (forall f, g :: f in m.devices && g in m.devices && m.devices[f] == m.devices[g] ==> f == g)
  }

  lemma DeviceStep(ttl: TTL, h: History, e: Event)
    requires Enabled(h, e)
    ensures forall f :: f in h.m.devices ==> f in Apply(ttl, h, e).m.devices && Apply(ttl, h, e).m.devices[f] == h.m.devices[f]
    ensures DistinctDevices(h.m) ==> DistinctDevices(Apply(ttl, h, e).m)
  {
    if e.Login? {
      var (m, c) := LoggedIn(ttl, h.m, e.params, e.time);
      assert m.devices == (if e.params.fingerprint.None? then h.m.devices
                           else FindOrCreateDevice(h.m, e.params.fingerprint.value).0.devices);
    }
  }

  lemma {:induction false} DeviceStays(ttl: TTL, events: seq<Event>, n: nat, fingerprint: string)
    requires n <= |events| && Run(ttl, events).Some? && Run(ttl, events[..n]).Some?
    requires fingerprint in Run(ttl, events[..n]).value.m.devices
    ensures fingerprint in Run(ttl, events).value.m.devices
    ensures Run(ttl, events).value.m.devices[fingerprint] == Run(ttl, events[..n]).value.m.devices[fingerprint]
  {
    if n == |events| {
      assert events[..n] == events;
    } else {
      var k := |events| - 1;
      assert events[..k][..n] == events[..n];
      DeviceStays(ttl, events[..k], n, fingerprint);
      DeviceStep(ttl, Run(ttl, events[..k]).value, events[k]);
    }
  }

  /** Different fingerprints are different devices. */
  lemma {:induction false} DevicesStayDistinct(ttl: TTL, events: seq<Event>)
    requires Run(ttl, events).Some?
    ensures DistinctDevices(Run(ttl, events).value.m)
  {
    if events == [] {
    } else {
      var n := |events| - 1;
      DevicesStayDistinct(ttl, events[..n]);
      DeviceStep(ttl, Run(ttl, events[..n]).value, events[n]);
    }
  }

  lemma LoginWritesRow(ttl: TTL, m: Model, p: LoginParams, now: int)
    requires p.fingerprint.Some?
    ensures var (m1, c1) := LoggedIn(ttl, m, p, now);
      && p.fingerprint.value in m1.devices && m1.devices[p.fingerprint.value] in m1.devices.Values
      && (p.fingerprint.value in m.devices ==> m1.devices == m.devices)
      && (p.uid, m1.devices[p.fingerprint.value]) in m1.rows
      && m1.rows[(p.uid, m1.devices[p.fingerprint.value])].sessionID == m.nextSid
      && c1.session == Session(p.uid, m.nextSid) && m1.white == m.white[c1.session := now + ttl.white]
      && m1.nextSid == m.nextSid + 1
      && c1.device == (if p.override.Some? then p.override.value else Some(m1.devices[p.fingerprint.value]))
  {
  }

  lemma LoginIsRecorded(ttl: TTL, events: seq<Event>, n: nat)
    requires n < |events| && Run(ttl, events).Some? && Run(ttl, events[..n]).Some? && events[n].Login?
    ensures var h, root := Run(ttl, events).value, Run(ttl, events[..n]).value.m.nextSid;
      root in h.info && h.info[root].root == root
  {
    assert events[..n + 1][..n] == events[..n];
    RunSome(ttl, events, n + 1);
    InfoStays(ttl, events, n + 1, Run(ttl, events[..n]).value.m.nextSid);
  }

  /** In particular when only one login of the user concerns the device, and
      its Extra did not say otherwise. */
  lemma SingleLoginIsKilled(ttl: TTL, events: seq<Event>, n: nat, now: int, s: Session)
    requires n < |events| && Run(ttl, events).Some? && Run(ttl, events[..n]).Some? && events[n].Login?
    requires events[n].params.fingerprint.Some? && events[n].params.override.None?
    requires var h, p, root := Run(ttl, events).value, events[n].params, Run(ttl, events[..n]).value.m.nextSid;
      p.fingerprint.value in h.m.devices ==>
        forall sid :: Concerns(h, sid, p.uid, h.m.devices[p.fingerprint.value]) ==> h.info[sid].root == root
    ensures var h, p := Run(ttl, events).value, events[n].params;
      && p.fingerprint.value in h.m.devices && (p.uid, h.m.devices[p.fingerprint.value]) in h.m.rows
      && var d := h.m.devices[p.fingerprint.value];
         !OnDevice(Apply(ttl, h, RevokeDevice(now, p.uid, d)), s, p.uid, d, now)
  {
    var root := Run(ttl, events[..n]).value.m.nextSid;
    var p := events[n].params;
    LoginIsRecorded(ttl, events, n);
    LoginNamesItsDevice(ttl, events, n, root);
    var uid, d := p.uid, Run(ttl, events).value.m.devices[p.fingerprint.value];
    assert HomeInv(Run(ttl, events).value, root) by { RunKeeps(ttl, events); }
    RunKeeps(ttl, events);
    RevokeDeviceKillsIff(ttl, events, uid, d, now);
    var h := Run(ttl, events).value;
    assert RowInv(h, (uid, d)) && Concerns(h, h.last[(uid, d)], uid, d);
    LoginNamesItsDevice(ttl, events, n, h.last[(uid, d)]);
    forall t | OnDevice(h, t, uid, d, now)
      ensures Reached(h, t, uid, d)
    {
      assert WhiteInv(h, t) && Concerns(h, t.sid, uid, d);
      LoginNamesItsDevice(ttl, events, n, t.sid);
    }
  }

  /** Not so when the device is used for two logins: from every reachable
      state, the first one's session outlives the revocation. */
  lemma SecondLoginShieldsTheFirst(ttl: TTL, events: seq<Event>, p: LoginParams, q: LoginParams, t0: int, t1: int, t2: int)
    requires Run(ttl, events).Some? && p.fingerprint.Some? && q.fingerprint == p.fingerprint && q.uid == p.uid
    requires t2 < t0 + ttl.white
    ensures var (m1, c1) := LoggedIn(ttl, Run(ttl, events).value.m, p, t0);
      var (m2, c2) := LoggedIn(ttl, m1, q, t1);
      var d := m2.devices[p.fingerprint.value];
      && (p.uid, d) in m2.rows
      && Holds(RevokedDevice(m2, p.uid, d, t2).white, c1.session, t2)
      && !Holds(RevokedDevice(m2, p.uid, d, t2).white, c2.session, t2)
  {
    var m := Run(ttl, events).value.m;
    LoginWritesRow(ttl, m, p, t0);
    LoginWritesRow(ttl, LoggedIn(ttl, m, p, t0).0, q, t1);
  }

  /** A login on a device and a refresh of it, from every reachable state:
      revoking the device stops the refreshed session if and only if the
      caller's Extra left the claim alone or put the same device there. */
  lemma ReplacedClaimEscapesIff(ttl: TTL, events: seq<Event>, p: LoginParams, t0: int, t1: int, t2: int)
    requires Run(ttl, events).Some? && p.fingerprint.Some? && t1 <= t2 < t1 + ttl.white
    ensures var (m1, c1) := LoggedIn(ttl, Run(ttl, events).value.m, p, t0);
      var (m2, c2) := Refreshed(ttl, m1, c1, t1);
      var d := m1.devices[p.fingerprint.value];
      && (p.uid, d) in m2.rows
      && (!Holds(RevokedDevice(m2, p.uid, d, t2).white, c2.session, t2) <==> p.override.None? || p.override.value == Some(d))
  {
    LoginWritesRow(ttl, Run(ttl, events).value.m, p, t0);
  }
}
