/** internal/adapter/security/attempt_tracker_memory.go: one state per user in
    a map, and a cleaner that drops states nobody needs any more. */
module MemoryAttemptTracker {
  import opened Wrappers
  import opened FailureLog

  /** None stands for the zero time. */
  datatype Attempts = Attempts(attempts: nat, lockedUntil: Option<int>, lastAttempt: Option<int>)

  const FRESH := Attempts(0, None, None)

  /** A user's entry in the map, if there is one. */
  type Slot = Option<Attempts>

  function Tracked(c: Config, s: Slot, now: int): Attempts {
    var a := if s.Some? then s.value else FRESH;
    var stale := a.lastAttempt.Some? && now - a.lastAttempt.value > c.ttl;
    var n := (if stale then 0 else a.attempts) + 1;
    Attempts(n, if n >= c.threshold then Some(now + c.lockout) else a.lockedUntil, Some(now))
  }

  predicate Locked(s: Slot, now: int) {
    s.Some? && s.value.lockedUntil.Some? && now <= s.value.lockedUntil.value
  }

  /** IsLocked clears a lock that has run out, and the count with it. */
  function Checked(s: Slot, now: int): Slot {
    if s.Some? && s.value.lockedUntil.Some? && now > s.value.lockedUntil.value
    then Some(s.value.(attempts := 0, lockedUntil := None)) else s
  }

  function WasReset(s: Slot): Slot {
    if s.Some? then Some(FRESH) else s
  }

  predicate Droppable(c: Config, a: Attempts, now: int) {
    && (a.lockedUntil.None? || now > a.lockedUntil.value)
    && (a.lastAttempt.None? || now - a.lastAttempt.value > c.ttl)
  }

  function Cleaned(c: Config, s: Slot, now: int): Slot {
    if s.Some? && Droppable(c, s.value, now) then None else s
  }

  class MemoryAttemptTracker {
    const cfg: Config
    var users: map<string, Attempts>

    ghost function SlotOf(user: string): Slot
      reads this
    {
      if user in users then Some(users[user]) else None
    }

    constructor (cfg: Config)
      ensures this.cfg == cfg && users == map[]
    {
      this.cfg, users := cfg, map[];
    }

    /** Returns true when the caller is told the account is now locked. */
    method Track(user: string, now: int) returns (locked: bool)
      modifies this
      ensures users == old(users)[user := Tracked(cfg, old(SlotOf(user)), now)]
      ensures locked <==> users[user].attempts >= cfg.threshold
    {
      if user !in users {
        users := users[user := FRESH];
      }
      var a := users[user];
      if a.lastAttempt.Some? && now - a.lastAttempt.value > cfg.ttl {
        a := a.(attempts := 0);
      }
      a := a.(attempts := a.attempts + 1, lastAttempt := Some(now));
      locked := a.attempts >= cfg.threshold;
      if locked {
        a := a.(lockedUntil := Some(now + cfg.lockout));
      }
      users := users[user := a];
    }

    method IsLocked(user: string, now: int) returns (locked: bool)
      modifies this
      ensures locked <==> Locked(old(SlotOf(user)), now)
      ensures SlotOf(user) == Checked(old(SlotOf(user)), now)
      ensures forall u :: u != user ==> SlotOf(u) == old(SlotOf(u))
    {
      if user !in users || users[user].lockedUntil.None? {
        return false;
      }
      if now > users[user].lockedUntil.value {
        users := users[user := users[user].(attempts := 0, lockedUntil := None)];
        return false;
      }
      return true;
    }

    method Reset(user: string)
      modifies this
      ensures SlotOf(user) == WasReset(old(SlotOf(user)))
      ensures forall u :: u != user ==> SlotOf(u) == old(SlotOf(u))
    {
      if user in users {
        users := users[user := FRESH];
      }
    }

    method Cleanup(now: int)
      modifies this
      ensures forall u :: SlotOf(u) == Cleaned(cfg, old(SlotOf(u)), now)
    {
      var pending := users.Keys;
      while pending != {}
        invariant pending <= old(users).Keys
        invariant forall u :: u in pending ==> SlotOf(u) == old(SlotOf(u))
        invariant forall u :: u !in pending ==> SlotOf(u) == Cleaned(cfg, old(SlotOf(u)), now)
      {
        var user :| user in pending;
        var a := users[user];
        var lockoutExpired := a.lockedUntil.None? || now > a.lockedUntil.value;
        var counterExpired := a.lastAttempt.None? || now - a.lastAttempt.value > cfg.ttl;
        if lockoutExpired && counterExpired {
          users := users - {user};
        }
        pending := pending - {user};
      }
    }
  }
}
