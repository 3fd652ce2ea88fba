/** internal/adapter/security/attempt_tracker_redis.go: a counter key and a
    lock key per user, both with a time to live. */
module RedisAttemptTracker {
  import opened Wrappers
  import opened FailureLog

  /** INCR creates the counter without a deadline; EXPIRE gives it one. */
  datatype Counter = Counter(count: nat, deadline: Option<int>)

  /** The two keys of one user as the server stores them. */
  datatype Keys = Keys(counter: Option<Counter>, lock: Option<int>)

  const NO_KEYS := Keys(None, None)

  /** A key is there until its deadline is reached. */
  predicate CounterLive(k: Keys, now: int) {
    k.counter.Some? && (k.counter.value.deadline.None? || now < k.counter.value.deadline.value)
  }

  predicate Locked(k: Keys, now: int) {
    k.lock.Some? && now < k.lock.value
  }

  function Count(k: Keys, now: int): nat {
    if CounterLive(k, now) then k.counter.value.count else 0
  }

  // The Redis commands.

  function Incr(k: Keys, now: int): Keys {
    k.(counter := Some(Counter(Count(k, now) + 1,
                               if CounterLive(k, now) then k.counter.value.deadline else None)))
  }

  function Expire(c: Config, k: Keys, now: int): Keys {
    if CounterLive(k, now) then k.(counter := Some(k.counter.value.(deadline := Some(now + c.ttl)))) else k
  }

  function SetLock(c: Config, k: Keys, now: int): Keys {
    k.(lock := Some(now + c.lockout))
  }

  /** Track with its commands issued in one instant. */
  function Tracked(c: Config, k: Keys, now: int): Keys {
    var k1 := Expire(c, Incr(k, now), now);
    if Count(k, now) + 1 >= c.threshold then SetLock(c, k1, now) else k1
  }

  class RedisAttemptTracker {
    const cfg: Config
    var counters: map<string, Counter>
    var locks: map<string, int>

    ghost function KeysOf(user: string): Keys
      reads this
    {
      Keys(if user in counters then Some(counters[user]) else None,
           if user in locks then Some(locks[user]) else None)
    }

    ghost predicate OthersAs(user: string, counters0: map<string, Counter>, locks0: map<string, int>)
      reads this
    {
      && (forall u :: u != user ==> (u in counters <==> u in counters0) && (u in counters ==> counters[u] == counters0[u]))
      && (forall u :: u != user ==> (u in locks <==> u in locks0) && (u in locks ==> locks[u] == locks0[u]))
    }

    constructor (cfg: Config)
      ensures this.cfg == cfg
      ensures forall u :: KeysOf(u) == NO_KEYS
    {
      this.cfg := cfg;
      counters, locks := map[], map[];
    }

    /** Returns true when the caller is told the account is now locked. */
    method Track(user: string, now: int) returns (locked: bool)
      modifies this
      ensures KeysOf(user) == Tracked(cfg, old(KeysOf(user)), now)
      ensures OthersAs(user, old(counters), old(locks))
      ensures locked <==> Count(old(KeysOf(user)), now) + 1 >= cfg.threshold
    {
      var live := user in counters && (counters[user].deadline.None? || now < counters[user].deadline.value);
      var count := if live then counters[user].count + 1 else 1;
      counters := counters[user := Counter(count, if live then counters[user].deadline else None)];
      counters := counters[user := counters[user].(deadline := Some(now + cfg.ttl))];
      locked := count >= cfg.threshold;
      if locked {
        locks := locks[user := now + cfg.lockout];
      }
    }

    method IsLocked(user: string, now: int) returns (locked: bool)
      ensures locked <==> Locked(KeysOf(user), now)
    {
      locked := user in locks && now < locks[user];
    }

    method Reset(user: string)
      modifies this
      ensures KeysOf(user) == NO_KEYS
      ensures OthersAs(user, old(counters), old(locks))
    {
      counters := counters - {user};
      locks := locks - {user};
    }
  }

  // What the keys mean, from the history alone.

  /** The keys after a history of Track and Reset calls. */
  function Replay(c: Config, log: Log): Keys {
    if log == [] then NO_KEYS
    else
      var last := log[|log| - 1];
      if last.Cleared? then NO_KEYS else Tracked(c, Replay(c, log[..|log| - 1]), last.time)
  }

  /** Failures up to and including entry i that follow each other by less than
      the counter's time to live, with no reset among them. */
  function Streak(c: Config, log: Log, i: nat): nat
    requires i < |log|
  {
    if log[i].Cleared? then 0
    else if i > 0 && log[i - 1].Failure? && log[i].time < log[i - 1].time + c.ttl then 1 + Streak(c, log, i - 1)
    else 1
  }

  /** Failure i still keeps the account locked at `now`. */
  ghost predicate LockedBy(c: Config, log: Log, i: nat, now: int)
    requires i < |log|
  {
    && NoReset(log, i, |log|)
    && Streak(c, log, i) >= c.threshold
    && now < log[i].time + c.lockout
  }

  lemma {:induction false} StreakOfPrefix(c: Config, log: Log, n: nat, i: nat)
    requires i < n <= |log|
    ensures Streak(c, log[..n], i) == Streak(c, log, i)
  {
    if i == 0 {
    } else {
      StreakOfPrefix(c, log, n, i - 1);
    }
  }

  /** The counter holds exactly the current streak, as long as it may grow. */
  lemma {:induction false} CountIsStreak(c: Config, log: Log, now: int)
    requires Ordered(log)
    requires log != [] ==> log[|log| - 1].time <= now
    ensures Count(Replay(c, log), now) ==
            if log != [] && log[|log| - 1].Failure? && now < log[|log| - 1].time + c.ttl
            then Streak(c, log, |log| - 1) else 0
  {
    if log != [] && log[|log| - 1].Failure? {
      var n := |log| - 1;
      CountIsStreak(c, log[..n], log[n].time);
      if n > 0 {
        StreakOfPrefix(c, log, n, n - 1);
      }
    }
  }

  lemma StreakCounts(c: Config, log: Log)
    requires Ordered(log) && log != [] && log[|log| - 1].Failure?
    ensures var n := |log| - 1;
      Streak(c, log, n) == Count(Replay(c, log[..n]), log[n].time) + 1
  {
    var n := |log| - 1;
    CountIsStreak(c, log[..n], log[n].time);
    if n > 0 {
      StreakOfPrefix(c, log, n, n - 1);
    }
  }

  ghost predicate SomeLock(c: Config, log: Log, now: int) {
    exists i :: 0 <= i < |log| && LockedBy(c, log, i, now)
  }

  lemma LockedByOfPrefix(c: Config, log: Log, i: nat, now: int)
    requires log != [] && log[|log| - 1].Failure? && i < |log| - 1
    ensures LockedBy(c, log, i, now) <==> LockedBy(c, log[..|log| - 1], i, now)
  {
    StreakOfPrefix(c, log, |log| - 1, i);
  }

  /** One more failure locks if its streak is long enough, and otherwise
      changes nothing about locks. */
  lemma SomeLockStep(c: Config, log: Log, now: int)
    requires Ordered(log) && log != [] && log[|log| - 1].Failure?
    ensures SomeLock(c, log, now) <==>
            if Streak(c, log, |log| - 1) >= c.threshold then now < log[|log| - 1].time + c.lockout
            else SomeLock(c, log[..|log| - 1], now)
  {
    var n := |log| - 1;
    forall i | 0 <= i < n
      ensures LockedBy(c, log, i, now) <==> LockedBy(c, log[..n], i, now)
    {
      LockedByOfPrefix(c, log, i, now);
    }
    if SomeLock(c, log[..n], now) {
      var i :| 0 <= i < n && LockedBy(c, log[..n], i, now);
      assert LockedBy(c, log, i, now) && log[i].time <= log[n].time;
    }
    assert LockedBy(c, log, n, now) <==> (Streak(c, log, n) >= c.threshold && now < log[n].time + c.lockout);
  }

  /** IsLocked answers true exactly while some failure that ended a streak of
      at least `threshold`, and was not cleared since, is younger than the
      lockout duration. */
  lemma {:induction false} LockedExactly(c: Config, log: Log, now: int)
    requires Ordered(log)
    requires log != [] ==> log[|log| - 1].time <= now
    ensures Locked(Replay(c, log), now) <==> SomeLock(c, log, now)
  {
    if log == [] {
    } else {
      var n := |log| - 1;
      if log[n].Failure? {
        StreakCounts(c, log);
        SomeLockStep(c, log, now);
        LockedExactly(c, log[..n], now);
      }
    }
  }
}
