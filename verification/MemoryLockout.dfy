/** What the memory tracker answers over whole runs in which a failure is
    tracked only after IsLocked answered false, as Authenticate does
    (internal/core/service/auth.go:112-168). The cleaner may run anywhere. */
module MemoryLockout {
  import opened Wrappers
  import opened FailureLog
  import opened MemoryAttemptTracker

  datatype Event = IsLocked(time: int) | Track(time: int) | Reset(time: int) | Cleanup(time: int)

  /** `ready` says that IsLocked answered false and no Track or Reset followed
      yet. `answers` collects what IsLocked said; `log` is the history. */
  datatype State = State(slot: Slot, ready: bool, answers: seq<bool>, log: Log)

  const START := State(None, false, [], [])

  function Apply(c: Config, s: State, e: Event): State {
    match e
    case IsLocked(t) =>
      var locked := Locked(s.slot, t);
      s.(slot := Checked(s.slot, t), ready := !locked, answers := s.answers + [locked])
    case Track(t) => s.(slot := Some(Tracked(c, s.slot, t)), ready := false, log := s.log + [Failure(t)])
    case Reset(t) => s.(slot := WasReset(s.slot), ready := false, log := s.log + [Cleared(t)])
    case Cleanup(t) => s.(slot := Cleaned(c, s.slot, t))
  }

  function Exec(c: Config, events: seq<Event>): State {
    if events == [] then START else Apply(c, Exec(c, events[..|events| - 1]), events[|events| - 1])
  }

  ghost predicate InOrder(events: seq<Event>) {
    forall i, j :: 0 <= i < j < |events| ==> events[i].time <= events[j].time
  }

  /** Every Track follows an IsLocked that answered false. */
  predicate Disciplined(c: Config, events: seq<Event>) {
    events == [] ||
    (Disciplined(c, events[..|events| - 1]) &&
     (events[|events| - 1].Track? ==> Exec(c, events[..|events| - 1]).ready))
  }

  // The reference: lockout decided by the history alone.

  /** Failures that count together with failure i: each within the counter's
      time to live of the next, no reset and no lock among them. */
  function Streak(c: Config, log: Log): nat {
    if log == [] || log[|log| - 1].Cleared? then 0
    else
      var init := log[..|log| - 1];
      if init != [] && log[|log| - 1].time - init[|init| - 1].time <= c.ttl && Streak(c, init) < c.threshold
      then Streak(c, init) + 1 else 1
  }

  predicate LockedRef(c: Config, log: Log, now: int) {
    log != [] && Streak(c, log) >= Effective(c.threshold) && now <= log[|log| - 1].time + c.lockout
  }

  /** The stored state agrees with the history at time `now`. */
  ghost predicate Agrees(c: Config, s: State, now: int) {
    var n := |s.log|;
    var streak := Streak(c, s.log);
    var locking := streak >= Effective(c.threshold);
    && Ordered(s.log)
    && (n > 0 ==> s.log[n - 1].time <= now)
    && (if n == 0 || s.log[n - 1].Cleared? then
          s.slot.Some? ==> s.slot.value == FRESH
        else
          var last := s.log[n - 1].time;
          match s.slot
          case None => now > last + c.ttl && (locking ==> now > last + c.lockout)
          case Some(a) =>
            && a.lastAttempt == Some(last)
            && ((a.attempts == streak && a.lockedUntil == if locking then Some(last + c.lockout) else None) ||
                (a.attempts == 0 && a.lockedUntil == None && locking && now > last + c.lockout)))
    && (s.ready ==> s.slot.Some? ==> s.slot.value.lockedUntil.None?)
  }

  lemma {:induction false} ExecAgrees(c: Config, events: seq<Event>)
    requires InOrder(events) && Disciplined(c, events) && events != []
    ensures Agrees(c, Exec(c, events), events[|events| - 1].time)
  {
    var n := |events| - 1;
    var s := Exec(c, events[..n]);
    var e := events[n];
    if n == 0 {
    } else {
      ExecAgrees(c, events[..n]);
    }
    StepAgrees(c, s, e, if n > 0 then events[n - 1].time else e.time);
  }

  lemma StreakGrows(c: Config, log: Log, t: int)
    ensures Streak(c, log + [Failure(t)]) ==
            if log != [] && t - log[|log| - 1].time <= c.ttl && Streak(c, log) < c.threshold then Streak(c, log) + 1 else 1
    ensures Streak(c, log + [Cleared(t)]) == 0
  {
  }

  lemma TrackAgrees(c: Config, s: State, t: int, before: int)
    requires Agrees(c, s, before) && before <= t && s.ready
    ensures Agrees(c, Apply(c, s, Track(t)), t)
  {
    StreakGrows(c, s.log, t);
  }

  lemma ResetAgrees(c: Config, s: State, t: int, before: int)
    requires Agrees(c, s, before) && before <= t
    ensures Agrees(c, Apply(c, s, Reset(t)), t)
  {
    StreakGrows(c, s.log, t);
  }

  lemma CheckAgrees(c: Config, s: State, t: int, before: int)
    requires Agrees(c, s, before) && before <= t
    ensures Agrees(c, Apply(c, s, IsLocked(t)), t)
  {
  }

  lemma CleanupAgrees(c: Config, s: State, t: int, before: int)
    requires Agrees(c, s, before) && before <= t
    ensures Agrees(c, Apply(c, s, Cleanup(t)), t)
  {
  }

  lemma StepAgrees(c: Config, s: State, e: Event, before: int)
    requires Agrees(c, s, before) && before <= e.time
    requires e.Track? ==> s.ready
    ensures Agrees(c, Apply(c, s, e), e.time)
  {
    match e
    case Track(t) => TrackAgrees(c, s, t, before);
    case Reset(t) => ResetAgrees(c, s, t, before);
    case IsLocked(t) => CheckAgrees(c, s, t, before);
    case Cleanup(t) => CleanupAgrees(c, s, t, before);
  }

  /** After any such run, IsLocked answers exactly what the history says. */
  lemma AnswerIsHistory(c: Config, events: seq<Event>, now: int)
    requires InOrder(events) && Disciplined(c, events)
    requires events != [] ==> events[|events| - 1].time <= now
    ensures Locked(Exec(c, events).slot, now) <==> LockedRef(c, Exec(c, events).log, now)
  {
    if events != [] {
      ExecAgrees(c, events);
    }
  }

  // What follows from the history alone.

  /** Failure i comes when the history before it does not lock. */
  ghost predicate AdmittedAt(c: Config, log: Log, i: nat)
    requires i < |log|
  {
    log[i].Failure? ==> !LockedRef(c, log[..i], log[i].time)
  }

  ghost predicate Admissible(c: Config, log: Log) {
    Ordered(log) && forall i :: 0 <= i < |log| ==> AdmittedAt(c, log, i)
  }

  lemma {:induction false} DisciplineAdmits(c: Config, events: seq<Event>)
    requires InOrder(events) && Disciplined(c, events)
    ensures var s := Exec(c, events);
      Admissible(c, s.log) &&
      (s.ready && events != [] ==> !LockedRef(c, s.log, events[|events| - 1].time))
  {
    if events == [] {
    } else {
      var n := |events| - 1;
      var s, s', e := Exec(c, events[..n]), Exec(c, events), events[n];
      DisciplineAdmits(c, events[..n]);
      AnswerIsHistory(c, events[..n], e.time);
      ExecAgrees(c, events);
      forall i | 0 <= i < |s'.log|
        ensures AdmittedAt(c, s'.log, i)
      {
        assert s'.log[..i] == s.log[..i];
        assert i < |s.log| ==> AdmittedAt(c, s.log, i);
        if i == |s.log| {
          assert s.log[..i] == s.log;
        }
      }
    }
  }

  /** Settings under which the bound holds: a threshold of one, or a counter
      that outlives the lock. */
  predicate Safe(c: Config) {
    Effective(c.threshold) == 1 || c.lockout <= c.ttl
  }

  /** One more failure while the history does not lock: the streak grows. */
  lemma StreakContinues(c: Config, log: Log, t: int)
    requires Safe(c) && log != [] && log[|log| - 1].time <= t <= log[|log| - 1].time + c.lockout
    requires !LockedRef(c, log, t) && 1 <= Streak(c, log) <= Effective(c.threshold)
    ensures Streak(c, log + [Failure(t)]) == Streak(c, log) + 1 <= Effective(c.threshold)
  {
    StreakGrows(c, log, t);
  }

  lemma {:induction false} StretchStreak(c: Config, log: Log, i: nat, j: nat)
    requires Admissible(c, log) && Safe(c)
    requires i < j <= |log| && NoReset(log, i, j) && log[j - 1].time - log[i].time <= c.lockout
    ensures j - i <= Streak(c, log[..j]) <= Effective(c.threshold)
  {
    var init, t := log[..j - 1], log[j - 1].time;
    assert log[..j] == init + [Failure(t)];
    if j - 1 == i {
      StreakGrows(c, init, t);
    } else {
      assert log[i].time <= log[j - 2].time <= t;
      StretchStreak(c, log, i, j - 1);
      assert AdmittedAt(c, log, j - 1);
      StreakContinues(c, init, t);
    }
  }

  ghost predicate Bounded(c: Config, log: Log) {
    AtMostWithin(log, Effective(c.threshold), c.lockout + 1)
  }

  /** No stretch that spans at most the lockout duration without a reset
      records more than threshold failures. */
  lemma LockoutBound(c: Config, events: seq<Event>)
    requires Safe(c) && InOrder(events) && Disciplined(c, events)
    ensures Bounded(c, Exec(c, events).log)
  {
    var log := Exec(c, events).log;
    DisciplineAdmits(c, events);
    forall i, j | 0 <= i < j <= |log| && NoReset(log, i, j) && log[j - 1].time - log[i].time < c.lockout + 1
      ensures j - i <= Effective(c.threshold)
    {
      StretchStreak(c, log, i, j);
    }
  }

  lemma Append(c: Config, events: seq<Event>, e: Event)
    ensures Exec(c, events + [e]) == Apply(c, Exec(c, events), e)
    ensures Disciplined(c, events + [e]) <==> Disciplined(c, events) && (e.Track? ==> Exec(c, events).ready)
  {
  }

  /** A disciplined run up to time t, and where it ends. */
  ghost predicate RunUntil(c: Config, events: seq<Event>, t: int, s: State) {
    && InOrder(events) && Disciplined(c, events) && (events != [] ==> events[|events| - 1].time <= t)
    && Exec(c, events) == s
  }

  /** One more failed login at time t. */
  lemma FailOnce(c: Config, events: seq<Event>, t: int, s: State) returns (more: seq<Event>, s': State)
    requires RunUntil(c, events, t, s) && !Locked(s.slot, t)
    ensures RunUntil(c, more, t, s') && s'.log == s.log + [Failure(t)]
    ensures s'.slot == Some(Tracked(c, Checked(s.slot, t), t))
  {
    more := events + [IsLocked(t)] + [Track(t)];
    Append(c, events, IsLocked(t));
    Append(c, events + [IsLocked(t)], Track(t));
    s' := Exec(c, more);
  }

  /** n failed logins at time t, counted together from 1 on. */
  lemma {:induction false} FailInTurn(c: Config, events: seq<Event>, t: int, s: State, n: nat) returns (more: seq<Event>, s': State)
    requires RunUntil(c, events, t, s) && 0 < n <= c.threshold
    requires s.slot.None? ||
             (s.slot.value.lockedUntil.None? && s.slot.value.lastAttempt.Some? && t - s.slot.value.lastAttempt.value > c.ttl)
    ensures RunUntil(c, more, t, s') && s'.log == s.log + Burst(t, n)
    ensures s'.slot == Some(Attempts(n, if n >= c.threshold then Some(t + c.lockout) else None, Some(t)))
  {
    BurstGrows(s.log, t, n);
    if n == 1 {
      more, s' := FailOnce(c, events, t, s);
      assert s.log + Burst(t, 0) == s.log;
    } else {
      more, s' := FailInTurn(c, events, t, s, n - 1);
      more, s' := FailOnce(c, more, t, s');
    }
  }

  /** A counter that does not outlive the lock forgets one failure in time for
      threshold more. */
  lemma ShortCounterBreaks(c: Config) returns (events: seq<Event>)
    requires !Safe(c)
    ensures InOrder(events) && Disciplined(c, events) && !Bounded(c, Exec(c, events).log)
  {
    var s;
    events, s := FailInTurn(c, [], 0, START, 1);
    events, s := FailInTurn(c, events, c.ttl + 1, s, c.threshold);
    assert s.log[1..] == Burst(c.ttl + 1, c.threshold);
    BurstExceeds(s.log, 0, c.ttl + 1, c.threshold, c.lockout + 1);
  }

  ghost predicate BoundedAlways(c: Config) {
    forall events :: InOrder(events) && Disciplined(c, events) ==> Bounded(c, Exec(c, events).log)
  }

  /** Every run, with the cleaner anywhere in it, keeps the bound if and only
      if the threshold is 1 or the counter outlives the lock. */
  lemma LockoutBoundIff(c: Config)
    ensures BoundedAlways(c) <==> Safe(c)
  {
    if Safe(c) {
      forall events | InOrder(events) && Disciplined(c, events)
        ensures Bounded(c, Exec(c, events).log)
      {
        LockoutBound(c, events);
      }
    } else {
      var events := ShortCounterBreaks(c);
    }
  }
}
