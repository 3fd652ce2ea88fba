/** What the memory tracker's cleaner changes: nothing that IsLocked answers,
    if failures are tracked only after asking, or if one failure locks. */
module MemoryCleaner {
  import opened Wrappers
  import opened FailureLog
  import opened MemoryAttemptTracker
  import opened MemoryLockout

  function WithoutCleanup(events: seq<Event>): seq<Event> {
    if events == [] then []
    else
      var rest := WithoutCleanup(events[..|events| - 1]);
      if events[|events| - 1].Cleanup? then rest else rest + [events[|events| - 1]]
  }

  lemma {:induction false} WithoutCleanupInOrder(events: seq<Event>)
    requires InOrder(events)
    ensures InOrder(WithoutCleanup(events))
    ensures forall e :: e in WithoutCleanup(events) ==> e in events
  {
    if events == [] {
    } else {
      var n := |events| - 1;
      WithoutCleanupInOrder(events[..n]);
      var rest := WithoutCleanup(events[..n]);
      forall i | 0 <= i < |rest|
        ensures rest[i].time <= events[n].time
      {
        assert rest[i] in events[..n];
      }
    }
  }

  ghost predicate Alike(s: State, p: State) {
    p.answers == s.answers && p.log == s.log && p.ready == s.ready
  }

  lemma AlikeStep(c: Config, s: State, p: State, e: Event)
    requires Alike(s, p) && (Locked(s.slot, e.time) <==> Locked(p.slot, e.time))
    ensures Alike(Apply(c, s, e), if e.Cleanup? then p else Apply(c, p, e))
  {
  }

  /** Taking every run of the cleaner out of a run changes none of IsLocked's
      answers, nor the history, nor when a Track is allowed. */
  lemma {:induction false} CleanupInvisible(c: Config, events: seq<Event>)
    requires InOrder(events) && Disciplined(c, events)
    ensures Disciplined(c, WithoutCleanup(events))
    ensures Alike(Exec(c, events), Exec(c, WithoutCleanup(events)))
  {
    if events == [] {
    } else {
      var n := |events| - 1;
      var e := events[n];
      var rest := WithoutCleanup(events[..n]);
      CleanupInvisible(c, events[..n]);
      WithoutCleanupInOrder(events[..n]);
      assert rest != [] ==> rest[|rest| - 1] in events[..n];
      AnswerIsHistory(c, events[..n], e.time);
      AnswerIsHistory(c, rest, e.time);
      AlikeStep(c, Exec(c, events[..n]), Exec(c, rest), e);
      Append(c, rest, e);
    }
  }

  /** From then on both runs answer alike at every moment: the lock ends at
      the same time. */
  lemma CleanupKeepsLockTime(c: Config, events: seq<Event>, now: int)
    requires InOrder(events) && Disciplined(c, events)
    requires events != [] ==> events[|events| - 1].time <= now
    ensures Locked(Exec(c, WithoutCleanup(events)).slot, now) <==> Locked(Exec(c, events).slot, now)
  {
    CleanupInvisible(c, events);
    WithoutCleanupInOrder(events);
    var plain := WithoutCleanup(events);
    assert plain != [] ==> plain[|plain| - 1] in events;
    AnswerIsHistory(c, events, now);
    AnswerIsHistory(c, plain, now);
  }

  /** A cleanup leaves an entry exactly as long as its user is locked or failed
      within the counter's time to live: no entry stays for ever. */
  lemma CleanupLeavesIff(c: Config, events: seq<Event>, now: int)
    requires InOrder(events) && Disciplined(c, events) && (events != [] ==> events[|events| - 1].time <= now)
    ensures var s := Exec(c, events); var n := |s.log|;
      Cleaned(c, s.slot, now).Some? <==>
        s.slot.Some? && (Locked(s.slot, now) || (n > 0 && s.log[n - 1].Failure? && now - s.log[n - 1].time <= c.ttl))
  {
    if events != [] {
      ExecAgrees(c, events);
    }
  }

  // Runs that track without asking.

  ghost predicate CleanupInvisibleAlways(c: Config) {
    forall events :: InOrder(events) ==> Exec(c, events).answers == Exec(c, WithoutCleanup(events)).answers
  }

  /** Both trackers are locked at the same moments from `now` on. */
  ghost predicate LockedAlike(s: Slot, p: Slot, now: int) {
    forall t :: now <= t ==> (Locked(s, t) <==> Locked(p, t))
  }

  lemma LockedAlikeStep(c: Config, s: State, p: State, e: Event, before: int)
    requires Effective(c.threshold) == 1 && before <= e.time
    requires s.answers == p.answers && LockedAlike(s.slot, p.slot, before)
    ensures var s', p' := Apply(c, s, e), if e.Cleanup? then p else Apply(c, p, e);
      s'.answers == p'.answers && LockedAlike(s'.slot, p'.slot, e.time)
  {
  }

  lemma {:induction false} OneFailureHidesTheCleaner(c: Config, events: seq<Event>)
    requires Effective(c.threshold) == 1 && InOrder(events)
    ensures var s, p := Exec(c, events), Exec(c, WithoutCleanup(events));
      s.answers == p.answers && (events != [] ==> LockedAlike(s.slot, p.slot, events[|events| - 1].time))
  {
    if events == [] {
    } else {
      var n := |events| - 1;
      OneFailureHidesTheCleaner(c, events[..n]);
      var rest := WithoutCleanup(events[..n]);
      LockedAlikeStep(c, Exec(c, events[..n]), Exec(c, rest), events[n], if n > 0 then events[n - 1].time else events[n].time);
      Append(c, rest, events[n]);
    }
  }

  /** A run in order up to time t, and where it ends with and without its
      cleanups. */
  ghost predicate Pair(c: Config, events: seq<Event>, t: int, s: State, p: State) {
    && InOrder(events) && (events != [] ==> events[|events| - 1].time <= t)
    && Exec(c, events) == s && Exec(c, WithoutCleanup(events)) == p
  }

  lemma LaterInOrder(events: seq<Event>, e: Event)
    requires InOrder(events) && (events != [] ==> events[|events| - 1].time <= e.time)
    ensures InOrder(events + [e])
  {
  }

  lemma ExtendPair(c: Config, events: seq<Event>, t: int, s: State, p: State, e: Event)
    requires Pair(c, events, t, s, p) && t <= e.time
    ensures Pair(c, events + [e], e.time, Apply(c, s, e), if e.Cleanup? then p else Apply(c, p, e))
  {
    LaterInOrder(events, e);
    Append(c, events, e);
    Append(c, WithoutCleanup(events), e);
    assert (events + [e])[..|events|] == events;
  }

  /** n failures at time t on top of a count that is still good at t. */
  function Counted(c: Config, s: Slot, t: int, n: nat): Slot {
    if n == 0 then s else Some(Tracked(c, Counted(c, s, t, n - 1), t))
  }

  lemma {:induction false} CountedTo(c: Config, s: Slot, t: int, n: nat)
    requires n > 0 && (s.Some? ==> s.value.lastAttempt == Some(t))
    ensures var a := if s.Some? then s.value else FRESH;
      Counted(c, s, t, n) ==
      Some(Attempts(a.attempts + n, if a.attempts + n >= c.threshold then Some(t + c.lockout) else a.lockedUntil, Some(t)))
  {
    if n == 1 {
      assert Counted(c, s, t, 0) == s;
    } else {
      CountedTo(c, s, t, n - 1);
    }
  }

  lemma {:induction false} TrackMany(c: Config, events: seq<Event>, t: int, s: State, p: State, n: nat)
    returns (more: seq<Event>, s': State, p': State)
    requires Pair(c, events, t, s, p)
    ensures Pair(c, more, t, s', p') && s'.answers == s.answers && p'.answers == p.answers
    ensures s'.slot == Counted(c, s.slot, t, n) && p'.slot == Counted(c, p.slot, t, n)
  {
    if n == 0 {
      more, s', p' := events, s, p;
    } else {
      more, s', p' := TrackMany(c, events, t, s, p, n - 1);
      ExtendPair(c, more, t, s', p', Track(t));
      more, s', p' := more + [Track(t)], Apply(c, s', Track(t)), Apply(c, p', Track(t));
    }
  }

  /** threshold failures at time 0, and the cleaner once lock and count are over. */
  lemma LockAndClean(c: Config) returns (events: seq<Event>, s: State, p: State)
    requires Effective(c.threshold) >= 2
    ensures Pair(c, events, c.ttl + c.lockout + 1, s, p) && s.answers == p.answers == []
    ensures s.slot == None && p.slot == Some(Attempts(c.threshold, Some(c.lockout), Some(0)))
  {
    var x := c.ttl + c.lockout + 1;
    events, s, p := TrackMany(c, [], 0, START, START, c.threshold);
    CountedTo(c, None, 0, c.threshold);
    ExtendPair(c, events, 0, s, p, Cleanup(x));
    events, s := events + [Cleanup(x)], Apply(c, s, Cleanup(x));
  }

  /** One more failure, tracked without asking, and then an IsLocked: the
      cleaned tracker counted afresh; the other one kept the lock time that
      ran out, takes the fresh count for an old one and clears it. */
  lemma StaleLockClears(c: Config) returns (events: seq<Event>, s: State, p: State)
    requires Effective(c.threshold) >= 2
    ensures Pair(c, events, c.ttl + c.lockout + 1, s, p) && s.answers == p.answers == [false]
    ensures s.slot == Some(Attempts(1, None, Some(c.ttl + c.lockout + 1)))
    ensures p.slot == Some(Attempts(0, None, Some(c.ttl + c.lockout + 1)))
  {
    var x := c.ttl + c.lockout + 1;
    events, s, p := LockAndClean(c);
    ExtendPair(c, events, x, s, p, Track(x));
    events, s, p := events + [Track(x)], Apply(c, s, Track(x)), Apply(c, p, Track(x));
    ExtendPair(c, events, x, s, p, IsLocked(x));
    events, s, p := events + [IsLocked(x)], Apply(c, s, IsLocked(x)), Apply(c, p, IsLocked(x));
  }

  /** threshold - 1 further failures then lock the cleaned tracker only. */
  lemma CleanupShows(c: Config) returns (events: seq<Event>)
    requires Effective(c.threshold) >= 2
    ensures InOrder(events) && Exec(c, events).answers == [false, true]
    ensures Exec(c, WithoutCleanup(events)).answers == [false, false]
  {
    var x := c.ttl + c.lockout + 1;
    var s, p;
    events, s, p := StaleLockClears(c);
    CountedTo(c, s.slot, x, c.threshold - 1);
    CountedTo(c, p.slot, x, c.threshold - 1);
    events, s, p := TrackMany(c, events, x, s, p, c.threshold - 1);
    ExtendPair(c, events, x, s, p, IsLocked(x));
    events := events + [IsLocked(x)];
  }

  /** The cleaner changes no answer of any run, asked first or not, if and
      only if a single failure locks. */
  lemma CleanupInvisibleIff(c: Config)
    ensures CleanupInvisibleAlways(c) <==> Effective(c.threshold) == 1
  {
    if Effective(c.threshold) == 1 {
      forall events | InOrder(events)
        ensures Exec(c, events).answers == Exec(c, WithoutCleanup(events)).answers
      {
        OneFailureHidesTheCleaner(c, events);
      }
    } else {
      var events := CleanupShows(c);
      assert [false, true][1] != [false, false][1];
    }
  }
}
