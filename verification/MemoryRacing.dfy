/** Logins of one user racing on the memory attempt tracker
    (internal/core/service/auth.go:112-168). Its mutexes make every call one
    step; the scheduler interleaves the calls of different logins, the cleaner
    and the passing of time. */
module MemoryRacing {
  import opened Wrappers
  import opened FailureLog
  import opened MemoryAttemptTracker
  import opened Sets
  import Sequential = MemoryLockout

  /** `passed` are the logins that IsLocked let through and that have not
      tracked or reset yet. `log` is the history; no call reads it. */
  datatype State = State(now: int, slot: Slot, passed: set<nat>, log: Log)

  datatype Step =
    | Tick(d: nat)
    | Check(id: nat)    // IsLocked
    | Fail(id: nat)     // wrong password: Track
    | Succeed(id: nat)  // right password: Reset
    | Clean             // cleanup

  function Init(t0: int): State {
    State(t0, None, {}, [])
  }

  /** At most k logins are past IsLocked at a time. */
  predicate Enabled(k: nat, s: State, step: Step) {
    match step
    case Tick(_) => true
    case Check(id) => id !in s.passed && (!Locked(s.slot, s.now) ==> |s.passed| < k)
    case Fail(id) => id in s.passed
    case Succeed(id) => id in s.passed
    case Clean => true
  }

  function Apply(c: Config, s: State, step: Step): State {
    match step
    case Tick(d) => s.(now := s.now + d)
    case Check(id) =>
      s.(slot := Checked(s.slot, s.now), passed := if Locked(s.slot, s.now) then s.passed else s.passed + {id})
    case Fail(id) =>
      s.(slot := Some(Tracked(c, s.slot, s.now)), passed := s.passed - {id}, log := s.log + [Failure(s.now)])
    case Succeed(id) => s.(slot := WasReset(s.slot), passed := s.passed - {id}, log := s.log + [Cleared(s.now)])
    case Clean => s.(slot := Cleaned(c, s.slot, s.now))
  }

  /** Where a run ends; None if some step was not enabled. */
  function Run(c: Config, k: nat, t0: int, steps: seq<Step>): Option<State> {
    if steps == [] then Some(Init(t0))
    else
      var before := Run(c, k, t0, steps[..|steps| - 1]);
      var step := steps[|steps| - 1];
      if before.Some? && Enabled(k, before.value, step) then Some(Apply(c, before.value, step)) else None
  }

  ghost predicate Bounded(c: Config, k: nat, log: Log) {
    AtMostWithin(log, Effective(c.threshold) + k - 1, c.lockout + 1)
  }

  // A threshold of one: every failure locks.

  /** A recent failure still locks, and with those after it and the logins
      that may still fail it makes k at most. */
  ghost predicate RecentAt(c: Config, k: nat, s: State, i: nat)
    requires i < |s.log|
  {
    NoReset(s.log, i, |s.log|) && s.log[i].time + c.lockout >= s.now ==>
      && s.slot.Some? && s.slot.value.lockedUntil.Some? && s.slot.value.lockedUntil.value >= s.log[i].time + c.lockout
      && |s.log| - i + |s.passed| <= k
  }

  ghost predicate OneInv(c: Config, k: nat, s: State) {
    && |s.passed| <= k
    && Ordered(s.log) && (s.log != [] ==> s.log[|s.log| - 1].time <= s.now)
    && (forall i :: 0 <= i < |s.log| ==> RecentAt(c, k, s, i))
    && AtMostWithin(s.log, k, c.lockout + 1)
  }

  lemma OneKeepsBound(c: Config, k: nat, log: Log, e: Entry)
    requires AtMostWithin(log, k, c.lockout + 1)
    requires forall i :: e.Failure? && 0 <= i <= |log| && NoReset(log + [e], i, |log| + 1) && e.time - (log + [e])[i].time <= c.lockout
               ==> |log| + 1 - i <= k
    ensures AtMostWithin(log + [e], k, c.lockout + 1)
  {
    var log' := log + [e];
    forall i, j | 0 <= i < j <= |log'| && NoReset(log', i, j) && log'[j - 1].time - log'[i].time < c.lockout + 1
      ensures j - i <= k
    {
      if j == |log'| {
        assert log'[|log|].Failure?;
      } else {
        assert forall m :: i <= m < j ==> log[m] == log'[m];
        assert NoReset(log, i, j);
      }
    }
  }

  lemma OneFails(c: Config, k: nat, s: State, id: nat)
    requires Effective(c.threshold) == 1 && OneInv(c, k, s) && id in s.passed
    ensures OneInv(c, k, Apply(c, s, Fail(id)))
  {
    var s' := Apply(c, s, Fail(id));
    forall i | 0 <= i < |s'.log|
      ensures RecentAt(c, k, s', i)
    {
      if i < |s.log| && NoReset(s'.log, i, |s'.log|) {
        assert forall m :: i <= m < |s.log| ==> s.log[m] == s'.log[m];
        assert RecentAt(c, k, s, i);
      }
    }
    forall i | 0 <= i <= |s.log| && NoReset(s'.log, i, |s.log| + 1) && s.now - s'.log[i].time <= c.lockout
      ensures |s.log| + 1 - i <= k
    {
      assert RecentAt(c, k, s', i);
    }
    OneKeepsBound(c, k, s.log, Failure(s.now));
  }

  lemma OneSucceeds(c: Config, k: nat, s: State, id: nat)
    requires OneInv(c, k, s) && id in s.passed
    ensures OneInv(c, k, Apply(c, s, Succeed(id)))
  {
    var s' := Apply(c, s, Succeed(id));
    assert s'.log[|s.log|].Cleared?;
    OneKeepsBound(c, k, s.log, Cleared(s.now));
  }

  lemma OneKeeps(c: Config, k: nat, s: State, step: Step)
    requires Effective(c.threshold) == 1 && OneInv(c, k, s) && Enabled(k, s, step)
    ensures OneInv(c, k, Apply(c, s, step))
  {
    if step.Fail? {
      OneFails(c, k, s, step.id);
    } else if step.Succeed? {
      OneSucceeds(c, k, s, step.id);
    } else {
      var s' := Apply(c, s, step);
      forall i | 0 <= i < |s'.log|
        ensures RecentAt(c, k, s', i)
      {
        assert RecentAt(c, k, s, i);
      }
    }
  }

  lemma {:induction false} OneBound(c: Config, k: nat, t0: int, steps: seq<Step>)
    requires Effective(c.threshold) == 1 && Run(c, k, t0, steps).Some?
    ensures OneInv(c, k, Run(c, k, t0, steps).value)
  {
    if steps == [] {
    } else {
      var before := steps[..|steps| - 1];
      OneBound(c, k, t0, before);
      OneKeeps(c, k, Run(c, k, t0, before).value, steps[|steps| - 1]);
    }
  }

  // One login at a time: a disciplined sequential run.

  /** The sequential run stands where the racing one does. */
  ghost predicate Follows(c: Config, events: seq<Sequential.Event>, s: State) {
    var q := Sequential.Exec(c, events);
    && Sequential.InOrder(events) && Sequential.Disciplined(c, events)
    && (events != [] ==> events[|events| - 1].time <= s.now)
    && q.slot == s.slot && q.log == s.log
    && |s.passed| <= 1 && (s.passed != {} ==> q.ready)
  }

  lemma FollowsCheck(c: Config, events: seq<Sequential.Event>, s: State, id: nat) returns (more: seq<Sequential.Event>)
    requires Follows(c, events, s) && Enabled(1, s, Check(id))
    ensures Follows(c, more, Apply(c, s, Check(id)))
  {
    if events != [] {
      Sequential.ExecAgrees(c, events);
    }
    Sequential.Append(c, events, Sequential.IsLocked(s.now));
    more := events + [Sequential.IsLocked(s.now)];
  }

  lemma FollowsEnd(c: Config, events: seq<Sequential.Event>, s: State, id: nat, step: Step) returns (more: seq<Sequential.Event>)
    requires Follows(c, events, s) && id in s.passed && (step == Fail(id) || step == Succeed(id))
    ensures Follows(c, more, Apply(c, s, step))
  {
    var e := if step.Fail? then Sequential.Track(s.now) else Sequential.Reset(s.now);
    SameSize({id}, s.passed);
    Sequential.Append(c, events, e);
    more := events + [e];
  }

  lemma FollowsStep(c: Config, events: seq<Sequential.Event>, s: State, step: Step) returns (more: seq<Sequential.Event>)
    requires Follows(c, events, s) && Enabled(1, s, step)
    ensures Follows(c, more, Apply(c, s, step))
  {
    match step
    case Tick(_) => more := events;
    case Check(id) => more := FollowsCheck(c, events, s, id);
    case Fail(id) => more := FollowsEnd(c, events, s, id, step);
    case Succeed(id) => more := FollowsEnd(c, events, s, id, step);
    case Clean =>
      Sequential.Append(c, events, Sequential.Cleanup(s.now));
      more := events + [Sequential.Cleanup(s.now)];
  }

  lemma {:induction false} OneLoginIsSequential(c: Config, t0: int, steps: seq<Step>) returns (events: seq<Sequential.Event>)
    requires Run(c, 1, t0, steps).Some?
    ensures Follows(c, events, Run(c, 1, t0, steps).value)
  {
    if steps == [] {
      events := [];
    } else {
      var before := steps[..|steps| - 1];
      events := OneLoginIsSequential(c, t0, before);
      events := FollowsStep(c, events, Run(c, 1, t0, before).value, steps[|steps| - 1]);
    }
  }

  // Runs that break the bound.

  ghost predicate At(c: Config, k: nat, t0: int, steps: seq<Step>, s: State) {
    Run(c, k, t0, steps) == Some(s)
  }

  lemma Extend(c: Config, k: nat, t0: int, steps: seq<Step>, s: State, step: Step)
    requires At(c, k, t0, steps, s) && Enabled(k, s, step)
    ensures At(c, k, t0, steps + [step], Apply(c, s, step))
  {
    assert (steps + [step])[..|steps|] == steps;
  }

  /** Not locked, and nothing counts at `now` any more. */
  predicate Quiet(c: Config, slot: Slot, now: int) {
    var a := Checked(slot, now);
    && !Locked(slot, now)
    && (a.Some? ==> a.value.lockedUntil.None? && (a.value.attempts == 0 || (a.value.lastAttempt.Some? && now - a.value.lastAttempt.value > c.ttl)))
  }

  /** A login passes IsLocked and fails with nothing in between. */
  lemma FailAlone(c: Config, k: nat, t0: int, steps: seq<Step>, s: State, id: nat) returns (steps': seq<Step>, s': State)
    requires At(c, k, t0, steps, s) && |s.passed| < k && id !in s.passed && !Locked(s.slot, s.now)
    ensures At(c, k, t0, steps', s')
    ensures s' == State(s.now, Some(Tracked(c, Checked(s.slot, s.now), s.now)), s.passed, s.log + [Failure(s.now)])
  {
    Extend(c, k, t0, steps, s, Check(id));
    var s1 := Apply(c, s, Check(id));
    Extend(c, k, t0, steps + [Check(id)], s1, Fail(id));
    steps', s' := steps + [Check(id)] + [Fail(id)], Apply(c, s1, Fail(id));
  }

  /** m logins fail one after the other. */
  lemma {:induction false} FailInTurn(c: Config, k: nat, t0: int, steps: seq<Step>, s: State, id: nat, m: nat)
    returns (steps': seq<Step>, s': State)
    requires At(c, k, t0, steps, s) && |s.passed| < k && id !in s.passed && Quiet(c, s.slot, s.now)
    requires 0 < m <= c.threshold
    ensures At(c, k, t0, steps', s') && s'.now == s.now && s'.passed == s.passed && s'.log == s.log + Burst(s.now, m)
    ensures s'.slot == Some(Attempts(m, if m >= c.threshold then Some(s.now + c.lockout) else None, Some(s.now)))
  {
    BurstGrows(s.log, s.now, m);
    if m == 1 {
      steps', s' := FailAlone(c, k, t0, steps, s, id);
      assert s.log + Burst(s.now, 0) == s.log;
    } else {
      steps', s' := FailInTurn(c, k, t0, steps, s, id, m - 1);
      steps', s' := FailAlone(c, k, t0, steps', s', id);
    }
  }

  /** Logins 0 to n - 1. */
  function Ids(n: nat): (ids: set<nat>)
    ensures |ids| == n && forall id :: id in ids <==> 0 <= id < n
  {
    if n == 0 then {} else Ids(n - 1) + {n - 1}
  }

  /** m logins pass IsLocked before any of them goes on. */
  lemma {:induction false} PassTogether(c: Config, k: nat, t0: int, steps: seq<Step>, s: State, m: nat) returns (steps': seq<Step>)
    requires m <= k && At(c, k, t0, steps, s) && s.passed == {}
    requires !Locked(s.slot, s.now) && Checked(s.slot, s.now) == s.slot
    ensures At(c, k, t0, steps', s.(passed := Ids(m)))
  {
    if m == 0 {
      steps' := steps;
    } else {
      steps' := PassTogether(c, k, t0, steps, s, m - 1);
      var s1 := s.(passed := Ids(m - 1));
      Extend(c, k, t0, steps', s1, Check(m - 1));
      steps' := steps' + [Check(m - 1)];
      assert Apply(c, s1, Check(m - 1)) == s.(passed := Ids(m));
    }
  }

  /** The first m of k logins past IsLocked fail. */
  lemma {:induction false} FailTogether(c: Config, k: nat, t0: int, steps: seq<Step>, s: State, m: nat) returns (steps': seq<Step>, s': State)
    requires m <= k && At(c, k, t0, steps, s) && s.passed == Ids(k)
    ensures At(c, k, t0, steps', s') && s'.now == s.now && s'.log == s.log + Burst(s.now, m)
    ensures forall id :: m <= id < k ==> id in s'.passed
  {
    if m == 0 {
      steps', s' := steps, s;
    } else {
      steps', s' := FailTogether(c, k, t0, steps, s, m - 1);
      Extend(c, k, t0, steps', s', Fail(m - 1));
      steps', s' := steps' + [Fail(m - 1)], Apply(c, s', Fail(m - 1));
      BurstGrows(s.log, s.now, m);
    }
  }

  /** From quiet on, threshold - 1 + k failures at one moment. */
  lemma Rush(c: Config, k: nat, t0: int, steps: seq<Step>, s: State) returns (steps': seq<Step>, s': State)
    requires k >= 1 && c.threshold >= 2 && At(c, k, t0, steps, s) && s.passed == {} && Quiet(c, s.slot, s.now)
    ensures At(c, k, t0, steps', s') && s'.log == s.log + Burst(s.now, c.threshold - 1 + k)
  {
    var s1;
    steps', s1 := FailInTurn(c, k, t0, steps, s, 0, c.threshold - 1);
    steps' := PassTogether(c, k, t0, steps', s1, k);
    steps', s' := FailTogether(c, k, t0, steps', s1.(passed := Ids(k)), k);
    assert s.log + Burst(s.now, c.threshold - 1) + Burst(s.now, k) == s.log + Burst(s.now, c.threshold - 1 + k);
  }

  /** A counter that does not outlive the lock forgets a failure in time. */
  lemma ShortCounterBreaks(c: Config, k: nat) returns (steps: seq<Step>, s: State)
    requires k >= 1 && c.threshold >= 2 && c.lockout > c.ttl
    ensures At(c, k, 0, steps, s) && !Bounded(c, k, s.log)
  {
    steps, s := FailInTurn(c, k, 0, [], Init(0), 0, 1);
    Extend(c, k, 0, steps, s, Tick(c.ttl + 1));
    steps, s := steps + [Tick(c.ttl + 1)], Apply(c, s, Tick(c.ttl + 1));
    steps, s := Rush(c, k, 0, steps, s);
    assert s.log[1..] == Burst(c.ttl + 1, c.threshold - 1 + k);
    BurstExceeds(s.log, 0, c.ttl + 1, c.threshold - 1 + k, c.lockout + 1);
  }

  /** Login 0 passes IsLocked; threshold others fail and lock. */
  lemma LockBehindALogin(c: Config, k: nat) returns (steps: seq<Step>, s: State)
    requires k >= 2 && c.threshold >= 2
    ensures At(c, k, 0, steps, s) && s.now == 0 && s.passed == {0}
    ensures s.slot == Some(Attempts(c.threshold, Some(c.lockout), Some(0)))
  {
    Extend(c, k, 0, [], Init(0), Check(0));
    steps, s := FailInTurn(c, k, 0, [] + [Check(0)], Apply(c, Init(0), Check(0)), 1, c.threshold);
  }

  /** A login that was past IsLocked all the while fails long after: it starts
      a new count under the lock time that ran out, and the next IsLocked
      forgets that count. */
  lemma LateLoginBreaks(c: Config, k: nat) returns (steps: seq<Step>, s: State)
    requires k >= 2 && c.threshold >= 2
    ensures At(c, k, 0, steps, s) && !Bounded(c, k, s.log)
  {
    var x := c.ttl + c.lockout + 1;
    steps, s := LockBehindALogin(c, k);
    Extend(c, k, 0, steps, s, Tick(x));
    steps, s := steps + [Tick(x)], Apply(c, s, Tick(x));
    Extend(c, k, 0, steps, s, Fail(0));
    steps, s := steps + [Fail(0)], Apply(c, s, Fail(0));
    var n := |s.log| - 1;
    assert s.passed == {} && s.log[n] == Failure(x);
    steps, s := Rush(c, k, 0, steps, s);
    assert s.log[n + 1..] == Burst(x, c.threshold - 1 + k);
    BurstExceeds(s.log, n, x, c.threshold - 1 + k, c.lockout + 1);
  }

  // When the bound holds.

  ghost predicate BoundedAlways(c: Config, k: nat) {
    forall t0, steps :: Run(c, k, t0, steps).Some? ==> Bounded(c, k, Run(c, k, t0, steps).value.log)
  }

  predicate Safe(c: Config, k: nat) {
    Effective(c.threshold) == 1 || (k == 1 && c.lockout <= c.ttl)
  }

  lemma SafeBound(c: Config, k: nat, t0: int, steps: seq<Step>)
    requires k >= 1 && Safe(c, k) && Run(c, k, t0, steps).Some?
    ensures Bounded(c, k, Run(c, k, t0, steps).value.log)
  {
    if Effective(c.threshold) == 1 {
      OneBound(c, k, t0, steps);
    } else {
      var events := OneLoginIsSequential(c, t0, steps);
      Sequential.LockoutBound(c, events);
    }
  }

  /** With k logins past IsLocked at a time, every interleaving keeps the bound
      of threshold + k - 1 failures within the lockout duration if and only if
      one failure locks, or logins do not race and the counter outlives the
      lock. */
  lemma RacingBoundIff(c: Config, k: nat)
    requires k >= 1
    ensures BoundedAlways(c, k) <==> Safe(c, k)
  {
    if Safe(c, k) {
      forall t0, steps | Run(c, k, t0, steps).Some?
        ensures Bounded(c, k, Run(c, k, t0, steps).value.log)
      {
        SafeBound(c, k, t0, steps);
      }
    } else if k >= 2 {
      var steps, s := LateLoginBreaks(c, k);
      assert Run(c, k, 0, steps).Some?;
    } else {
      var steps, s := ShortCounterBreaks(c, k);
      assert Run(c, k, 0, steps).Some?;
    }
  }
}
