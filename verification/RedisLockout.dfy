/** Logins of one user racing on the Redis attempt tracker
    (internal/core/service/auth.go:112-168), one Redis command at a time.

    A login that IsLocked let through is somewhere between that answer and the
    end of its Track or Reset. The scheduler may interleave the commands of
    all such logins and let any time pass between two of them. */
module RedisLockout {
  import opened Wrappers
  import opened FailureLog
  import opened RedisAttemptTracker
  import opened Sets

  /** Where a login that passed IsLocked stands. `born` says which counter its
      INCR went to: the length of the log when that counter was started. */
  datatype Login = Passed | AfterIncr(count: nat, born: nat) | BeforeSet

  /** `log`, `counts` and `born` record the history; no command reads them.
      `counts` has what INCR answered to each failure of the log, and 0 for a
      reset. `lapsed` records that a counter's time to live ran out while a
      Track had incremented it but not yet refreshed it. */
  datatype State = State(now: int, keys: Keys, logins: map<nat, Login>, log: Log, counts: seq<nat>, born: nat, lapsed: bool)

  datatype Step =
    | Tick(d: nat)
    | Check(id: nat)      // IsLocked
    | Increment(id: nat)  // wrong password: Track's INCR
    | Refresh(id: nat)    // Track's EXPIRE
    | Lock(id: nat)       // Track's SET
    | Clear(id: nat)      // right password: Reset's DEL

  function Init(t0: int): State {
    State(t0, NO_KEYS, map[], [], [], 0, false)
  }

  predicate Performable(s: State, step: Step) {
    match step
    case Tick(_) => true
    case Check(id) => id !in s.logins
    case Increment(id) => id in s.logins && s.logins[id].Passed?
    case Refresh(id) => id in s.logins && s.logins[id].AfterIncr?
    case Lock(id) => id in s.logins && s.logins[id].BeforeSet?
    case Clear(id) => id in s.logins && s.logins[id].Passed?
  }

  /** At most k logins are past IsLocked at a time. */
  predicate Enabled(k: nat, s: State, step: Step) {
    Performable(s, step) && (step.Check? && !Locked(s.keys, s.now) ==> |s.logins| < k)
  }

  /** Some Track has yet to refresh the current counter. */
  ghost predicate Unrefreshed(s: State) {
    exists id :: id in s.logins && s.logins[id].AfterIncr? && s.logins[id].born == s.born
  }

  ghost function Apply(c: Config, s: State, step: Step): State
    requires Performable(s, step)
  {
    match step
    case Tick(d) =>
      var runsOut := CounterLive(s.keys, s.now) && !CounterLive(s.keys, s.now + d);
      s.(now := s.now + d, lapsed := s.lapsed || (runsOut && Unrefreshed(s)))
    case Check(id) =>
      if Locked(s.keys, s.now) then s else s.(logins := s.logins[id := Passed])
    case Increment(id) =>
      var keys := Incr(s.keys, s.now);
      var born := if CounterLive(s.keys, s.now) then s.born else |s.log|;
      s.(keys := keys,
         logins := s.logins[id := AfterIncr(keys.counter.value.count, born)],
         log := s.log + [Failure(s.now)],
         counts := s.counts + [keys.counter.value.count],
         born := born)
    case Refresh(id) =>
      s.(keys := Expire(c, s.keys, s.now),
         logins := if s.logins[id].count >= c.threshold then s.logins[id := BeforeSet] else s.logins - {id})
    case Lock(id) =>
      s.(keys := SetLock(c, s.keys, s.now), logins := s.logins - {id})
    case Clear(id) =>
      s.(keys := NO_KEYS, logins := s.logins - {id}, log := s.log + [Cleared(s.now)], counts := s.counts + [0], born := |s.log| + 1)
  }

  /** Where a run of steps ends that starts at time t0 with no keys; None if
      some step was not enabled. */
  ghost function Run(c: Config, k: nat, t0: int, steps: seq<Step>): Option<State> {
    if steps == [] then Some(Init(t0))
    else
      var before := Run(c, k, t0, steps[..|steps| - 1]);
      var step := steps[|steps| - 1];
      if before.Some? && Enabled(k, before.value, step) then Some(Apply(c, before.value, step)) else None
  }

  // Failures counted at or above the threshold, and the others.

  function Hots(threshold: int, counts: seq<nat>, i: nat, j: nat): (n: nat)
    requires i <= j <= |counts|
    decreases j
  {
    if i == j then 0 else Hots(threshold, counts, i, j - 1) + if counts[j - 1] >= threshold then 1 else 0
  }

  lemma {:induction false} HotsOfAppend(threshold: int, counts: seq<nat>, n: nat, i: nat, j: nat)
    requires i <= j <= |counts|
    ensures Hots(threshold, counts + [n], i, j) == Hots(threshold, counts, i, j)
    decreases j
  {
    if i == j {
    } else {
      HotsOfAppend(threshold, counts, n, i, j - 1);
    }
  }

  /** A stretch has as many hot failures as its part from the first of them. */
  lemma {:induction false} FirstHot(threshold: int, counts: seq<nat>, i: nat, j: nat) returns (f: nat)
    requires i <= j <= |counts| && Hots(threshold, counts, i, j) > 0
    ensures i <= f < j && counts[f] >= threshold && Hots(threshold, counts, f, j) == Hots(threshold, counts, i, j)
    decreases j
  {
    if Hots(threshold, counts, i, j - 1) > 0 {
      f := FirstHot(threshold, counts, i, j - 1);
    } else {
      f := j - 1;
    }
  }

  /** Counted by one counter, at most threshold - 1 failures are not hot. */
  lemma {:induction false} ColdsOfOneCounter(threshold: int, counts: seq<nat>, i: nat, j: nat)
    requires i <= j <= |counts|
    requires forall m :: i <= m < j ==> counts[m] >= m - i + 1
    ensures j - i <= Hots(threshold, counts, i, j) + Effective(threshold) - 1
    decreases j
  {
    if i == j {
    } else {
      ColdsOfOneCounter(threshold, counts, i, j - 1);
    }
  }

  /** With threshold 1 none is cold; with threshold 2 only the first failure
      of each counter. */
  lemma {:induction false} ColdsOfTwo(threshold: int, counts: seq<nat>, i: nat, j: nat)
    requires i <= j <= |counts| && Effective(threshold) <= 2
    requires forall m :: i <= m < j ==> counts[m] >= 1
    requires Effective(threshold) == 1 || forall m, n :: i <= m < n < j ==> counts[m] != 1 || counts[n] != 1
    ensures j - i <= Hots(threshold, counts, i, j) + Effective(threshold) - 1
    decreases j
  {
    if i == j {
    } else {
      ColdsOfTwo(threshold, counts, i, j - 1);
      if counts[j - 1] < threshold {
        assert counts[j - 1] == 1;
        AllHot(threshold, counts, i, j - 1);
      }
    }
  }

  lemma {:induction false} AllHot(threshold: int, counts: seq<nat>, i: nat, j: nat)
    requires i <= j <= |counts| && forall m :: i <= m < j ==> counts[m] >= threshold
    ensures Hots(threshold, counts, i, j) == j - i
    decreases j
  {
    if i == j {
    } else {
      AllHot(threshold, counts, i, j - 1);
    }
  }

  // The invariant.

  ghost function PassedIds(s: State): set<nat> {
    set id | id in s.logins && s.logins[id].Passed?
  }

  /** Logins whose failure reached the threshold and whose lock is not set yet. */
  ghost function LockingIds(c: Config, s: State): set<nat> {
    set id | id in s.logins && (s.logins[id].BeforeSet? || (s.logins[id].AfterIncr? && s.logins[id].count >= c.threshold))
  }

  ghost predicate LogInv(s: State) {
    && |s.counts| == |s.log|
    && Ordered(s.log)
    && (s.log != [] ==> s.log[|s.log| - 1].time <= s.now)
    && s.born <= |s.log|
    && NoReset(s.log, s.born, |s.log|)
    && (forall i :: 0 <= i < |s.log| && s.log[i].Failure? ==> s.counts[i] >= 1)
    && (forall i :: 0 < i < |s.log| && s.log[i - 1].Failure? && s.log[i].Failure? && s.counts[i] != 1
          ==> s.counts[i] == s.counts[i - 1] + 1)
  }

  /** The counter, while stored, has counted exactly the failures since `born`. */
  ghost predicate CounterInv(s: State)
    requires |s.counts| == |s.log|
  {
    if s.keys.counter.Some? then
      && s.born < |s.log| && s.keys.counter.value.count == |s.log| - s.born
      && forall i :: 0 <= s.born <= i < |s.log| ==> s.counts[i] == i - s.born + 1
    else
      s.born == |s.log| && (s.log != [] ==> s.log[|s.log| - 1].Cleared?)
  }

  /** How far the counter's deadline reaches: past its newest failure, a whole
      time to live past its first, and, unless a Track still has to refresh
      it, a whole time to live past its newest. */
  ghost predicate DeadlineInv(c: Config, s: State) {
    s.keys.counter.Some? && s.born < |s.log| ==>
      var last, first, d := s.log[|s.log| - 1].time, s.log[s.born].time, s.keys.counter.value.deadline;
      && (d.Some? ==> d.value > last && d.value >= first + c.ttl)
      && (!s.lapsed ==> (CounterLive(s.keys, s.now) && Unrefreshed(s)) || (d.Some? && d.value >= last + c.ttl))
  }

  /** Failure j started a counter: failure i before it lies apart. */
  ghost predicate Apart(c: Config, s: State, i: nat, j: nat)
    requires i < |s.log| == |s.counts| && j < |s.log|
  {
    s.log[i].time < s.log[j].time && (s.counts[i] == 1 || !s.lapsed ==> s.log[i].time + c.ttl <= s.log[j].time)
  }

  ghost predicate ApartInv(c: Config, s: State)
    requires |s.log| == |s.counts|
  {
    forall i, j :: 0 <= i < j < |s.log| && s.counts[j] == 1 && NoReset(s.log, i, j) ==> Apart(c, s, i, j)
  }

  /** Hot failures from hot failure i on have their locks still coming, unless
      the lock in place covers i. */
  ghost predicate LockAt(c: Config, s: State, i: nat)
    requires i < |s.log| == |s.counts|
  {
    s.counts[i] >= c.threshold && NoReset(s.log, i, |s.log|) && (s.keys.lock.Some? ==> s.log[i].time + c.lockout > s.keys.lock.value)
    ==> Hots(c.threshold, s.counts, i, |s.log|) <= |LockingIds(c, s)|
  }

  ghost predicate LockInv(c: Config, s: State)
    requires |s.log| == |s.counts|
  {
    forall i :: 0 <= i < |s.log| ==> LockAt(c, s, i)
  }

  /** If hot failure i is recent, the hot failures from it on and the logins
      that may still fail unchecked are k in all. */
  ghost predicate HotAt(c: Config, k: nat, s: State, i: nat)
    requires i < |s.log| == |s.counts|
  {
    s.counts[i] >= c.threshold && NoReset(s.log, i, |s.log|) && s.log[i].time + c.lockout > s.now
    ==> Hots(c.threshold, s.counts, i, |s.log|) + |PassedIds(s)| <= k
  }

  ghost predicate HotInv(c: Config, k: nat, s: State)
    requires |s.log| == |s.counts|
  {
    |s.logins| <= k && forall i :: 0 <= i < |s.log| ==> HotAt(c, k, s, i)
  }

  /** No stretch within the lockout duration has more than k hot failures. */
  ghost predicate FewHot(c: Config, k: nat, log: Log, counts: seq<nat>)
    requires |log| == |counts|
  {
    forall i, j :: 0 <= i < j <= |log| && NoReset(log, i, j) && log[j - 1].time - log[i].time < c.lockout
      ==> Hots(c.threshold, counts, i, j) <= k
  }

  ghost predicate Inv(c: Config, k: nat, s: State) {
    && LogInv(s)
    && CounterInv(s)
    && DeadlineInv(c, s)
    && ApartInv(c, s)
    && LockInv(c, s)
    && HotInv(c, k, s)
    && FewHot(c, k, s.log, s.counts)
  }

  lemma PassedAndLockingFit(c: Config, s: State)
    ensures |PassedIds(s)| + |LockingIds(c, s)| <= |s.logins|
  {
    var both := PassedIds(s) + LockingIds(c, s);
    assert PassedIds(s) !! LockingIds(c, s);
    assert both <= s.logins.Keys;
    SubsetSize(both, s.logins.Keys);
  }

  // What the parts of the invariant depend on.

  lemma LockFrame(c: Config, s: State, s': State)
    requires |s.log| == |s.counts| && LockInv(c, s)
    requires s'.log == s.log && s'.counts == s.counts && s'.keys.lock == s.keys.lock
    requires LockingIds(c, s') == LockingIds(c, s)
    ensures LockInv(c, s')
  {
    forall i | 0 <= i < |s'.log|
      ensures LockAt(c, s', i)
    {
      assert LockAt(c, s, i);
    }
  }

  lemma HotFrame(c: Config, k: nat, s: State, s': State)
    requires |s.log| == |s.counts| && HotInv(c, k, s)
    requires s'.log == s.log && s'.counts == s.counts && s.now <= s'.now
    requires PassedIds(s') == PassedIds(s) && s'.logins.Keys <= s.logins.Keys
    ensures HotInv(c, k, s')
  {
    SubsetSize(s'.logins.Keys, s.logins.Keys);
    forall i | 0 <= i < |s'.log|
      ensures HotAt(c, k, s', i)
    {
      assert HotAt(c, k, s, i);
    }
  }

  lemma ApartFrame(c: Config, s: State, s': State)
    requires |s.log| == |s.counts| && ApartInv(c, s)
    requires s'.log == s.log && s'.counts == s.counts && (s.lapsed ==> s'.lapsed)
    ensures ApartInv(c, s')
  {
  }

  lemma UnrefreshedFrame(s: State, s': State)
    requires Unrefreshed(s) && s'.born == s.born
    requires forall id :: id in s.logins && s.logins[id].AfterIncr? ==> id in s'.logins && s'.logins[id] == s.logins[id]
    ensures Unrefreshed(s')
  {
  }

  // Every step keeps the invariant.

  lemma TickKeeps(c: Config, k: nat, s: State, d: nat)
    requires Inv(c, k, s)
    ensures Inv(c, k, Apply(c, s, Tick(d)))
  {
    var s' := Apply(c, s, Tick(d));
    assert PassedIds(s') == PassedIds(s) && LockingIds(c, s') == LockingIds(c, s);
    LockFrame(c, s, s');
    HotFrame(c, k, s, s');
    ApartFrame(c, s, s');
    if Unrefreshed(s) {
      UnrefreshedFrame(s, s');
    }
  }

  lemma CheckKeepsHot(c: Config, k: nat, s: State, id: nat)
    requires LogInv(s) && LockInv(c, s) && HotInv(c, k, s) && Enabled(k, s, Check(id)) && !Locked(s.keys, s.now)
    ensures HotInv(c, k, Apply(c, s, Check(id)))
  {
    var s' := Apply(c, s, Check(id));
    assert s'.logins.Keys == s.logins.Keys + {id};
    assert LockingIds(c, s') == LockingIds(c, s);
    PassedAndLockingFit(c, s');
    forall i | 0 <= i < |s'.log|
      ensures HotAt(c, k, s', i)
    {
      assert LockAt(c, s, i);
    }
  }

  lemma CheckKeeps(c: Config, k: nat, s: State, id: nat)
    requires Inv(c, k, s) && Enabled(k, s, Check(id))
    ensures Inv(c, k, Apply(c, s, Check(id)))
  {
    var s' := Apply(c, s, Check(id));
    if !Locked(s.keys, s.now) {
      CheckKeepsHot(c, k, s, id);
      assert LockingIds(c, s') == LockingIds(c, s);
      LockFrame(c, s, s');
      ApartFrame(c, s, s');
      if Unrefreshed(s) {
        UnrefreshedFrame(s, s');
      }
    }
  }

  lemma RefreshKeepsDeadline(c: Config, s: State, id: nat)
    requires LogInv(s) && CounterInv(s) && DeadlineInv(c, s) && Performable(s, Refresh(id))
    ensures var s' := Apply(c, s, Refresh(id));
      LogInv(s') && CounterInv(s') && DeadlineInv(c, s')
  {
  }

  lemma RefreshKeeps(c: Config, k: nat, s: State, id: nat)
    requires Inv(c, k, s) && Enabled(k, s, Refresh(id))
    ensures Inv(c, k, Apply(c, s, Refresh(id)))
  {
    var s' := Apply(c, s, Refresh(id));
    RefreshKeepsDeadline(c, s, id);
    assert PassedIds(s') == PassedIds(s) && LockingIds(c, s') == LockingIds(c, s);
    LockFrame(c, s, s');
    HotFrame(c, k, s, s');
    ApartFrame(c, s, s');
  }

  lemma LockKeepsLocks(c: Config, s: State, id: nat)
    requires LogInv(s) && Performable(s, Lock(id))
    ensures |s.log| == |s.counts| && LockInv(c, Apply(c, s, Lock(id)))
  {
    var s' := Apply(c, s, Lock(id));
    forall i | 0 <= i < |s'.log|
      ensures LockAt(c, s', i)
    {
      assert s'.log[i].time <= s'.log[|s'.log| - 1].time;
    }
  }

  lemma LockKeeps(c: Config, k: nat, s: State, id: nat)
    requires Inv(c, k, s) && Enabled(k, s, Lock(id))
    ensures Inv(c, k, Apply(c, s, Lock(id)))
  {
    var s' := Apply(c, s, Lock(id));
    assert PassedIds(s') == PassedIds(s);
    HotFrame(c, k, s, s');
    ApartFrame(c, s, s');
    LockKeepsLocks(c, s, id);
    if Unrefreshed(s) {
      UnrefreshedFrame(s, s');
    }
  }

  /** An entry at the end leaves the stretches before it as they were. */
  lemma FewHotBefore(c: Config, k: nat, log: Log, counts: seq<nat>, e: Entry, n: nat, i: nat, j: nat)
    requires |log| == |counts| && FewHot(c, k, log, counts)
    requires i < j <= |log| && NoReset(log + [e], i, j) && (log + [e])[j - 1].time - (log + [e])[i].time < c.lockout
    ensures Hots(c.threshold, counts + [n], i, j) <= k
  {
    assert forall m :: i <= m < j ==> log[m] == (log + [e])[m];
    assert NoReset(log, i, j);
    HotsOfAppend(c.threshold, counts, n, i, j);
  }

  lemma ClearKeepsFewHot(c: Config, k: nat, log: Log, counts: seq<nat>, now: int)
    requires |log| == |counts| && FewHot(c, k, log, counts)
    ensures FewHot(c, k, log + [Cleared(now)], counts + [0])
  {
    var log' := log + [Cleared(now)];
    forall i, j | 0 <= i < j <= |log'| && NoReset(log', i, j) && log'[j - 1].time - log'[i].time < c.lockout
      ensures Hots(c.threshold, counts + [0], i, j) <= k
    {
      assert j != |log'| by {
        assert log'[|log|].Cleared?;
      }
      FewHotBefore(c, k, log, counts, Cleared(now), 0, i, j);
    }
  }

  lemma AppendKeepsApart(c: Config, s: State, s': State, e: Entry, n: nat)
    requires |s.log| == |s.counts| && ApartInv(c, s) && s'.lapsed == s.lapsed
    requires s'.log == s.log + [e] && s'.counts == s.counts + [n]
    requires n == 1 ==> forall i :: 0 <= i < |s.log| && NoReset(s'.log, i, |s.log|) ==> Apart(c, s', i, |s.log|)
    ensures ApartInv(c, s')
  {
    forall i, j | 0 <= i < j < |s'.log| && s'.counts[j] == 1 && NoReset(s'.log, i, j)
      ensures Apart(c, s', i, j)
    {
      if j < |s.log| {
        assert forall m :: i <= m < j ==> s.log[m] == s'.log[m];
        assert NoReset(s.log, i, j);
        assert Apart(c, s, i, j) && s'.counts[i] == s.counts[i] && s'.log[i] == s.log[i];
      } else {
        assert NoReset(s'.log, i, |s.log|) && Apart(c, s', i, |s.log|);
      }
    }
  }

  lemma ClearKeeps(c: Config, k: nat, s: State, id: nat)
    requires Inv(c, k, s) && Enabled(k, s, Clear(id))
    ensures Inv(c, k, Apply(c, s, Clear(id)))
  {
    var s' := Apply(c, s, Clear(id));
    SubsetSize(s'.logins.Keys, s.logins.Keys);
    ClearKeepsFewHot(c, k, s.log, s.counts, s.now);
    AppendKeepsApart(c, s, s', Cleared(s.now), 0);
    assert s'.log[|s.log|].Cleared?;
    assert forall i :: 0 <= i < |s'.log| ==> !NoReset(s'.log, i, |s'.log|);
  }

  lemma IncrementKeepsCounter(c: Config, s: State, id: nat)
    requires LogInv(s) && CounterInv(s) && DeadlineInv(c, s) && Performable(s, Increment(id))
    ensures var s' := Apply(c, s, Increment(id));
      LogInv(s') && CounterInv(s') && DeadlineInv(c, s')
  {
    var s' := Apply(c, s, Increment(id));
    assert id in s'.logins && s'.logins[id].AfterIncr? && s'.logins[id].born == s'.born;
    assert Unrefreshed(s');
  }

  lemma IncrementKeepsApart(c: Config, s: State, id: nat)
    requires LogInv(s) && CounterInv(s) && DeadlineInv(c, s) && ApartInv(c, s) && Performable(s, Increment(id))
    ensures var s' := Apply(c, s, Increment(id));
      |s'.log| == |s'.counts| && ApartInv(c, s')
  {
    var s' := Apply(c, s, Increment(id));
    var n := |s.log|;
    if s'.counts[n] == 1 {
      forall i | 0 <= i < n && NoReset(s'.log, i, n)
        ensures Apart(c, s', i, n)
      {
        assert s'.log[n - 1].Failure? && s.keys.counter.Some? && !CounterLive(s.keys, s.now);
        assert s'.log[i] == s.log[i] && s'.counts[i] == s.counts[i];
        assert s.log[i].time <= s.log[n - 1].time;
        assert if i > s.born then s.counts[i] == i - s.born + 1 else s.log[i].time <= s.log[s.born].time;
      }
    }
    AppendKeepsApart(c, s, s', Failure(s.now), s'.counts[n]);
  }

  lemma IncrementKeepsHotAt(c: Config, k: nat, s: State, id: nat, i: nat)
    requires LogInv(s) && CounterInv(s) && LockInv(c, s) && HotInv(c, k, s) && Enabled(k, s, Increment(id))
    requires i <= |s.log|
    ensures var s' := Apply(c, s, Increment(id));
      |s'.log| == |s'.counts| && LockAt(c, s', i) && HotAt(c, k, s', i)
  {
    var s' := Apply(c, s, Increment(id));
    var n := |s.log|;
    assert PassedIds(s') == PassedIds(s) - {id};
    assert s'.logins.Keys == s.logins.Keys;
    PassedAndLockingFit(c, s);
    assert LockingIds(c, s') == if s'.counts[n] >= c.threshold then LockingIds(c, s) + {id} else LockingIds(c, s);
    if i < n && NoReset(s'.log, i, |s'.log|) {
      assert NoReset(s.log, i, n) by {
        assert forall m :: i <= m < n ==> s.log[m] == s'.log[m];
      }
      assert LockAt(c, s, i) && HotAt(c, k, s, i);
      HotsOfAppend(c.threshold, s.counts, s'.counts[n], i, n);
    }
  }

  lemma IncrementKeepsHot(c: Config, k: nat, s: State, id: nat)
    requires LogInv(s) && CounterInv(s) && LockInv(c, s) && HotInv(c, k, s) && Enabled(k, s, Increment(id))
    ensures var s' := Apply(c, s, Increment(id));
      |s'.log| == |s'.counts| && LockInv(c, s') && HotInv(c, k, s')
  {
    var s' := Apply(c, s, Increment(id));
    assert s'.logins.Keys == s.logins.Keys;
    forall i | 0 <= i < |s'.log|
      ensures LockAt(c, s', i) && HotAt(c, k, s', i)
    {
      IncrementKeepsHotAt(c, k, s, id, i);
    }
  }

  /** The stretch that the newest failure ends. */
  lemma NewestStretch(c: Config, k: nat, s: State, i: nat)
    requires LogInv(s) && HotInv(c, k, s)
    requires i < |s.log| && NoReset(s.log, i, |s.log|)
    requires s.log[|s.log| - 1].time == s.now && s.now - s.log[i].time < c.lockout
    ensures Hots(c.threshold, s.counts, i, |s.log|) <= k
  {
    if Hots(c.threshold, s.counts, i, |s.log|) > 0 {
      var f := FirstHot(c.threshold, s.counts, i, |s.log|);
      assert s.log[i].time <= s.log[f].time;
      assert HotAt(c, k, s, f);
    }
  }

  lemma IncrementKeepsFewHot(c: Config, k: nat, s: State, s': State, n: nat)
    requires |s.log| == |s.counts| && FewHot(c, k, s.log, s.counts)
    requires LogInv(s') && HotInv(c, k, s')
    requires s'.log == s.log + [Failure(s'.now)] && s'.counts == s.counts + [n]
    ensures FewHot(c, k, s'.log, s'.counts)
  {
    forall i, j | 0 <= i < j <= |s'.log| && NoReset(s'.log, i, j) && s'.log[j - 1].time - s'.log[i].time < c.lockout
      ensures Hots(c.threshold, s'.counts, i, j) <= k
    {
      if j == |s'.log| {
        NewestStretch(c, k, s', i);
      } else {
        FewHotBefore(c, k, s.log, s.counts, Failure(s'.now), n, i, j);
      }
    }
  }

  lemma IncrementKeeps(c: Config, k: nat, s: State, id: nat)
    requires Inv(c, k, s) && Enabled(k, s, Increment(id))
    ensures Inv(c, k, Apply(c, s, Increment(id)))
  {
    var s' := Apply(c, s, Increment(id));
    IncrementKeepsCounter(c, s, id);
    IncrementKeepsApart(c, s, id);
    IncrementKeepsHot(c, k, s, id);
    IncrementKeepsFewHot(c, k, s, s', s'.counts[|s.log|]);
  }

  lemma StepKeeps(c: Config, k: nat, s: State, step: Step)
    requires Inv(c, k, s) && Enabled(k, s, step)
    ensures Inv(c, k, Apply(c, s, step))
  {
    match step
    case Tick(d) => TickKeeps(c, k, s, d);
    case Check(id) => CheckKeeps(c, k, s, id);
    case Increment(id) => IncrementKeeps(c, k, s, id);
    case Refresh(id) => RefreshKeeps(c, k, s, id);
    case Lock(id) => LockKeeps(c, k, s, id);
    case Clear(id) => ClearKeeps(c, k, s, id);
  }

  lemma {:induction false} RunKeeps(c: Config, k: nat, t0: int, steps: seq<Step>)
    requires Run(c, k, t0, steps).Some?
    ensures Inv(c, k, Run(c, k, t0, steps).value)
  {
    if steps == [] {
    } else {
      var before := steps[..|steps| - 1];
      RunKeeps(c, k, t0, before);
      StepKeeps(c, k, Run(c, k, t0, before).value, steps[|steps| - 1]);
    }
  }

  // How many failures are cold.

  lemma {:induction false} CountsRise(s: State, i: nat, j: nat)
    requires LogInv(s) && i < j <= |s.log| && NoReset(s.log, i, j)
    requires forall m :: i < m < j ==> s.counts[m] != 1
    ensures forall m :: i <= m < j ==> s.counts[m] >= m - i + 1
    decreases j
  {
    if j - 1 > i {
      CountsRise(s, i, j - 1);
      assert s.log[j - 2].Failure? && s.log[j - 1].Failure?;
    }
  }

  /** Within the lockout duration no counter replaces another, if the lockout
      is a single tick, or no counter has lapsed and counters outlive locks. */
  lemma OneCounterWithin(c: Config, k: nat, s: State, i: nat, m: nat, j: nat)
    requires Inv(c, k, s) && (c.lockout == 1 || (!s.lapsed && c.lockout <= c.ttl))
    requires i < m < j <= |s.log| && NoReset(s.log, i, j) && s.log[j - 1].time - s.log[i].time < c.lockout
    ensures s.counts[m] != 1
  {
    assert NoReset(s.log, i, m);
    assert s.log[m].time <= s.log[j - 1].time;
  }

  lemma StretchOfOneCounter(c: Config, k: nat, s: State, i: nat, j: nat)
    requires Inv(c, k, s) && (c.lockout == 1 || (!s.lapsed && c.lockout <= c.ttl))
    requires i < j <= |s.log| && NoReset(s.log, i, j) && s.log[j - 1].time - s.log[i].time < c.lockout
    ensures j - i <= Effective(c.threshold) + k - 1
  {
    forall m | i < m < j
      ensures s.counts[m] != 1
    {
      OneCounterWithin(c, k, s, i, m, j);
    }
    CountsRise(s, i, j);
    ColdsOfOneCounter(c.threshold, s.counts, i, j);
  }

  lemma StretchOfLowThreshold(c: Config, k: nat, s: State, i: nat, j: nat)
    requires Inv(c, k, s) && (Effective(c.threshold) == 1 || (Effective(c.threshold) == 2 && c.lockout <= c.ttl))
    requires i < j <= |s.log| && NoReset(s.log, i, j) && s.log[j - 1].time - s.log[i].time < c.lockout
    ensures j - i <= Effective(c.threshold) + k - 1
  {
    forall m, n | i <= m < n < j && Effective(c.threshold) != 1
      ensures s.counts[m] != 1 || s.counts[n] != 1
    {
      assert s.log[i].time <= s.log[m].time && s.log[n].time <= s.log[j - 1].time;
      assert NoReset(s.log, m, n);
    }
    ColdsOfTwo(c.threshold, s.counts, i, j);
  }

  ghost predicate Bounded(c: Config, k: nat, log: Log) {
    AtMostWithin(log, Effective(c.threshold) + k - 1, c.lockout)
  }

  /** With a counter that outlives the lock and at most k logins past IsLocked
      at a time, no stretch of less than the lockout duration without a reset
      records more than threshold + k - 1 failures, in any interleaving of
      the commands in which no counter runs out under a pending EXPIRE. */
  lemma LockoutBound(c: Config, k: nat, t0: int, steps: seq<Step>)
    requires c.lockout <= c.ttl
    requires Run(c, k, t0, steps).Some? && !Run(c, k, t0, steps).value.lapsed
    ensures Bounded(c, k, Run(c, k, t0, steps).value.log)
  {
    RunKeeps(c, k, t0, steps);
    var s := Run(c, k, t0, steps).value;
    forall i, j | 0 <= i < j <= |s.log| && NoReset(s.log, i, j) && s.log[j - 1].time - s.log[i].time < c.lockout
      ensures j - i <= Effective(c.threshold) + k - 1
    {
      StretchOfOneCounter(c, k, s, i, j);
    }
  }

  /** Settings under which the bound holds even when counters lapse. */
  predicate LapseProof(c: Config) {
    || Effective(c.threshold) == 1
    || c.lockout == 1
    || (Effective(c.threshold) == 2 && c.lockout <= c.ttl)
  }

  lemma LapseProofBound(c: Config, k: nat, t0: int, steps: seq<Step>)
    requires LapseProof(c) && Run(c, k, t0, steps).Some?
    ensures Bounded(c, k, Run(c, k, t0, steps).value.log)
  {
    RunKeeps(c, k, t0, steps);
    var s := Run(c, k, t0, steps).value;
    forall i, j | 0 <= i < j <= |s.log| && NoReset(s.log, i, j) && s.log[j - 1].time - s.log[i].time < c.lockout
      ensures j - i <= Effective(c.threshold) + k - 1
    {
      if c.lockout == 1 {
        StretchOfOneCounter(c, k, s, i, j);
      } else {
        StretchOfLowThreshold(c, k, s, i, j);
      }
    }
  }

  /** Every Track issues its commands within one instant, as one step would:
      no time passes while an EXPIRE is pending. */
  ghost predicate Instant(c: Config, k: nat, t0: int, steps: seq<Step>) {
    steps == [] ||
    (var before := steps[..|steps| - 1];
     && Instant(c, k, t0, before)
     && (steps[|steps| - 1].Tick? && Run(c, k, t0, before).Some? ==> !Unrefreshed(Run(c, k, t0, before).value)))
  }

  lemma {:induction false} InstantTracksNeverLapse(c: Config, k: nat, t0: int, steps: seq<Step>)
    requires Run(c, k, t0, steps).Some? && Instant(c, k, t0, steps)
    ensures !Run(c, k, t0, steps).value.lapsed
  {
    if steps == [] {
    } else {
      InstantTracksNeverLapse(c, k, t0, steps[..|steps| - 1]);
    }
  }

  /** The three commands of one login in a row do to the keys what Track does. */
  lemma CommandsMakeTrack(c: Config, s: State, id: nat)
    requires id in s.logins && s.logins[id].Passed?
    ensures var s1 := Apply(c, s, Increment(id));
      Performable(s1, Refresh(id)) &&
      var s2 := Apply(c, s1, Refresh(id));
      if Count(s.keys, s.now) + 1 >= c.threshold
      then Performable(s2, Lock(id)) && Apply(c, s2, Lock(id)).keys == Tracked(c, s.keys, s.now)
      else id !in s2.logins && s2.keys == Tracked(c, s.keys, s.now)
  {
  }

  // Runs that break the bound.

  /** A run so far, and where it stands. */
  ghost predicate At(c: Config, k: nat, t0: int, steps: seq<Step>, s: State) {
    Run(c, k, t0, steps) == Some(s)
  }

  lemma Extend(c: Config, k: nat, t0: int, steps: seq<Step>, s: State, step: Step)
    requires At(c, k, t0, steps, s) && Enabled(k, s, step)
    ensures At(c, k, t0, steps + [step], Apply(c, s, step))
    ensures Instant(c, k, t0, steps) && (step.Tick? ==> !Unrefreshed(s)) ==> Instant(c, k, t0, steps + [step])
  {
  }

  /** Between logins, unlocked, with no live counter. */
  ghost predicate Quiet(s: State) {
    s.logins == map[] && !Locked(s.keys, s.now) && Count(s.keys, s.now) == 0
  }

  /** One login alone fails: its commands with nothing in between. */
  lemma FailAlone(c: Config, k: nat, t0: int, steps: seq<Step>, s: State) returns (steps': seq<Step>, s': State)
    requires k >= 1 && At(c, k, t0, steps, s)
    requires s.logins == map[] && !Locked(s.keys, s.now) && Count(s.keys, s.now) + 1 < c.threshold
    ensures At(c, k, t0, steps', s') && (Instant(c, k, t0, steps) ==> Instant(c, k, t0, steps'))
    ensures s'.logins == map[] && s'.now == s.now && s'.log == s.log + [Failure(s.now)]
    ensures s'.keys == Keys(Some(Counter(Count(s.keys, s.now) + 1, Some(s.now + c.ttl))), s.keys.lock)
  {
    var s1 := Apply(c, s, Check(0));
    Extend(c, k, t0, steps, s, Check(0));
    var s2 := Apply(c, s1, Increment(0));
    Extend(c, k, t0, steps + [Check(0)], s1, Increment(0));
    Extend(c, k, t0, steps + [Check(0)] + [Increment(0)], s2, Refresh(0));
    steps', s' := steps + [Check(0)] + [Increment(0)] + [Refresh(0)], Apply(c, s2, Refresh(0));
    assert s'.logins == map[];
  }

  /** m logins fail one after the other. */
  lemma {:induction false} FailInTurn(c: Config, k: nat, t0: int, steps: seq<Step>, s: State, m: nat) returns (steps': seq<Step>, s': State)
    requires k >= 1 && At(c, k, t0, steps, s) && Quiet(s) && (m == 0 || m < c.threshold)
    ensures At(c, k, t0, steps', s') && (Instant(c, k, t0, steps) ==> Instant(c, k, t0, steps'))
    ensures s'.logins == map[] && s'.now == s.now && s'.log == s.log + Burst(s.now, m)
    ensures s'.keys == if m == 0 then s.keys else Keys(Some(Counter(m, Some(s.now + c.ttl))), s.keys.lock)
  {
    if m == 0 {
      steps', s' := steps, s;
    } else {
      steps', s' := FailInTurn(c, k, t0, steps, s, m - 1);
      steps', s' := FailAlone(c, k, t0, steps', s');
      BurstGrows(s.log, s.now, m);
    }
  }

  /** Logins 0 to n - 1, all past IsLocked. */
  function Passing(n: nat): (logins: map<nat, Login>)
    ensures |logins| == n && forall id :: id in logins <==> 0 <= id < n
    ensures forall id :: id in logins ==> logins[id] == Passed
  {
    if n == 0 then map[] else Passing(n - 1)[n - 1 := Passed]
  }

  /** m logins pass IsLocked before any of them goes on. */
  lemma {:induction false} PassTogether(c: Config, k: nat, t0: int, steps: seq<Step>, s: State, m: nat) returns (steps': seq<Step>)
    requires m <= k && At(c, k, t0, steps, s) && s.logins == map[] && !Locked(s.keys, s.now)
    ensures At(c, k, t0, steps', s.(logins := Passing(m))) && (Instant(c, k, t0, steps) ==> Instant(c, k, t0, steps'))
  {
    if m == 0 {
      steps' := steps;
    } else {
      steps' := PassTogether(c, k, t0, steps, s, m - 1);
      var s1 := s.(logins := Passing(m - 1));
      Extend(c, k, t0, steps', s1, Check(m - 1));
      steps' := steps' + [Check(m - 1)];
    }
  }

  /** The first m of k logins past IsLocked fail. */
  lemma {:induction false} FailTogether(c: Config, k: nat, t0: int, steps: seq<Step>, s: State, m: nat) returns (steps': seq<Step>, s': State)
    requires m <= k && At(c, k, t0, steps, s) && s.logins == Passing(k)
    ensures At(c, k, t0, steps', s') && (Instant(c, k, t0, steps) ==> Instant(c, k, t0, steps'))
    ensures s'.now == s.now && s'.log == s.log + Burst(s.now, m)
    ensures forall id :: m <= id < k ==> id in s'.logins && s'.logins[id] == Passed
  {
    if m == 0 {
      steps', s' := steps, s;
    } else {
      steps', s' := FailTogether(c, k, t0, steps, s, m - 1);
      Extend(c, k, t0, steps', s', Increment(m - 1));
      steps', s' := steps' + [Increment(m - 1)], Apply(c, s', Increment(m - 1));
      BurstGrows(s.log, s.now, m);
    }
  }

  /** From quiet on, threshold - 1 + k failures in one instant. */
  lemma Rush(c: Config, k: nat, t0: int, steps: seq<Step>, s: State) returns (steps': seq<Step>, s': State)
    requires k >= 1 && At(c, k, t0, steps, s) && Quiet(s)
    ensures At(c, k, t0, steps', s') && (Instant(c, k, t0, steps) ==> Instant(c, k, t0, steps'))
    ensures s'.log == s.log + Burst(s.now, Effective(c.threshold) - 1 + k)
  {
    var m := Effective(c.threshold) - 1;
    var s1;
    steps', s1 := FailInTurn(c, k, t0, steps, s, m);
    steps' := PassTogether(c, k, t0, steps', s1, k);
    steps', s' := FailTogether(c, k, t0, steps', s1.(logins := Passing(k)), k);
    assert s.log + Burst(s.now, m) + Burst(s.now, k) == s.log + Burst(s.now, m + k);
  }

  /** A counter that does not outlive the lock forgets a failure in time. */
  lemma ShortCounterBreaks(c: Config, k: nat) returns (steps: seq<Step>, s: State)
    requires k >= 1 && Effective(c.threshold) >= 2 && c.lockout > c.ttl
    ensures At(c, k, 0, steps, s) && Instant(c, k, 0, steps) && !Bounded(c, k, s.log)
  {
    steps, s := FailInTurn(c, k, 0, [], Init(0), 1);
    assert [] + Burst(0, 1) == [Failure(0)];
    Extend(c, k, 0, steps, s, Tick(c.ttl));
    steps, s := steps + [Tick(c.ttl)], Apply(c, s, Tick(c.ttl));
    var log := s.log;
    steps, s := Rush(c, k, 0, steps, s);
    assert s.log[1..] == Burst(c.ttl, Effective(c.threshold) - 1 + k);
    BurstExceeds(s.log, 0, c.ttl, Effective(c.threshold) - 1 + k, c.lockout);
  }

  /** A counter runs out between a Track's INCR and its EXPIRE. */
  lemma FailAcrossLapse(c: Config, k: nat, t0: int, steps: seq<Step>, s: State) returns (steps': seq<Step>, s': State)
    requires k >= 1 && At(c, k, t0, steps, s) && s.logins == map[] && c.threshold >= 3
    requires s.keys == Keys(Some(Counter(1, Some(s.now + 1))), None)
    ensures At(c, k, t0, steps', s') && Quiet(s')
    ensures s'.now == s.now + 1 && s'.log == s.log + [Failure(s.now)]
  {
    var s1 := Apply(c, s, Check(0));
    Extend(c, k, t0, steps, s, Check(0));
    var s2 := Apply(c, s1, Increment(0));
    Extend(c, k, t0, steps + [Check(0)], s1, Increment(0));
    assert s2.logins == map[0 := AfterIncr(2, s2.born)] && s2.keys == Keys(Some(Counter(2, Some(s.now + 1))), None);
    var s3 := Apply(c, s2, Tick(1));
    Extend(c, k, t0, steps + [Check(0)] + [Increment(0)], s2, Tick(1));
    Extend(c, k, t0, steps + [Check(0)] + [Increment(0)] + [Tick(1)], s3, Refresh(0));
    steps', s' := steps + [Check(0)] + [Increment(0)] + [Tick(1)] + [Refresh(0)], Apply(c, s3, Refresh(0));
  }

  /** One failure, and its counter about to run out. */
  lemma FailAndWait(c: Config, k: nat) returns (steps: seq<Step>, s: State)
    requires k >= 1 && c.threshold >= 3
    ensures At(c, k, 0, steps, s) && s.logins == map[] && s.now == c.ttl - 1 && s.log == [Failure(0)]
    ensures s.keys == Keys(Some(Counter(1, Some(c.ttl))), None)
  {
    var s0;
    steps, s0 := FailInTurn(c, k, 0, [], Init(0), 1);
    assert s0.log == [] + Burst(0, 1) == [Failure(0)];
    Extend(c, k, 0, steps, s0, Tick(c.ttl - 1));
    steps, s := steps + [Tick(c.ttl - 1)], Apply(c, s0, Tick(c.ttl - 1));
  }

  /** That Track's failure is forgotten a tick before a new counter starts. */
  lemma LapseBreaks(c: Config, k: nat) returns (steps: seq<Step>, s: State)
    requires k >= 1 && Effective(c.threshold) >= 3 && c.lockout >= 2
    ensures At(c, k, 0, steps, s) && !Bounded(c, k, s.log)
  {
    steps, s := FailAndWait(c, k);
    steps, s := FailAcrossLapse(c, k, 0, steps, s);
    assert s.log == [Failure(0), Failure(c.ttl - 1)];
    steps, s := Rush(c, k, 0, steps, s);
    assert s.log[2..] == Burst(c.ttl, Effective(c.threshold) - 1 + k);
    BurstExceeds(s.log, 1, c.ttl, Effective(c.threshold) - 1 + k, c.lockout);
  }

  // When the bound holds.

  ghost predicate BoundedAlways(c: Config, k: nat) {
    forall t0, steps :: Run(c, k, t0, steps).Some? ==> Bounded(c, k, Run(c, k, t0, steps).value.log)
  }

  ghost predicate BoundedIfInstant(c: Config, k: nat) {
    forall t0, steps :: Run(c, k, t0, steps).Some? && Instant(c, k, t0, steps) ==> Bounded(c, k, Run(c, k, t0, steps).value.log)
  }

  /** With the commands of a Track issued in one instant, every interleaving
      keeps the bound if and only if the threshold is 1 or the counter
      outlives the lock. */
  lemma InstantBoundIff(c: Config, k: nat)
    requires k >= 1
    ensures BoundedIfInstant(c, k) <==> Effective(c.threshold) == 1 || c.lockout <= c.ttl
  {
    if Effective(c.threshold) == 1 || c.lockout <= c.ttl {
      forall t0, steps | Run(c, k, t0, steps).Some? && Instant(c, k, t0, steps)
        ensures Bounded(c, k, Run(c, k, t0, steps).value.log)
      {
        if c.lockout <= c.ttl {
          InstantTracksNeverLapse(c, k, t0, steps);
          LockoutBound(c, k, t0, steps);
        } else {
          LapseProofBound(c, k, t0, steps);
        }
      }
    } else {
      var steps, s := ShortCounterBreaks(c, k);
      assert Run(c, k, 0, steps).Some?;
    }
  }

  /** With the commands at any time, every interleaving keeps the bound if and
      only if the settings are proof against a lapse; one login at a time is
      enough to break it otherwise. */
  lemma CommandBoundIff(c: Config, k: nat)
    requires k >= 1
    ensures BoundedAlways(c, k) <==> LapseProof(c)
  {
    if LapseProof(c) {
      forall t0, steps | Run(c, k, t0, steps).Some?
        ensures Bounded(c, k, Run(c, k, t0, steps).value.log)
      {
        LapseProofBound(c, k, t0, steps);
      }
    } else if Effective(c.threshold) >= 3 {
      var steps, s := LapseBreaks(c, k);
      assert Run(c, k, 0, steps).Some?;
    } else {
      var steps, s := ShortCounterBreaks(c, k);
      assert Run(c, k, 0, steps).Some?;
    }
  }

  // When the account is locked.

  /** A SET at step i, with no Reset after it, still locks at time `at`. */
  ghost predicate LockStepAt(c: Config, k: nat, t0: int, steps: seq<Step>, i: int, at: int) {
    && 0 <= i < |steps| && steps[i].Lock?
    && (forall j :: i < j < |steps| ==> !steps[j].Clear?)
    && Run(c, k, t0, steps[..i]).Some? && at < Run(c, k, t0, steps[..i]).value.now + c.lockout
  }

  lemma LockStepNext(c: Config, k: nat, t0: int, steps: seq<Step>, i: int, at: int)
    requires steps != [] && i < |steps| - 1
    ensures LockStepAt(c, k, t0, steps, i, at) <==>
            LockStepAt(c, k, t0, steps[..|steps| - 1], i, at) && !steps[|steps| - 1].Clear?
  {
    if 0 <= i {
      assert steps[..|steps| - 1][..i] == steps[..i];
    }
  }

  lemma {:induction false} ClockRuns(c: Config, k: nat, t0: int, steps: seq<Step>, i: nat)
    requires i <= |steps| && Run(c, k, t0, steps).Some?
    ensures Run(c, k, t0, steps[..i]).Some? && Run(c, k, t0, steps[..i]).value.now <= Run(c, k, t0, steps).value.now
  {
    if i == |steps| {
      assert steps[..i] == steps;
    } else {
      assert steps[..|steps| - 1][..i] == steps[..i];
      ClockRuns(c, k, t0, steps[..|steps| - 1], i);
    }
  }

  ghost predicate SomeLockStep(c: Config, k: nat, t0: int, steps: seq<Step>, at: int) {
    exists i :: LockStepAt(c, k, t0, steps, i, at)
  }

  lemma LastLockStep(c: Config, k: nat, t0: int, steps: seq<Step>, at: int)
    requires Run(c, k, t0, steps).Some? && steps != []
    ensures var n := |steps| - 1;
      SomeLockStep(c, k, t0, steps, at) <==>
        if steps[n].Lock? then at < Run(c, k, t0, steps[..n]).value.now + c.lockout
        else !steps[n].Clear? && SomeLockStep(c, k, t0, steps[..n], at)
  {
    var n := |steps| - 1;
    assert LockStepAt(c, k, t0, steps, n, at) <==> steps[n].Lock? && at < Run(c, k, t0, steps[..n]).value.now + c.lockout;
    forall i | i < n
      ensures LockStepAt(c, k, t0, steps, i, at) <==> LockStepAt(c, k, t0, steps[..n], i, at) && !steps[n].Clear?
      ensures LockStepAt(c, k, t0, steps, i, at) ==> at < Run(c, k, t0, steps[..n]).value.now + c.lockout
    {
      LockStepNext(c, k, t0, steps, i, at);
      if 0 <= i {
        assert steps[..n][..i] == steps[..i];
        ClockRuns(c, k, t0, steps[..n], i);
      }
    }
  }

  lemma LockKeyStep(c: Config, s: State, step: Step, at: int)
    requires Performable(s, step)
    ensures Locked(Apply(c, s, step).keys, at) <==>
            if step.Lock? then at < s.now + c.lockout else !step.Clear? && Locked(s.keys, at)
  {
  }

  /** In every interleaving the account is locked exactly while some SET is
      younger than the lockout duration and no Reset came after it. */
  lemma {:induction false} LockedIff(c: Config, k: nat, t0: int, steps: seq<Step>, at: int)
    requires Run(c, k, t0, steps).Some?
    ensures Locked(Run(c, k, t0, steps).value.keys, at) <==> SomeLockStep(c, k, t0, steps, at)
  {
    if steps == [] {
    } else {
      var n := |steps| - 1;
      LockedIff(c, k, t0, steps[..n], at);
      LastLockStep(c, k, t0, steps, at);
      LockKeyStep(c, Run(c, k, t0, steps[..n]).value, steps[n], at);
    }
  }
}
